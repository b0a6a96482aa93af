/** Numbers in any base, most significant digit first, and the in-place step that turns one base into
    another. */
module Radix {
  import opened Basics

  function Pow(b: nat, n: nat): nat {
    if n == 0 then 1 else b * Pow(b, n - 1)
  }

  lemma {:induction false} PowPositive(b: nat, n: nat)
    requires b > 0
    ensures Pow(b, n) > 0
  {
    if n > 0 {
      PowPositive(b, n - 1);
      MulLeq(1, b, Pow(b, n - 1));
    }
  }

  lemma {:induction false} PowAdd(b: nat, m: nat, n: nat)
    ensures Pow(b, m + n) == Pow(b, m) * Pow(b, n)
  {
    if m > 0 {
      PowAdd(b, m - 1, n);
      assert b * (Pow(b, m - 1) * Pow(b, n)) == (b * Pow(b, m - 1)) * Pow(b, n);
    }
  }

  lemma {:induction false} PowPow(b: nat, m: nat, n: nat)
    ensures m * n >= 0 && Pow(Pow(b, m), n) == Pow(b, m * n)
    decreases n
  {
    MulLeq(0, m, n);
    if n > 0 {
      PowPow(b, m, n - 1);
      MulLeq(0, m, n - 1);
      assert m * n == m + m * (n - 1);
      PowAdd(b, m, m * (n - 1));
    } else {
      assert m * 0 == 0;
    }
  }

  lemma {:induction false} PowMonotoneBase(a: nat, b: nat, n: nat)
    requires a <= b
    ensures Pow(a, n) <= Pow(b, n)
  {
    if n > 0 {
      PowMonotoneBase(a, b, n - 1);
      MulLeq(Pow(a, n - 1), Pow(b, n - 1), a);
      MulLeq(a, b, Pow(b, n - 1));
    }
  }

  lemma {:induction false} PowIncreasing(b: nat, m: nat, n: nat)
    requires b >= 2 && m <= n
    ensures Pow(b, m) <= Pow(b, n) && (m < n ==> Pow(b, m) < Pow(b, n))
    decreases n
  {
    if m < n {
      PowIncreasing(b, m, n - 1);
      PowPositive(b, n - 1);
      MulLeq(2, b, Pow(b, n - 1));
    }
  }

  /** Powers compare as exponents do when the bases are known to compare at one pair of exponents. */
  lemma PowersCompare(a: nat, q: nat, b: nat, p: nat, m: nat, n: nat)
    requires b >= 2 && Pow(a, q) <= Pow(b, p) && p * m < q * n
    ensures Pow(a, m) < Pow(b, n)
  {
    hide Pow;
    MulLeq(0, p, m);
    calc <= {
      Pow(Pow(a, m), q);
      { PowPow(a, m, q); PowPow(a, q, m); assert m * q == q * m; }
      Pow(Pow(a, q), m);
      { PowMonotoneBase(Pow(a, q), Pow(b, p), m); }
      Pow(Pow(b, p), m);
      { PowPow(b, p, m); }
      Pow(b, p * m);
    }
    PowIncreasing(b, p * m, q * n);
    PowPow(b, n, q);
    assert q * n == n * q;
    if Pow(a, m) >= Pow(b, n) {
      PowMonotoneBase(Pow(b, n), Pow(a, m), q);
    }
  }

  // ---------------------------------------------------------------- digits

  ghost predicate AreDigits(s: seq<nat>, base: nat) { forall i :: 0 <= i < |s| ==> s[i] < base }

  function ValueOf(s: seq<nat>, base: nat): nat {
    if s == [] then 0 else ValueOf(s[..|s| - 1], base) * base + s[|s| - 1]
  }

  /** The digits without leading zeros. */
  function DigitsOf(v: nat, base: nat): seq<nat>
    requires base >= 2
  {
    if v == 0 then [] else QuotientLess(v, base); DigitsOf(v / base, base) + [v % base]
  }

  lemma QuotientLess(v: nat, base: nat)
    requires base >= 2 && v > 0
    ensures v / base < v
  {
    if v / base >= v { MulLeq(2, base, v / base); }
  }

  lemma {:induction false} ValueConcat(s: seq<nat>, t: seq<nat>, base: nat)
    ensures ValueOf(s + t, base) == ValueOf(s, base) * Pow(base, |t|) + ValueOf(t, base)
    decreases |t|
  {
    if t == [] {
      assert s + t == s;
    } else {
      hide Pow;
      var u := t[..|t| - 1];
      assert (s + t)[..|s + t| - 1] == s + u;
      ValueConcat(s, u, base);
      PowStep(base, |u|);
      Shift(ValueOf(s, base), Pow(base, |u|), base, ValueOf(u, base));
    }
  }

  lemma Shift(v: nat, p: nat, base: nat, w: nat)
    ensures (v * p + w) * base == v * (base * p) + w * base
  {
    assert (v * p) * base == v * (base * p);
  }

  lemma PowStep(b: nat, n: nat)
    ensures Pow(b, n + 1) == b * Pow(b, n)
  {
  }

  lemma {:induction false} ValueBelow(s: seq<nat>, base: nat)
    requires AreDigits(s, base)
    ensures ValueOf(s, base) < Pow(base, |s|)
  {
    if s != [] {
      ValueBelow(s[..|s| - 1], base);
      DigitBelow(ValueOf(s[..|s| - 1], base), Pow(base, |s| - 1), s[|s| - 1], base);
    }
  }

  lemma DigitBelow(v: nat, p: nat, d: nat, base: nat)
    requires v < p && d < base
    ensures v * base + d < base * p == p * base
  {
    MulLeq(v + 1, p, base);
  }

  lemma {:induction false} ValueOfZeros(s: seq<nat>, base: nat)
    requires forall i :: 0 <= i < |s| ==> s[i] == 0
    ensures ValueOf(s, base) == 0
  {
    if s != [] {
      ValueOfZeros(s[..|s| - 1], base);
    }
  }

  /** Leading zeros do not count. */
  lemma ValueSkipsZeros(s: seq<nat>, t: seq<nat>, base: nat)
    requires forall i :: 0 <= i < |s| ==> s[i] == 0
    ensures ValueOf(s + t, base) == ValueOf(t, base)
  {
    ValueOfZeros(s, base);
    ValueConcat(s, t, base);
  }

  lemma OneMoreDigit(s: seq<nat>, v: nat, d: nat, base: nat)
    requires AreDigits(s, base) && d < base && v == ValueOf(s, base) * base + d
    requires (s == [] ==> d != 0) && (s != [] ==> s[0] != 0)
    ensures var t := s + [d]; AreDigits(t, base) && ValueOf(t, base) == v && t[0] != 0
  {
    assert (s + [d])[..|s|] == s;
  }

  lemma NoDigits(base: nat)
    ensures ValueOf([], base) == 0
  {
  }

  /** The digits of a number are digits, have its value, and do not start with zero. */
  lemma {:induction false} DigitsHaveValue(v: nat, base: nat)
    requires base >= 2
    ensures var s := DigitsOf(v, base);
      AreDigits(s, base) && ValueOf(s, base) == v && (v > 0 <==> s != []) && (s != [] ==> s[0] != 0)
  {
    hide ValueOf;
    if v > 0 {
      var q, d := v / base, v % base;
      assert v == q * base + d;
      QuotientLess(v, base);
      DigitsHaveValue(q, base);
      OneMoreDigit(DigitsOf(q, base), v, d, base);
    } else {
      NoDigits(base);
    }
  }

  /** Digits that do not start with zero are the digits of their value. */
  lemma {:induction false} DigitsOfValue(s: seq<nat>, base: nat)
    requires base >= 2 && AreDigits(s, base) && (s != [] ==> s[0] != 0)
    ensures DigitsOf(ValueOf(s, base), base) == s
    ensures s != [] ==> ValueOf(s, base) > 0
  {
    if s != [] {
      var t := s[..|s| - 1];
      DigitsOfValue(t, base);
      var v, d := ValueOf(t, base), s[|s| - 1];
      LastDigit(v, base, d);
      if t != [] {
        MulLeq(1, v, base);
      } else {
        assert d == s[0];
      }
    }
  }

  lemma LastDigit(v: nat, base: nat, d: nat)
    requires d < base
    ensures v * base >= 0 && (v * base + d) / base == v && (v * base + d) % base == d
  {
    MulLeq(0, v, base);
    var x := v * base + d;
    assert x == (x / base) * base + x % base;
    assert (x / base - v) * base == d - x % base;
    if x / base > v { MulLeq(1, x / base - v, base); } else if x / base < v { MulLeq(x / base - v, -1, base); }
  }

  // ---------------------------------------------------------------- the step in place

  /** A number in the last `length` cells of a buffer, without leading zeros. */
  ghost predicate Fills(s: seq<nat>, length: nat, base: nat) {
    && length <= |s| && AreDigits(s, base)
    && (forall k :: 0 <= k < |s| - length ==> s[k] == 0)
    && (length > 0 ==> s[|s| - length] != 0)
  }

  /** The last `|s|` cells of the buffer, with what is still to carry, against what they were. */
  ghost predicate Carried(s: seq<nat>, was: seq<nat>, base: nat, factor: nat, digit: nat, carry: nat) {
    && |s| == |was| && AreDigits(s, base) && carry < factor
    && ValueOf(s, base) + carry * Pow(base, |s|) == factor * ValueOf(was, base) + digit
  }

  lemma CarryBelow(carry: nat, factor: nat, y: nat, base: nat)
    requires carry < factor && y < base
    ensures factor * y >= 0 && (carry + factor * y) / base < factor && (carry + factor * y) % base < base
  {
    MulLeq(0, y, factor);
    MulLeq(y, base - 1, factor);
    var c := carry + factor * y;
    assert c < factor * base by { assert factor * (base - 1) == factor * base - factor; }
    assert c == (c / base) * base + c % base;
    if c / base >= factor { MulLeq(factor, c / base, base); }
  }

  lemma CarryOne(s: seq<nat>, was: seq<nat>, base: nat, factor: nat, digit: nat, carry: nat, y: nat)
    requires base >= 2 && y < base && carry < factor && Carried(s, was, base, factor, digit, carry)
    ensures factor * y >= 0
    ensures var c := carry + factor * y; Carried([c % base] + s, [y] + was, base, factor, digit, c / base)
  {
    hide Carried;
    CarryBelow(carry, factor, y, base);
    var c := carry + factor * y;
    CarrySplit(s, was, base, factor, digit, carry, y, c % base, c / base);
  }

  lemma CarrySplit(s: seq<nat>, was: seq<nat>, base: nat, factor: nat, digit: nat, carry: nat, y: nat, x: nat, q: nat)
    requires base >= 2 && x < base && q < factor && q * base + x == carry + factor * y
    requires Carried(s, was, base, factor, digit, carry)
    ensures Carried([x] + s, [y] + was, base, factor, digit, q)
  {
    hide Pow, ValueOf;
    var n := |s|;
    ValueConcat([x], s, base);
    ValueConcat([y], was, base);
    OneDigit(x, base);
    OneDigit(y, base);
    PowPositive(base, n);
    PowStep(base, n);
    assert |[x] + s| == n + 1;
    CarryArithmetic(x, q, base, Pow(base, n), carry, factor, y, ValueOf(was, base));
  }

  lemma OneDigit(x: nat, base: nat)
    ensures ValueOf([x], base) == x
  {
    assert [x][..0] == [];
    assert ValueOf([x], base) == ValueOf([], base) * base + x;
  }

  lemma CarryArithmetic(x: nat, q: nat, base: nat, p: nat, carry: nat, factor: nat, y: nat, v: nat)
    requires q * base + x == carry + factor * y
    ensures x * p + q * (base * p) - carry * p == factor * (y * p + v) - factor * v
  {
    assert (q * base + x) * p == x * p + q * (base * p);
    assert (carry + factor * y) * p == carry * p + factor * (y * p);
    assert factor * (y * p + v) == factor * (y * p) + factor * v;
  }

  /** With nothing left to carry, the cells above stay zero and the whole buffer has the new value. */
  lemma CarryEnds(s: seq<nat>, was: seq<nat>, base: nat, factor: nat, digit: nat, length: nat, i: nat)
    requires base >= 2 && length <= i <= |s| && |s| == |was| && Fills(was, length, base)
    requires forall k :: 0 <= k < |s| - i ==> s[k] == was[k]
    requires Carried(s[|s| - i..], was[|s| - i..], base, factor, digit, 0)
    requires i > length ==> s[|s| - i] != 0
    ensures ValueOf(s, base) == factor * ValueOf(was, base) + digit
    ensures Fills(s, i, base)
  {
    hide Pow, ValueOf;
    var n := |s| - i;
    assert s == s[..n] + s[n..] && was == was[..n] + was[n..];
    ValueSkipsZeros(s[..n], s[n..], base);
    ValueSkipsZeros(was[..n], was[n..], base);
    forall k | 0 <= k < |s| ensures s[k] < base {
      if k >= n { assert s[k] == s[n..][k - n]; }
    }
    if i == length && i > 0 {
      TopStays(s[n..], was[n..], base, factor, digit);
    }
  }

  /** A number that does not shrink keeps its top digit different from zero. */
  lemma TopStays(s: seq<nat>, was: seq<nat>, base: nat, factor: nat, digit: nat)
    requires base >= 2 && factor > 0 && |s| == |was| > 0 && AreDigits(s, base) && AreDigits(was, base) && was[0] != 0
    requires ValueOf(s, base) == factor * ValueOf(was, base) + digit
    ensures s[0] != 0
  {
    hide Pow, ValueOf;
    MulLeq(1, factor, ValueOf(was, base));
    assert was == [was[0]] + was[1..] && s == [s[0]] + s[1..];
    ValueConcat([was[0]], was[1..], base);
    OneDigit(was[0], base);
    MulLeq(1, was[0], Pow(base, |was| - 1));
    PowPositive(base, |was| - 1);
    if s[0] == 0 {
      ValueSkipsZeros([s[0]], s[1..], base);
      ValueBelow(s[1..], base);
    }
  }

  /** A buffer that is large enough leaves no carry. */
  lemma NoCarryLeft(s: seq<nat>, was: seq<nat>, base: nat, factor: nat, digit: nat, carry: nat)
    requires base >= 2 && Carried(s, was, base, factor, digit, carry)
    requires factor * ValueOf(was, base) + digit < Pow(base, |s|)
    ensures carry == 0
  {
    if carry > 0 { MulLeq(1, carry, Pow(base, |s|)); }
  }

  /** Multiplies the number in the buffer by a factor and adds a digit, from the last cell up to where
      nothing is left to carry.  A buffer that is large enough leaves no carry. */
  method MultiplyAdd(buf: array<nat>, base: nat, factor: nat, digit: nat, length: nat) returns (i: nat)
    requires base >= 2 && digit < factor && Fills(buf[..], length, base)
    requires factor * ValueOf(buf[..], base) + digit < Pow(base, buf.Length)
    modifies buf
    ensures Fills(buf[..], i, base) && i >= length
    ensures ValueOf(buf[..], base) == factor * old(ValueOf(buf[..], base)) + digit
  {
    hide Pow, ValueOf, Carried;
    ghost var was := buf[..];
    var size := buf.Length;
    var carry: nat := digit;
    i := 0;
    NothingCarried(base, factor, digit);
    assert buf[size..] == [] && was[size..] == [];
    while (carry != 0 || i < length) && i < size
      invariant i <= size && carry < factor
      invariant forall k :: 0 <= k < size - i ==> buf[k] == was[k]
      invariant Carried(buf[size - i..], was[size - i..], base, factor, digit, carry)
      invariant i > length ==> carry != 0 || buf[size - i] != 0
      decreases size - i
    {
      ghost var tail, y := buf[size - i..], buf[size - 1 - i];
      CarryBelow(carry, factor, y, base);
      CarryOne(tail, was[size - i..], base, factor, digit, carry, y);
      carry := carry + factor * buf[size - 1 - i];
      SmallCarry(carry, base);
      buf[size - 1 - i] := carry % base;
      carry := carry / base;
      i := i + 1;
      assert buf[size - i..] == [buf[size - i]] + tail;
      assert was[size - i..] == [y] + was[size - i + 1..];
    }
    if i == size {
      assert buf[size - i..] == buf[..] && was[size - i..] == was;
      NoCarryLeft(buf[..], was, base, factor, digit, carry);
    }
    assert carry == 0;
    CarryEnds(buf[..], was, base, factor, digit, length, i);
  }

  lemma NothingCarried(base: nat, factor: nat, digit: nat)
    requires digit < factor
    ensures Carried([], [], base, factor, digit, digit)
  {
  }

  /** A carry that ends leaves a digit, unless there was none. */
  lemma SmallCarry(c: nat, base: nat)
    requires base >= 2
    ensures c % base >= 0 && c / base >= 0 && (c > 0 && c / base == 0 ==> c % base != 0)
  {
  }
}
