/** Rows of 32-bit limbs, least significant first, and the numbers they stand for. */
module Limbs {
  import opened Basics
  import opened Powers

  const BASE := 0x1_0000_0000
  type Word = x: int | 0 <= x < BASE
  type U64 = x: int | 0 <= x < 0x1_0000_0000_0000_0000

  /** The number of limbs of a 256-bit number. */
  const WIDTH := 8

  /** What one unit of the n-th limb is worth. */
  function Weight(n: nat): (w: nat)
    ensures w > 0
  {
    Pow2(32 * n)
  }

  /** Numbers are computed modulo this: two to the power of 256. */
  function Bound(): (b: nat)
    ensures b > 0
  {
    Weight(WIDTH)
  }

  ghost function Times(x: int, w: nat): int { x * w }

  /** What is left of a number in 256 bits. */
  function Wrapped(x: int): nat { x % Bound() }

  lemma WrappedIs(x: int, q: int, v: nat)
    requires v < Bound() && x == Times(q, Bound()) + v
    ensures Wrapped(x) == v
  {
    RemainderIs(x, Bound(), q, v);
  }

  lemma WrappedSame(x: int, y: int)
    ensures Wrapped(x + Wrapped(y)) == Wrapped(x + y)
    ensures Wrapped(Bound() + x) == Wrapped(x)
  {
    var s := x + Wrapped(y);
    assert x + y == (s / Bound() + y / Bound()) * Bound() + s % Bound();
    WrappedIs(x + y, s / Bound() + y / Bound(), s % Bound());
    assert Bound() + x == (1 + x / Bound()) * Bound() + x % Bound();
    WrappedIs(Bound() + x, 1 + x / Bound(), x % Bound());
  }

  lemma WeightStep(n: nat)
    ensures Weight(n + 1) == BASE * Weight(n) && Weight(0) == 1 && Weight(WIDTH) == Bound()
  {
    Pow2Of32();
    Pow2Add(32, 32 * n);
  }

  lemma WeightAdd(m: nat, n: nat)
    ensures Weight(m + n) == Weight(m) * Weight(n)
  {
    Pow2Add(32 * m, 32 * n);
  }

  // ---------------------------------------------------------------- values

  /** The value of the first `n` limbs. */
  ghost function Low(p: seq<Word>, n: nat): nat
    requires n <= |p|
  {
    if n == 0 then 0
    else
      MulLeq(0, p[n - 1], Weight(n - 1));
      Low(p, n - 1) + p[n - 1] * Weight(n - 1)
  }

  lemma LowStep(p: seq<Word>, n: nat)
    requires n < |p|
    ensures Low(p, n + 1) == Low(p, n) + Times(p[n], Weight(n))
  {
  }

  ghost function Value(p: seq<Word>): nat { Low(p, |p|) }

  lemma {:induction false} LowBelow(p: seq<Word>, n: nat)
    requires n <= |p|
    ensures Low(p, n) < Weight(n)
  {
    if n > 0 {
      LowBelow(p, n - 1);
      WeightStep(n - 1);
      TopBelow(p[n - 1], Weight(n - 1), Low(p, n - 1));
    }
    hide Weight;
  }

  lemma TopBelow(top: nat, weight: nat, low: nat)
    requires top < BASE && low < weight
    ensures low + top * weight < BASE * weight
  {
    MulLeq(top, BASE - 1, weight);
  }

  lemma {:induction false} LowSame(p: seq<Word>, q: seq<Word>, n: nat)
    requires n <= |p| && n <= |q| && forall i :: 0 <= i < n ==> p[i] == q[i]
    ensures Low(p, n) == Low(q, n)
  {
    if n > 0 {
      LowSame(p, q, n - 1);
    }
  }

  lemma {:induction false} LowUpdate(p: seq<Word>, i: nat, x: Word, n: nat)
    requires i < |p| && n <= |p|
    ensures Low(p[i := x], n) == Low(p, n) + if i < n then Times(x - p[i], Weight(i)) else 0
  {
    if n > 0 {
      LowUpdate(p, i, x, n - 1);
      if i == n - 1 {
        assert (x - p[i]) * Weight(i) == x * Weight(i) - p[i] * Weight(i);
      }
    }
  }

  lemma {:induction false} LowZero(p: seq<Word>, n: nat)
    requires n <= |p| && forall i :: 0 <= i < n ==> p[i] == 0
    ensures Low(p, n) == 0
  {
    if n > 0 {
      LowZero(p, n - 1);
    }
  }

  /** The value of the limbs from the n-th on, in units of the n-th. */
  ghost function High(p: seq<Word>, n: nat): nat
    requires n <= |p|
    decreases |p| - n
  {
    if n == |p| then 0 else p[n] + BASE * High(p, n + 1)
  }

  lemma {:induction false} SplitValue(p: seq<Word>, n: nat)
    requires n <= |p|
    ensures Value(p) == Low(p, n) + High(p, n) * Weight(n)
    decreases |p| - n
  {
    hide Pow2, Weight;
    if n < |p| {
      SplitValue(p, n + 1);
      WeightStep(n);
      var h := High(p, n + 1);
      assert (p[n] + BASE * h) * Weight(n) == p[n] * Weight(n) + h * (BASE * Weight(n));
    }
  }

  lemma {:induction false} HighSame(p: seq<Word>, q: seq<Word>, n: nat)
    requires n <= |p| == |q| && forall i :: n <= i < |p| ==> p[i] == q[i]
    ensures High(p, n) == High(q, n)
    decreases |p| - n
  {
    if n < |p| {
      HighSame(p, q, n + 1);
    }
  }

  /** The highest limb that differs decides. */
  lemma LessByLimb(p: seq<Word>, q: seq<Word>, n: nat)
    requires n < |p| == |q| && p[n] < q[n] && forall i :: n < i < |p| ==> p[i] == q[i]
    ensures Value(p) < Value(q)
  {
    hide Weight, High;
    SplitValue(p, n + 1);
    SplitValue(q, n + 1);
    HighSame(p, q, n + 1);
    LowBelow(p, n);
    MulLeq(p[n] + 1, q[n], Weight(n));
    assert Low(p, n + 1) == Low(p, n) + p[n] * Weight(n);
    assert Low(q, n + 1) == Low(q, n) + q[n] * Weight(n);
    assert (p[n] + 1) * Weight(n) == p[n] * Weight(n) + Weight(n);
  }

  /** A higher limb that is zero from the n-th on adds nothing. */
  lemma {:induction false} HighZero(p: seq<Word>, n: nat)
    requires n <= |p| && forall i :: n <= i < |p| ==> p[i] == 0
    ensures High(p, n) == 0
    decreases |p| - n
  {
    if n < |p| {
      HighZero(p, n + 1);
    }
  }

  // ---------------------------------------------------------------- products with weights

  lemma TimesOne(w: nat)
    ensures Times(0, w) == 0 && Times(1, w) == w && Times(-1, w) == 0 - w
    ensures Times(1 - BASE, w) == w - BASE * w && Times(BASE - 1, w) == BASE * w - w
  {
  }

  lemma TimesUnit(x: int)
    ensures Times(x, 1) == x && Times(x, BASE) == x * BASE
  {
  }

  lemma TimesAdd(x: int, y: int, w: nat)
    ensures Times(x + y, w) == Times(x, w) + Times(y, w)
  {
  }

  lemma TimesTimes(x: int, v: nat, w: nat)
    ensures v * w >= 0 && Times(Times(x, v), w) == Times(x, v * w)
  {
    MulLeq(0, v, w);
    assert (x * v) * w == x * (v * w);
  }

  /** What lands above the top limb is a multiple of the bound. */
  lemma Beyond(x: nat, j: nat)
    requires j >= WIDTH
    ensures Times(x, Weight(j)) == Times(Times(x, Weight(j - WIDTH)), Bound())
  {
    WeightAdd(j - WIDTH, WIDTH);
    TimesTimes(x, Weight(j - WIDTH), Bound());
  }

  /** A number below `p * q`, multiplied by `p`, split at `p * q`. */
  lemma SplitProduct(x: nat, p: nat, q: nat)
    requires p > 0 && q > 0 && x < p * q
    ensures 0 <= x / q < p && 0 <= (x % q) * p < p * q
    ensures x * p == (x / q) * (p * q) + (x % q) * p
  {
    var hi, rest := x / q, x % q;
    assert x == hi * q + rest;
    assert (hi * q + rest) * p == hi * (p * q) + rest * p;
    if hi >= p { MulLeq(p, hi, q); }
    MulLess(rest, q, p);
    MulLeq(0, rest, p);
  }

  lemma NoBits(x: int)
    ensures Pow2(0) == 1 && x % Pow2(0) == 0
  {
  }

  /** The limb shifts of 32-bit words. */
  function Shl(x: Word, s: nat): (r: Word) { x * Pow2(s) % BASE }

  function Shr(x: Word, s: nat): (r: Word)
    ensures s == 32 ==> r == 0
  {
    ShrIsWord(x, s);
    x / Pow2(s)
  }

  lemma ShrIsWord(x: Word, s: nat)
    ensures 0 <= x / Pow2(s) <= x && (s == 32 ==> x / Pow2(s) == 0)
  {
    Pow2Of32();
    var p := Pow2(s);
    hide Pow2;
    var q := x / p;
    if q > x { MulLeq(1, p, q); } else if q < 0 { MulLeq(q, -1, p); }
  }

  /** A limb shifted left by at most its width, split at the limb's width. */
  lemma ShiftedLimb(x: Word, s: nat)
    requires s <= 32
    ensures Times(x, Pow2(s)) == Shl(x, s) + Shr(x, 32 - s) * BASE
    ensures Shl(x, s) < BASE && Shl(x, s) % Pow2(s) == 0 && (s == 32 ==> Shl(x, s) == 0)
    ensures Shr(x, 32 - s) < Pow2(s) <= BASE && (s == 0 ==> Shr(x, 32 - s) == 0)
  {
    Pow2Of32();
    Pow2Add(s, 32 - s);
    Pow2Monotone(s, 32);
    var p, q := Pow2(s), Pow2(32 - s);
    hide Pow2;
    SplitProduct(x, p, q);
    RemainderIs(x * p, BASE, x / q, (x % q) * p);
    RemainderIs((x % q) * p, p, x % q, 0);
  }

  /** The two limbs that a limb shifted left lands on. */
  lemma ShiftLeftStep(x: Word, s: nat, k: nat, i: nat)
    requires s < 32
    ensures Times(Times(x, Weight(i)), Pow2(32 * k + s))
      == Times(Shl(x, s), Weight(i + k)) + Times(Shr(x, 32 - s), Weight(i + k + 1))
  {
    var lo, hi, w := Shl(x, s), Shr(x, 32 - s), Weight(i + k);
    ShiftedLimb(x, s);
    WeightStep(i + k);
    Pow2Add(32 * i, 32 * k + s);
    Pow2Add(s, 32 * (i + k));
    assert 32 * i + (32 * k + s) == s + 32 * (i + k);
    assert Weight(i) * Pow2(32 * k + s) == Pow2(s) * w;
    hide Pow2, Weight, Shl, Shr;
    TimesTimes(x, Weight(i), Pow2(32 * k + s));
    TimesTimes(x, Pow2(s), w);
    TimesAdd(lo, hi * BASE, w);
    TimesTimes(hi, BASE, w);
  }

  /** The two limbs that a limb shifted right lands on. */
  lemma ShiftRightStep(x: Word, s: nat, k: nat, i: nat)
    requires s < 32 && k < i
    ensures Times(x, Weight(i))
      == Times(Times(Shl(x, 32 - s), Weight(i - k - 1)) + Times(Shr(x, s), Weight(i - k)), Pow2(32 * k + s))
  {
    var lo, hi, w := Shl(x, 32 - s), Shr(x, s), Weight(i - k - 1);
    ShiftedLimb(x, 32 - s);
    WeightStep(i - k - 1);
    Pow2Add(32 - s, 32 * (i - k - 1));
    Pow2Add(32 - s + 32 * (i - k - 1), 32 * k + s);
    assert 32 - s + 32 * (i - k - 1) + (32 * k + s) == 32 * i;
    assert (Pow2(32 - s) * w) * Pow2(32 * k + s) == Weight(i);
    hide Pow2, Weight, Shl, Shr;
    TimesTimes(x, Pow2(32 - s), w);
    TimesTimes(x, Pow2(32 - s) * w, Pow2(32 * k + s));
    TimesAdd(lo, hi * BASE, w);
    TimesTimes(hi, BASE, w);
  }

  /** The limb at the edge of a right shift: its high bits land on the lowest limb, the others are part
      of the remainder. */
  lemma ShiftRightEdge(x: Word, s: nat, k: nat, low: nat)
    requires s < 32 && low < Weight(k)
    ensures var rest := Times(x % Pow2(s), Weight(k));
      && Times(x, Weight(k)) == Times(Shr(x, s), Pow2(32 * k + s)) + rest
      && 0 <= rest && low + rest < Pow2(32 * k + s)
  {
    Pow2Add(s, 32 * k);
    SplitTimes(x, Pow2(s), Weight(k), low);
  }

  lemma SplitTimes(x: nat, p: nat, w: nat, low: nat)
    requires p > 0 && low < w
    ensures Times(x, w) == Times(x / p, p * w) + Times(x % p, w)
    ensures 0 <= Times(x % p, w) && low + Times(x % p, w) < p * w
  {
    var hi, rest := x / p, x % p;
    TimesAdd(Times(hi, p), rest, w);
    TimesTimes(hi, p, w);
    MulLeq(rest, p - 1, w);
    MulLeq(0, rest, w);
    assert (p - 1) * w == p * w - w;
  }

  lemma WeightBelow(n: nat, m: nat)
    requires 32 * n <= m
    ensures Weight(n) <= Pow2(m)
  {
    Pow2Monotone(32 * n, m);
  }

  /** A product with a limb's weight, split at the limb's width. */
  lemma Carry(n: nat, i: nat)
    ensures Times(n, Weight(i)) == Times(n % BASE, Weight(i)) + Times(n / BASE, Weight(i + 1))
  {
    WeightStep(i);
    var q, r := n / BASE, n % BASE;
    assert (q * BASE + r) * Weight(i) == r * Weight(i) + q * (BASE * Weight(i));
  }

  lemma WordProduct(x: Word, y: Word)
    ensures 0 <= x * y <= (BASE - 1) * (BASE - 1)
  {
    MulLeq(x, BASE - 1, y);
    MulLeq(y, BASE - 1, BASE - 1);
    MulLeq(0, x, y);
  }

  /** One more limb of a factor in a row of the schoolbook product. */
  lemma RowStep(x: Word, q: seq<Word>, i: nat, j: nat)
    requires i < |q|
    ensures Times(Times(x, Low(q, i + 1)), Weight(j))
      == Times(Times(x, Low(q, i)), Weight(j)) + Times(x * q[i], Weight(i + j))
  {
    var l, y, w := Low(q, i), q[i], Weight(i);
    WeightAdd(i, j);
    LowStep(q, i);
    hide Low, Weight;
    assert x * (l + y * w) == x * l + (x * y) * w;
    TimesAdd(x * l, (x * y) * w, Weight(j));
    TimesTimes(x * y, w, Weight(j));
  }

  lemma Regroup(x: nat, w: nat, l: nat, h: nat, v: nat)
    ensures v * w >= 0 && h * v >= 0
    ensures Times(Times(x, w), l + h * v) == Times(Times(x, l), w) + Times(x * h, v * w)
  {
    MulLeq(0, v, w);
    MulLeq(0, h, v);
    assert (x * w) * (l + h * v) == (x * w) * l + (x * w) * (h * v);
    assert (x * w) * l == (x * l) * w;
    assert (x * w) * (h * v) == (x * h) * (v * w);
  }

  /** A row cut off at the top limb is short by a multiple of the bound. */
  lemma RowCut(x: Word, q: seq<Word>, j: nat)
    requires |q| == WIDTH && j <= WIDTH
    ensures Times(Times(x, Weight(j)), Value(q))
      == Times(Times(x, Low(q, WIDTH - j)), Weight(j)) + Times(x * High(q, WIDTH - j), Bound())
  {
    hide Low, High, Weight, Pow2;
    SplitValue(q, WIDTH - j);
    WeightAdd(WIDTH - j, j);
    WeightStep(0);
    Regroup(x, Weight(j), Low(q, WIDTH - j), High(q, WIDTH - j), Weight(WIDTH - j));
  }
}
