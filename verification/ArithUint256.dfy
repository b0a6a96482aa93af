/** 256-bit unsigned numbers as arrays of limbs, each operation proved against exact integers.  The
    type U64 on the accumulators says that none of them overflows. */
module ArithUint256 {
  import opened Basics
  import opened Powers
  import opened Limbs

  class ArithUint256 {
    const pn: array<Word>

    ghost predicate Valid() { pn.Length == WIDTH }

    ghost function Value(): (v: nat)
      requires Valid()
      reads pn
    {
      Limbs.Value(pn[..])
    }

    constructor (b: U64)
      ensures Valid() && fresh(pn) && Value() == b
      ensures pn[0] == b % BASE && pn[1] == b / BASE && forall i :: 2 <= i < WIDTH ==> pn[i] == 0
    {
      pn := new Word[WIDTH](i => if i == 0 then b % BASE else if i == 1 then b / BASE else 0);
      new;
      SmallValue(pn[..]);
    }

    constructor Copy(b: ArithUint256)
      requires b.Valid()
      ensures Valid() && fresh(pn) && pn[..] == b.pn[..] && Value() == b.Value()
    {
      pn := new Word[WIDTH];
      new;
      forall i | 0 <= i < WIDTH { pn[i] := b.pn[i]; }
      assert pn[..] == b.pn[..];
    }

    /** The value is what the limbs say, below the bound. */
    lemma InRange()
      requires Valid()
      ensures Value() < Bound()
    {
      LowBelow(pn[..], WIDTH);
    }

    /** Writing one limb moves the value by that limb's weight. */
    method SetLimb(i: nat, x: Word)
      requires Valid() && i < WIDTH
      modifies pn
      ensures pn[..] == old(pn[..])[i := x]
      ensures Value() == old(Value()) + Times(x - old(pn[i]), Weight(i))
    {
      LowUpdate(pn[..], i, x, WIDTH);
      ghost var p := pn[..];
      pn[i] := x;
      assert pn[..] == p[i := x];
    }

    // -------------------------------------------------------------- adding

    method Add(b: ArithUint256)
      requires Valid() && b.Valid()
      modifies pn
      ensures Value() == Wrapped(old(Value()) + old(b.Value()))
    {
      hide Pow2, Weight, Bound, Wrapped, Times, Low;
      ghost var p, q := pn[..], b.pn[..];
      LowZero(p, 0);
      LowZero(q, 0);
      TimesOne(Weight(0));
      var carry: U64 := 0;
      for i := 0 to WIDTH
        invariant carry <= 1
        invariant forall j | i <= j < WIDTH :: pn[j] == p[j] && b.pn[j] == q[j]
        invariant Low(pn[..], i) + Times(carry, Weight(i)) == Low(p, i) + Low(q, i)
      {
        ghost var r := pn[..];
        ghost var c := carry;
        var n: U64 := carry + pn[i] + b.pn[i];
        pn[i] := n % BASE;
        carry := n / BASE;
        LowSame(r, pn[..], i);
        Carry(n, i);
        LowStep(pn[..], i);
        LowStep(p, i);
        LowStep(q, i);
        TimesAdd(c + p[i], q[i], Weight(i));
        TimesAdd(c, p[i], Weight(i));
      }
      WeightStep(WIDTH);
      InRange();
      WrappedIs(Low(p, WIDTH) + Low(q, WIDTH), carry, Value());
    }

    method Increment()
      requires Valid()
      modifies pn
      ensures Value() == Wrapped(old(Value()) + 1)
    {
      hide Pow2, Weight, Low, Times, Bound, Wrapped;
      var i := 0;
      InRange();
      WeightStep(0);
      TimesOne(Bound());
      while i < WIDTH
        invariant i <= WIDTH
        invariant old(Value()) + 1 == Value() + Weight(i)
        decreases WIDTH - i
      {
        ghost var before := pn[i];
        WeightStep(i);
        TimesOne(Weight(i));
        SetLimb(i, (pn[i] + 1) % BASE);
        if pn[i] != 0 {
          InRange();
          WrappedIs(old(Value()) + 1, 0, Value());
          return;
        }
        assert before == BASE - 1;
        i := i + 1;
      }
      InRange();
      WrappedIs(old(Value()) + 1, 1, Value());
    }

    method Decrement()
      requires Valid()
      modifies pn
      ensures Value() == Wrapped(old(Value()) - 1)
    {
      hide Pow2, Weight, Low, Times, Bound, Wrapped;
      var i := 0;
      InRange();
      WeightStep(0);
      TimesOne(Bound());
      while i < WIDTH
        invariant i <= WIDTH
        invariant old(Value()) - 1 == Value() - Weight(i)
        decreases WIDTH - i
      {
        ghost var before := pn[i];
        WeightStep(i);
        TimesOne(Weight(i));
        SetLimb(i, (pn[i] - 1) % BASE);
        if pn[i] != BASE - 1 {
          InRange();
          WrappedIs(old(Value()) - 1, 0, Value());
          return;
        }
        assert before == 0;
        i := i + 1;
      }
      InRange();
      WrappedIs(old(Value()) - 1, -1, Value());
    }

    /** Every bit flipped. */
    method Complement() returns (r: ArithUint256)
      requires Valid()
      ensures fresh(r) && r.Valid() && fresh(r.pn) && r.Value() == Bound() - 1 - Value()
    {
      hide Pow2, Weight, Low, Times, Bound;
      r := new ArithUint256(0);
      LowZero(r.pn[..], 0);
      LowZero(pn[..], 0);
      WeightStep(0);
      for i := 0 to WIDTH
        invariant fresh(r) && r.Valid() && fresh(r.pn)
        invariant Low(r.pn[..], i) + Low(pn[..], i) == Weight(i) - 1
      {
        ghost var before := r.pn[..];
        r.pn[i] := BASE - 1 - pn[i];
        LowSame(before, r.pn[..], i);
        WeightStep(i);
        LowStep(pn[..], i);
        LowStep(r.pn[..], i);
        TimesAdd(BASE - 1 - pn[i], pn[i], Weight(i));
        TimesOne(Weight(i));
      }
    }

    method Negated() returns (r: ArithUint256)
      requires Valid()
      ensures fresh(r) && r.Valid() && fresh(r.pn) && r.Value() == Wrapped(Bound() - Value())
    {
      hide *;
      InRange();
      r := Complement();
      r.Increment();
    }

    method Subtract(b: ArithUint256)
      requires Valid() && b.Valid()
      modifies pn
      ensures Value() == Wrapped(old(Value()) - old(b.Value()))
    {
      hide *;
      var negated := b.Negated();
      Add(negated);
      WrappedSame(old(Value()), Bound() - old(b.Value()));
      WrappedSame(old(Value()) - old(b.Value()), 0);
    }

    // -------------------------------------------------------------- shifting

    method Clear()
      requires Valid()
      modifies pn
      ensures forall i | 0 <= i < WIDTH :: pn[i] == 0
      ensures Value() == 0
    {
      for i := 0 to WIDTH
        invariant forall j | 0 <= j < i :: pn[j] == 0
      {
        pn[i] := 0;
      }
      LowZero(pn[..], WIDTH);
    }

    /** Puts bits into a limb that has none of them set: the limb's own bits are the lowest `n`. */
    method OrLimb(i: nat, x: Word, ghost n: nat)
      requires Valid() && i < WIDTH && n <= 32 && pn[i] < Pow2(n) && x % Pow2(n) == 0
      modifies pn
      ensures pn[i] == old(pn[i]) + x && forall j | 0 <= j < WIDTH && j != i :: pn[j] == old(pn[j])
      ensures Value() == old(Value()) + Times(x, Weight(i))
    {
      hide Low, Weight, Times, Bound;
      OrLimbs(pn[i], x, n);
      SetLimb(i, Or(pn[i], x));
    }

    method ShiftLeft(shift: nat)
      requires Valid()
      modifies pn
      ensures Value() == Wrapped(Times(old(Value()), Pow2(shift)))
    {
      hide Pow2, Weight, Low, Bound, Times, Wrapped, Shl, Shr;
      ghost var p := pn[..];
      var a := new ArithUint256.Copy(this);
      Clear();
      var k, s := shift / 32, shift % 32;
      ghost var lost: nat := 0;
      LowZero(p, 0);
      TimesOne(Pow2(shift));
      TimesOne(Bound());
      for i := 0 to WIDTH
        invariant a.pn != pn && a.Valid() && a.pn[..] == p && fresh(a.pn)
        invariant forall j | i + k < j < WIDTH :: pn[j] == 0
        invariant i + k < WIDTH ==> pn[i + k] < Pow2(s)
        invariant Value() + Times(lost, Bound()) == Times(Low(p, i), Pow2(shift))
      {
        var x := a.pn[i];
        ShiftedLimb(x, s);
        if i + k + 1 < WIDTH && s != 0 {
          NoBits(Shr(x, 32 - s));
          OrLimb(i + k + 1, Shr(x, 32 - s), 0);
        }
        if i + k < WIDTH {
          OrLimb(i + k, Shl(x, s), s);
        }
        if i + k + 1 >= WIDTH {
          lost := Spill(Shr(x, 32 - s), i + k + 1, lost);
        }
        if i + k >= WIDTH {
          lost := Spill(Shl(x, s), i + k, lost);
        }
        TimesOne(Weight(i + k + 1));
        ShiftLeftStep(x, s, k, i);
        LowStep(p, i);
        TimesAdd(Low(p, i), Times(x, Weight(i)), Pow2(shift));
      }
      InRange();
      WrappedIs(Times(old(Value()), Pow2(shift)), lost, Value());
    }

    method ShiftRight(shift: nat)
      requires Valid()
      modifies pn
      ensures Value() == old(Value()) / Pow2(shift)
    {
      hide Pow2, Weight, Low, Times, Shl, Shr;
      ghost var p := pn[..];
      var a := new ArithUint256.Copy(this);
      Clear();
      var k, s := shift / 32, shift % 32;
      ghost var rest: nat := 0;
      LowZero(p, 0);
      TimesOne(Pow2(shift));
      for i := 0 to WIDTH
        invariant a.pn != pn && a.Valid() && a.pn[..] == p && fresh(a.pn)
        invariant forall j | 0 <= j < WIDTH && j >= i - k :: pn[j] == 0
        invariant i - k - 1 >= 0 ==> pn[i - k - 1] < Pow2(32 - s)
        invariant Low(p, i) == Times(Value(), Pow2(shift)) + rest && rest < Pow2(shift)
        invariant i <= k ==> Value() == 0 && rest == Low(p, i)
      {
        var x := a.pn[i];
        ghost var before := Value();
        ShiftedLimb(x, 32 - s);
        LowStep(p, i);
        LowBelow(p, i);
        if i - k - 1 >= 0 && s != 0 {
          OrLimb(i - k - 1, Shl(x, 32 - s), 32 - s);
        }
        if i - k >= 0 {
          NoBits(Shr(x, s));
          OrLimb(i - k, Shr(x, s), 0);
        }
        if i < k {
          LowBelow(p, i + 1);
          rest := Low(p, i + 1);
          WeightBelow(i + 1, shift);
        } else if i == k {
          WeightStep(0);
          TimesUnit(Shr(x, s));
          ShiftRightEdge(x, s, k, Low(p, k));
          rest := rest + Times(x % Pow2(s), Weight(k));
        } else {
          TimesOne(Weight(i - k - 1));
          ShiftRightStep(x, s, k, i);
          TimesAdd(before, Times(Shl(x, 32 - s), Weight(i - k - 1)) + Times(Shr(x, s), Weight(i - k)), Pow2(shift));
        }
      }
      QuotientIs(old(Value()), Pow2(shift), Value(), rest);
    }

    // -------------------------------------------------------------- multiplying

    method MultiplyWord(b: Word)
      requires Valid()
      modifies pn
      ensures Value() == Wrapped(Times(old(Value()), b))
    {
      hide Pow2, Weight, Low, Bound, Times, Wrapped;
      ghost var p := pn[..];
      var carry: U64 := 0;
      LowZero(p, 0);
      TimesOne(Weight(0));
      TimesOne(b);
      for i := 0 to WIDTH
        invariant carry < BASE
        invariant forall j | i <= j < WIDTH :: pn[j] == p[j]
        invariant Low(pn[..], i) + Times(carry, Weight(i)) == Times(Low(p, i), b)
      {
        ghost var r := pn[..];
        ghost var c := carry;
        WordProduct(b, pn[i]);
        var n: U64 := carry + b * pn[i];
        pn[i] := n % BASE;
        carry := n / BASE;
        LowSame(r, pn[..], i);
        Carry(n, i);
        LowStep(pn[..], i);
        LowStep(p, i);
        TimesAdd(Low(p, i), Times(p[i], Weight(i)), b);
        TimesAdd(c, b * p[i], Weight(i));
        TimesSwap(p[i], Weight(i), b);
      }
      InRange();
      WeightStep(0);
      WrappedIs(Times(old(Value()), b), carry, Value());
    }

    method Assign(b: ArithUint256)
      requires Valid() && b.Valid()
      modifies pn
      ensures Value() == old(b.Value())
    {
      ghost var q := b.pn[..];
      for i := 0 to WIDTH
        invariant forall j | 0 <= j < i :: pn[j] == q[j]
        invariant forall j | i <= j < WIDTH :: b.pn[j] == q[j]
      {
        pn[i] := b.pn[i];
      }
      assert pn[..] == q;
    }

    method AssignU64(b: U64)
      requires Valid()
      modifies pn
      ensures Value() == b
    {
      pn[0] := b % BASE;
      pn[1] := b / BASE;
      for i := 2 to WIDTH
        invariant pn[0] == b % BASE && pn[1] == b / BASE && forall j | 2 <= j < i :: pn[j] == 0
      {
        pn[i] := 0;
      }
      SmallValue(pn[..]);
    }

    /** One row of the schoolbook product, added to the accumulator. */
    method AddRow(x: Word, b: ArithUint256, j: nat) returns (ghost carry: nat)
      requires Valid() && b.Valid() && pn != b.pn && j < WIDTH
      modifies pn
      ensures Value() + Times(carry, Bound())
        == old(Value()) + Times(Times(x, Low(b.pn[..], WIDTH - j)), Weight(j))
    {
      hide Pow2, Weight, Low, Bound, Times;
      ghost var q := b.pn[..];
      var rest: U64 := 0;
      LowZero(q, 0);
      TimesOne(Weight(j));
      TimesOne(Weight(0));
      TimesZero(x, Weight(j));
      for i := 0 to WIDTH - j
        invariant rest < BASE && b.pn[..] == q
        invariant Value() + Times(rest, Weight(i + j)) == old(Value()) + Times(Times(x, Low(q, i)), Weight(j))
      {
        ghost var c, r := rest, pn[i + j];
        WordProduct(x, b.pn[i]);
        var n: U64 := rest + pn[i + j] + x * b.pn[i];
        SetLimb(i + j, n % BASE);
        rest := n / BASE;
        Carry(n, i + j);
        RowStep(x, q, i, j);
        TimesAdd(n % BASE - r, r, Weight(i + j));
        TimesAdd(c + r, x * q[i], Weight(i + j));
        TimesAdd(c, r, Weight(i + j));
      }
      WeightStep(0);
      carry := rest;
    }

    method Multiply(b: ArithUint256)
      requires Valid() && b.Valid()
      modifies pn
      ensures Value() == Wrapped(Times(old(Value()), old(b.Value())))
    {
      hide Pow2, Weight, Low, Bound, Times, Wrapped;
      ghost var p, q := pn[..], b.pn[..];
      ghost var lost: nat := 0;
      var a := new ArithUint256(0);
      LowZero(p, 0);
      TimesOne(Limbs.Value(q));
      TimesOne(Bound());
      for j := 0 to WIDTH
        invariant fresh(a.pn) && a.Valid() && pn[..] == p && b.pn[..] == q
        invariant a.Value() + Times(lost, Bound()) == Times(Low(p, j), Limbs.Value(q))
      {
        ghost var carry := a.AddRow(pn[j], b, j);
        RowCut(p[j], q, j);
        LowStep(p, j);
        TimesAdd(Low(p, j), Times(p[j], Weight(j)), Limbs.Value(q));
        TimesAdd(lost, carry, Bound());
        TimesAdd(lost + carry, p[j] * High(q, WIDTH - j), Bound());
        MulLeq(0, p[j], High(q, WIDTH - j));
        lost := lost + carry + p[j] * High(q, WIDTH - j);
      }
      a.InRange();
      WrappedIs(Times(old(Value()), old(b.Value())), lost, a.Value());
      Assign(a);
    }

    // -------------------------------------------------------------- comparing

    method CompareTo(b: ArithUint256) returns (r: int)
      requires Valid() && b.Valid()
      ensures r < 0 <==> Value() < b.Value()
      ensures r == 0 <==> Value() == b.Value()
    {
      var i := WIDTH - 1;
      while i >= 0
        invariant -1 <= i < WIDTH
        invariant forall j | i < j < WIDTH :: pn[j] == b.pn[j]
      {
        if pn[i] < b.pn[i] {
          LessByLimb(pn[..], b.pn[..], i);
          return -1;
        }
        if pn[i] > b.pn[i] {
          LessByLimb(b.pn[..], pn[..], i);
          return 1;
        }
        i := i - 1;
      }
      assert pn[..] == b.pn[..];
      return 0;
    }

    method EqualTo(b: U64) returns (r: bool)
      requires Valid()
      ensures r <==> Value() == b
    {
      hide Pow2, Weight, Low;
      var other := new ArithUint256(b);
      ghost var p, q := pn[..], other.pn[..];
      SameValue(p, q);
      var i := WIDTH - 1;
      while i >= 2
        invariant 1 <= i < WIDTH
        invariant forall j | i < j < WIDTH :: pn[j] == 0
      {
        if pn[i] != 0 { return false; }
        i := i - 1;
      }
      if pn[1] != b / BASE { return false; }
      if pn[0] != b % BASE { return false; }
      assert p == q;
      return true;
    }

    /** The position of the highest bit set plus one, or zero. */
    method Bits() returns (n: nat)
      requires Valid()
      ensures n == BitLength(Value())
    {
      hide Pow2, BitLength, HasBit;
      var pos := WIDTH - 1;
      while pos >= 0
        invariant -1 <= pos < WIDTH
        invariant forall j | pos < j < WIDTH :: pn[j] == 0
      {
        if pn[pos] != 0 {
          var nbits := 31;
          Pow2Of32();
          while nbits > 0
            invariant 0 <= nbits <= 31 && pn[pos] < Pow2(nbits + 1)
          {
            TopBit(pn[pos], nbits);
            if HasBit(pn[pos], nbits) {
              LengthByLimb(pn[..], pos, nbits);
              return 32 * pos + nbits + 1;
            }
            nbits := nbits - 1;
          }
          NoBits(0);
          LengthByLimb(pn[..], pos, 0);
          return 32 * pos + 1;
        }
        pos := pos - 1;
      }
      LowZero(pn[..], WIDTH);
      assert BitLength(0) == 0 by { LengthOfZero(); }
      return 0;
    }

    method GetLow64() returns (r: U64)
      requires Valid()
      ensures r == Value() % (BASE * BASE)
    {
      r := LowLimbs(pn[0], pn[1]);
      LowOfValue(pn[..]);
    }

    // -------------------------------------------------------------- dividing

    /** Sets bits below the limb's own, which are multiples of two to the power of `n`. */
    method OrBelow(i: nat, x: Word, ghost n: nat)
      requires Valid() && i < WIDTH && n <= 32 && x < Pow2(n) && pn[i] % Pow2(n) == 0
      modifies pn
      ensures pn[..] == old(pn[..])[i := old(pn[i]) + x]
      ensures Value() == old(Value()) + Times(x, Weight(i))
    {
      hide Low, Weight, Times, Bound, Pow2;
      OrLimbs(x, pn[i], n);
      OrCommutes(x, pn[i]);
      SetLimb(i, Or(pn[i], x));
    }

    /** One turn of the division: the aligned divisor is subtracted from what is left of the number if it
        fits, and the quotient gets the bit. */
    method DivisionStep(num: ArithUint256, div: ArithUint256, shift: nat, ghost n: nat, ghost d: nat)
      requires Valid() && num.Valid() && div.Valid() && pn != num.pn && pn != div.pn && num.pn != div.pn
      requires shift < 256 && ClearBelow(pn[..], shift + 1)
      requires num.Value() + Times(Value(), d) == n && num.Value() < Times(d, Pow2(shift + 1))
      requires div.Value() == Times(d, Pow2(shift))
      modifies pn, num.pn
      ensures ClearBelow(pn[..], shift)
      ensures num.Value() + Times(Value(), d) == n && num.Value() < Times(d, Pow2(shift))
    {
      hide Pow2, Weight, Low, Bound, Times, Wrapped, ClearBelow;
      DoubleStep(d, shift);
      var comparison := num.CompareTo(div);
      if comparison >= 0 {
        num.InRange();
        TimesOne(Bound());
        WrappedIs(num.Value() - div.Value(), 0, num.Value() - div.Value());
        num.Subtract(div);
        ClearAt(pn[..], shift);
        BitOfLimb(shift);
        TimesAdd(Value(), Pow2(shift), d);
        OrBelow(shift / 32, Pow2(shift % 32), shift % 32 + 1);
      } else {
        ClearLess(pn[..], shift);
      }
    }

    /** Shift and subtract.  A zero divisor is refused after the number was already set to zero. */
    method Divide(b: ArithUint256) returns (ok: bool, ghost remainder: nat)
      requires Valid() && b.Valid()
      modifies pn
      ensures ok <==> old(b.Value()) != 0
      ensures ok ==> Value() == old(Value()) / old(b.Value()) && remainder == old(Value()) % old(b.Value())
      ensures !ok ==> Value() == 0
    {
      hide Pow2, Weight, Low, Bound, Times, Wrapped, BitLength, ClearBelow;
      ghost var n, d := Value(), b.Value();
      var div := new ArithUint256.Copy(b);
      var num := new ArithUint256.Copy(this);
      Clear();
      var numBits := num.Bits();
      var divBits := div.Bits();
      InRange();
      div.InRange();
      num.InRange();
      TimesOne(Bound());
      AlignedBound(n, d);
      TimesOne(d);
      remainder := n;
      if divBits == 0 { return false, n; }
      if divBits > numBits {
        QuotientIs(n, d, 0, n);
        return true, n;
      }
      var shift: int := numBits - divBits;
      div.ShiftLeft(shift);
      WrappedIs(Times(d, Pow2(shift)), 0, Times(d, Pow2(shift)));
      NothingBelow(pn[..], shift + 1);
      while shift >= 0
        invariant -1 <= shift < 256
        invariant num.Valid() && div.Valid() && fresh(num.pn) && fresh(div.pn) && num.pn != div.pn
        invariant num.Value() + Times(Value(), d) == n
        invariant num.Value() < Times(d, Pow2(shift + 1))
        invariant shift >= 0 ==> div.Value() == Times(d, Pow2(shift))
        invariant ClearBelow(pn[..], shift + 1)
        decreases shift + 1
      {
        DoubleStep(d, shift);
        DivisionStep(num, div, shift, n, d);
        div.ShiftRight(1);
        shift := shift - 1;
      }
      NoBits(0);
      TimesUnit(d);
      QuotientIs(n, d, Value(), num.Value());
      return true, num.Value();
    }
  }

  lemma SameValue(p: seq<Word>, q: seq<Word>)
    requires |p| == |q|
    ensures Limbs.Value(p) == Limbs.Value(q) <==> p == q
  {
    if p != q {
      DifferentValue(p, q, |p|);
    }
  }

  lemma {:induction false} DifferentValue(p: seq<Word>, q: seq<Word>, n: nat)
    requires n <= |p| == |q| && p != q && forall i :: n <= i < |p| ==> p[i] == q[i]
    ensures Limbs.Value(p) != Limbs.Value(q)
  {
    if n == 0 {
      assert false;
    } else if p[n - 1] < q[n - 1] {
      LessByLimb(p, q, n - 1);
    } else if q[n - 1] < p[n - 1] {
      LessByLimb(q, p, n - 1);
    } else {
      DifferentValue(p, q, n - 1);
    }
  }

  /** The highest limb that is not zero gives the length of the number in bits. */
  lemma LengthByLimb(p: seq<Word>, pos: nat, n: nat)
    requires pos < |p| && (forall j :: pos < j < |p| ==> p[j] == 0)
    requires n < 32 && Pow2(n) <= p[pos] < Pow2(n + 1)
    ensures BitLength(Limbs.Value(p)) == 32 * pos + n + 1
  {
    hide BitLength, Pow2, Low, High, Times;
    SplitValue(p, pos + 1);
    HighZero(p, pos + 1);
    TimesOne(Weight(pos + 1));
    LowStep(p, pos);
    LowBelow(p, pos);
    Pow2Add(n, 32 * pos);
    Pow2Add(n + 1, 32 * pos);
    TimesBetween(Pow2(n), p[pos], Pow2(n + 1), Weight(pos));
    BitLengthIs(Limbs.Value(p), 32 * pos + n + 1);
  }

  lemma TimesBetween(a: int, x: int, b: int, w: nat)
    requires a <= x < b
    ensures a * w <= Times(x, w) && Times(x, w) + w <= b * w
  {
    MulLeq(a, x, w);
    MulLeq(x + 1, b, w);
  }

  lemma TimesSwap(x: nat, w: nat, b: nat)
    ensures Times(Times(x, w), b) == Times(b * x, w)
  {
    assert (x * w) * b == (b * x) * w;
  }

  lemma TimesZero(x: nat, w: nat)
    ensures Times(Times(x, 0), w) == 0
  {
  }

  lemma SmallValue(p: seq<Word>)
    requires |p| == WIDTH && forall i :: 2 <= i < WIDTH ==> p[i] == 0
    ensures Limbs.Value(p) == p[0] + p[1] * BASE
  {
    hide Pow2, Weight, Times, Low, High;
    HighZero(p, 2);
    SplitValue(p, 2);
    WeightStep(0);
    LowZero(p, 0);
    LowStep(p, 0);
    LowStep(p, 1);
    TimesUnit(p[0]);
    TimesUnit(p[1]);
  }

  /** Adds what lands above the top limb to what is lost. */
  ghost function Spill(x: nat, j: nat, lost: nat): (more: nat)
    requires j >= WIDTH
    ensures Times(more, Bound()) == Times(lost, Bound()) + Times(x, Weight(j))
  {
    MulLeq(0, x, Weight(j - WIDTH));
    Beyond(x, j);
    TimesAdd(lost, Times(x, Weight(j - WIDTH)), Bound());
    lost + Times(x, Weight(j - WIDTH))
  }

  lemma OrLimbs(y: Word, x: Word, n: nat)
    requires n <= 32 && y < Pow2(n) && x % Pow2(n) == 0
    ensures Or(y, x) == y + x < BASE
  {
    hide Or, Pow2;
    var p, q, h := Pow2(n), Pow2(32 - n), x / Pow2(n);
    assert q * p == BASE by {
      Pow2Of32();
      Pow2Add(32 - n, n);
    }
    assert x == h * p;
    OrIsSum(y, h, n);
    MultipleBelow(h, q, p);
  }

  lemma QuotientIs(x: nat, m: nat, q: int, rest: nat)
    requires rest < m && x == Times(q, m) + rest
    ensures x / m == q && x % m == rest
  {
    RemainderIs(x, m, q, rest);
  }

  lemma MultipleBelow(h: int, q: int, p: int)
    requires p > 0 && h * p < q * p
    ensures h * p + p <= q * p
  {
    if h >= q { MulLeq(q, h, p); }
    MulLeq(h, q - 1, p);
  }

  // ---------------------------------------------------------------- for division

  function LowLimbs(low: Word, high: Word): (r: U64)
    ensures r == low + high * BASE
  {
    Pow2Of32();
    OrIsSum(low, high, 32);
    Or(low, high * BASE)
  }

  lemma LowOfValue(p: seq<Word>)
    requires |p| == WIDTH
    ensures Limbs.Value(p) % (BASE * BASE) == p[0] + p[1] * BASE
  {
    hide Pow2, Weight, Times, Low, High;
    SplitValue(p, 2);
    WeightStep(0);
    WeightStep(1);
    LowZero(p, 0);
    LowStep(p, 0);
    LowStep(p, 1);
    TimesUnit(p[0]);
    TimesUnit(p[1]);
    RemainderIs(Limbs.Value(p), BASE * BASE, High(p, 2), p[0] + p[1] * BASE);
  }

  /** Aligning the divisor with the number loses no bits, and the aligned divisor is more than half of
      what is needed. */
  lemma AlignedBound(n: nat, d: nat)
    requires n < Bound() && d < Bound()
    ensures BitLength(n) <= 256 && (BitLength(d) == 0 <==> d == 0)
    ensures BitLength(d) > BitLength(n) ==> n < d
    ensures 0 < BitLength(d) <= BitLength(n) ==>
              var shift := BitLength(n) - BitLength(d);
              0 <= Times(d, Pow2(shift)) < Bound() && n < Times(d, Pow2(shift + 1))
  {
    hide BitLength, Pow2;
    BitLengthAtMost(n, 256);
    BitLengthBounds(n);
    BitLengthBounds(d);
    LengthOfZero();
    NoBits(0);
    var k, l := BitLength(n), BitLength(d);
    if l > k {
      Pow2Monotone(k, l - 1);
    } else if l > 0 {
      Pow2Monotone(k, 256);
      Pow2Add(l, k - l);
      Pow2Add(l - 1, k - l + 1);
      MulLess(d, Pow2(l), Pow2(k - l));
      MulLeq(Pow2(l - 1), d, Pow2(k - l + 1));
    }
  }

  lemma DoubleStep(d: nat, shift: nat)
    ensures Times(d, Pow2(shift + 1)) == 2 * Times(d, Pow2(shift))
    ensures shift > 0 ==> Times(d, Pow2(shift)) / Pow2(1) == Times(d, Pow2(shift - 1))
    ensures Times(Pow2(shift), d) == Times(d, Pow2(shift))
  {
    assert d * (2 * Pow2(shift)) == 2 * (d * Pow2(shift));
    if shift > 0 {
      assert d * (2 * Pow2(shift - 1)) == 2 * (d * Pow2(shift - 1));
    }
    assert Pow2(1) == 2;
  }

  /** The number of low bits of a limb that lie below a position. */
  function Below(t: int, i: nat): (n: nat)
    ensures n <= 32
  {
    var n := t - 32 * i;
    if n < 0 then 0 else if n > 32 then 32 else n
  }

  /** No bit below the position is set. */
  ghost predicate ClearBelow(p: seq<Word>, t: int) {
    forall i :: 0 <= i < |p| ==> p[i] % Pow2(Below(t, i)) == 0
  }

  lemma NothingBelow(p: seq<Word>, t: int)
    requires forall i :: 0 <= i < |p| ==> p[i] == 0
    ensures ClearBelow(p, t)
  {
    hide Pow2, Below;
    forall i | 0 <= i < |p| ensures p[i] % Pow2(Below(t, i)) == 0 {
      RemainderIs(0, Pow2(Below(t, i)), 0, 0);
    }
  }

  lemma Halved(x: nat, n: nat)
    requires x % Pow2(n + 1) == 0
    ensures x % Pow2(n) == 0 && (x + Pow2(n)) % Pow2(n) == 0
  {
    var p, q := Pow2(n), x / Pow2(n + 1);
    assert x == q * (2 * p);
    assert q * (2 * p) == (2 * q) * p;
    RemainderIs(x, p, 2 * q, 0);
    RemainderIs(x + p, p, 2 * q + 1, 0);
  }

  lemma ClearLess(p: seq<Word>, shift: nat)
    requires ClearBelow(p, shift + 1)
    ensures ClearBelow(p, shift)
  {
    hide Pow2;
    forall i | 0 <= i < |p| ensures p[i] % Pow2(Below(shift, i)) == 0 {
      assert p[i] % Pow2(Below(shift + 1, i)) == 0;
      if Below(shift, i) < Below(shift + 1, i) { Halved(p[i], Below(shift, i)); }
    }
  }

  /** The limb of a position, when no bit up to it is set. */
  lemma ClearAt(p: seq<Word>, shift: nat)
    requires ClearBelow(p, shift + 1) && shift / 32 < |p|
    ensures p[shift / 32] % Pow2(shift % 32 + 1) == 0
    ensures p[shift / 32] + Pow2(shift % 32) < BASE
    ensures ClearBelow(p[shift / 32 := p[shift / 32] + Pow2(shift % 32)], shift)
  {
    hide Pow2;
    var i, n := shift / 32, shift % 32;
    assert Below(shift + 1, i) == n + 1 && Below(shift, i) == n;
    assert p[i] % Pow2(n + 1) == 0;
    Halved(p[i], n);
    RoomForBit(p[i], n);
    ClearLess(p, shift);
  }

  lemma RoomForBit(x: Word, n: nat)
    requires n < 32 && x % Pow2(n + 1) == 0
    ensures x + Pow2(n) < BASE
  {
    var h := x / Pow2(n + 1);
    assert x == h * Pow2(n + 1);
    Pow2Of32();
    Pow2Add(31 - n, n + 1);
    MultipleBelow(h, Pow2(31 - n), Pow2(n + 1));
  }

  lemma BitOfLimb(shift: nat)
    ensures Pow2(shift % 32) < Pow2(shift % 32 + 1)
    ensures Times(Pow2(shift % 32), Weight(shift / 32)) == Pow2(shift)
  {
    Pow2Add(shift % 32, 32 * (shift / 32));
  }
}
