/** The distance of the bech32 code: its generator vanishes at three consecutive powers of e, so that any
    change of up to three symbols within 1023 is detected. */
module Bech32Distance {
  import opened Bech32Code
  import opened GaloisField
  import opened GaloisPowers

  // ---------------------------------------------------------------- remainders as polynomials

  /** The polynomial with the last `n` symbols of a remainder as coefficients, at the power 997 + j of e. */
  function Value(j: nat, c: bv32, n: nat): Element {
    if n == 0 then 0 else Add(Times(Value(j, Down(c), n - 1), Exp(997 + j)), LowSymbol(c))
  }

  lemma LowSymbolLinear(c: bv32, d: bv32)
    ensures LowSymbol(Add(c, d)) == Add(LowSymbol(c), LowSymbol(d))
  {
  }

  lemma {:induction false} ValueLinear(j: nat, c: bv32, d: bv32, n: nat)
    ensures Value(j, Add(c, d), n) == Add(Value(j, c, n), Value(j, d, n))
    decreases n
  {
    hide Add, Times, Exp, Down, LowSymbol;
    if n == 0 {
      AddLaws(0, 0);
    } else {
      var r := Exp(997 + j);
      var x, y := Value(j, Down(c), n - 1), Value(j, Down(d), n - 1);
      DownLinear(c, d);
      LowSymbolLinear(c, d);
      ValueLinear(j, Down(c), Down(d), n - 1);
      TimesLinear(x, y, r);
      AddRegroup(Times(x, r), Times(y, r), LowSymbol(c), LowSymbol(d));
    }
  }

  lemma SymbolParts(s: Sym)
    ensures Down(s) == 0 && LowSymbol(s) == s && Down(0) == 0 && LowSymbol(0) == 0
  {
  }

  lemma {:induction false} ValueZero(j: nat, n: nat)
    ensures Value(j, 0, n) == 0
  {
    hide Add, Times, Exp, Down, LowSymbol;
    if n > 0 {
      SymbolParts(0);
      ValueZero(j, n - 1);
      TimesZero(Exp(997 + j));
      AddLaws(0, 0);
    }
  }

  lemma ValueSymbol(j: nat, s: Sym, n: nat)
    requires n > 0
    ensures Value(j, s, n) == s
  {
    hide Add, Times, Exp, Down, LowSymbol;
    SymbolParts(s);
    ValueZero(j, n - 1);
    TimesZero(Exp(997 + j));
    AddLaws(s, 0);
  }

  lemma {:induction false} DropDown(c: Residue, n: nat)
    ensures Drop(Down(c), n) == Down(Drop(c, n))
  {
    hide Down;
    if n > 0 {
      DropDown(c, n - 1);
    }
  }

  /** The leading term comes apart. */
  lemma {:induction false} ValueTop(j: nat, c: Residue, n: nat)
    ensures (997 + j) * n >= 0
    ensures Value(j, c, n + 1) == Add(Value(j, c, n), Times(LowSymbol(Drop(c, n)), Exp((997 + j) * n)))
    decreases n
  {
    hide Add, Times, Exp, Down, LowSymbol;
    var k := 997 + j;
    if n == 0 {
      TimesZero(Exp(k));
      AddLaws(0, LowSymbol(c));
      TimesOne(LowSymbol(c));
    } else {
      var x, t := Value(j, Down(c), n - 1), LowSymbol(Drop(c, n));
      ValueTop(j, Down(c), n - 1);
      DropDown(c, n - 1);
      assert k * (n - 1) + k == k * n;
      TimesExp(t, k * (n - 1), k);
      var y := Times(t, Exp(k * (n - 1)));
      TimesLinear(x, y, Exp(k));
      AddMoves(Times(x, Exp(k)), Times(y, Exp(k)), LowSymbol(c));
    }
  }

  lemma AddMoves(x: bv32, y: bv32, z: bv32)
    ensures Add(Add(x, y), z) == Add(Add(x, z), y)
  {
    hide Add;
    AddAssociative(x, y, z);
    AddAssociative(x, z, y);
    AddLaws(y, z);
  }

  function And(c: bv32, m: bv32): bv32 { c & m }

  /** The bits of the last `n` symbols. */
  function Mask(n: nat): bv32
    requires n <= 5
  {
    match n
    case 0 => 0
    case 1 => 0x1f
    case 2 => 0x3ff
    case 3 => 0x7fff
    case 4 => 0xf_ffff
    case _ => 0x1ff_ffff
  }

  lemma MaskParts(n: nat)
    requires 0 < n <= 5
    ensures And(Mask(n), 31) == 31 && Down(Mask(n)) == Mask(n - 1)
  {
  }

  lemma AndParts(c: bv32, m: bv32)
    requires And(m, 31) == 31
    ensures LowSymbol(And(c, m)) == LowSymbol(c) && Down(And(c, m)) == And(Down(c), Down(m))
  {
  }

  lemma {:induction false} ValueMasked(j: nat, c: bv32, n: nat)
    requires n <= 5
    ensures Value(j, And(c, Mask(n)), n) == Value(j, c, n)
    decreases n
  {
    hide Add, Times, Exp, Down, LowSymbol, And, Mask;
    if n > 0 {
      MaskParts(n);
      AndParts(c, Mask(n));
      ValueMasked(j, Down(c), n - 1);
    }
  }

  lemma RestSymbols(c: Residue)
    ensures LowSymbol(Rest(c)) == 0 && Down(Rest(c)) == And(c, Mask(5))
  {
  }

  lemma RestValue(j: nat, c: Residue)
    ensures Value(j, Rest(c), 6) == Times(Value(j, c, 5), Exp(997 + j))
  {
    hide Add, Times, Exp, Down, LowSymbol, And, Mask, Rest;
    RestSymbols(c);
    ValueMasked(j, c, 5);
    AddLaws(Times(Value(j, c, 5), Exp(997 + j)), 0);
  }

  // ---------------------------------------------------------------- the generator

  /** All six symbols times two. */
  function DoubleEach(c: bv32): Residue {
    ((c & 0x1ef7_bdef) << 1) ^ ((c >> 4) & 0x0210_8421) ^ (((c >> 4) & 0x0210_8421) << 3)
  }

  lemma DoubleEachParts(c: Residue)
    ensures LowSymbol(DoubleEach(c)) == Double(LowSymbol(c)) && Down(DoubleEach(c)) == DoubleEach(Down(c))
  {
  }

  lemma {:induction false} ValueDouble(j: nat, c: Residue, n: nat)
    ensures Value(j, DoubleEach(c), n) == Double(Value(j, c, n))
    decreases n
  {
    hide Add, Times, Exp, Down, LowSymbol, Double, DoubleEach;
    if n == 0 {
      DoubleZero();
    } else {
      DoubleEachParts(c);
      ValueDouble(j, Down(c), n - 1);
      TimesDouble(Value(j, Down(c), n - 1), Exp(997 + j));
      DoubleLinear(Times(Value(j, Down(c), n - 1), Exp(997 + j)), LowSymbol(c));
    }
  }

  lemma DoubleZero()
    ensures Double(0) == 0
  {
  }

  /** The multiples of the generator's lower terms that the code adds. */
  lemma Multiples()
    ensures DoubleEach(0x3b6a_57b2) == 0x2650_8e6d && DoubleEach(0x2650_8e6d) == 0x1ea1_19fa
    ensures DoubleEach(0x1ea1_19fa) == 0x3d42_33dd && DoubleEach(0x3d42_33dd) == 0x2a14_62b3
  {
  }

  lemma Roots()
    ensures Exp(997) == 0x1bd && Exp(998) == 0x065 && Exp(999) == 0x3d0
  {
    hide Exp;
    SomePowers();
    ExpNext(997);
    ExpNext(998);
    NextRoots();
  }

  lemma ExpNext(n: nat)
    ensures Exp(n + 1) == Raise(Exp(n))
  {
  }

  lemma NextRoots()
    ensures Raise(0x1bd) == 0x065 && Raise(0x065) == 0x3d0
  {
  }

  lemma SixthPower(k: nat)
    ensures Exp(6 * k) == Times(Times(Times(Exp(k), Exp(k)), Times(Exp(k), Exp(k))), Times(Exp(k), Exp(k)))
  {
    hide Exp, Times;
    ExpAdd(k, k);
    ExpAdd(k + k, k + k);
    ExpAdd(k + k + (k + k), k + k);
    assert k + k + (k + k) + (k + k) == 6 * k;
  }

  /** The six symbols of the generator's lower terms, evaluated from the highest to the lowest. */
  lemma Horner(j: nat, r: Element, v2: Element, v3: Element, v4: Element, v5: Element, v6: Element)
    requires Exp(997 + j) == r
    requires Times(29, r) == Add(v2, 22) && Times(v2, r) == Add(v3, 20) && Times(v3, r) == Add(v4, 21)
    requires Times(v4, r) == Add(v5, 29) && Times(v5, r) == Add(v6, 18)
    ensures Value(j, 0x3b6a_57b2, 6) == v6
  {
    hide Exp, Times, Add;
    TimesZero(r);
    AddLaws(29, 0);
    AddLaws(v2, 22);
    AddLaws(v3, 20);
    AddLaws(v4, 21);
    AddLaws(v5, 29);
    AddLaws(v6, 18);
    HornerStep(j, 0x1d, 0, 29, 0, r);
    HornerStep(j, 0x3b6, 0x1d, 22, 1, r);
    HornerStep(j, 0x76d4, 0x3b6, 20, 2, r);
    HornerStep(j, 0xe_da95, 0x76d4, 21, 3, r);
    HornerStep(j, 0x1db_52bd, 0xe_da95, 29, 4, r);
    HornerStep(j, 0x3b6a_57b2, 0x1db_52bd, 18, 5, r);
    assert Value(j, 0, 0) == 0;
  }

  lemma HornerStep(j: nat, c: bv32, high: bv32, low: bv32, n: nat, r: Element)
    requires Exp(997 + j) == r && c >> 5 == high && c & 31 == low
    ensures Value(j, c, n + 1) == Add(Times(Value(j, high, n), r), low)
  {
    hide Exp, Times, Add;
  }

  lemma FirstRootProducts()
    ensures Times(0x1bd, 0x1bd) == 0x369 && Times(0x369, 0x369) == 0x3d6 && Times(0x3d6, 0x369) == 0x2f5
    ensures Times(0x01d, 0x1bd) == Add(0x18f, 22) && Times(0x18f, 0x1bd) == Add(0x1be, 20)
    ensures Times(0x1be, 0x1bd) == Add(0x192, 21) && Times(0x192, 0x1bd) == Add(0x02e, 29)
      && Times(0x02e, 0x1bd) == Add(0x2f5, 18)
  {
  }

  lemma SecondRootProducts()
    ensures Times(0x065, 0x065) == 0x088 && Times(0x088, 0x088) == 0x3a3 && Times(0x3a3, 0x088) == 0x3da
    ensures Times(0x01d, 0x065) == Add(0x1c4, 22) && Times(0x1c4, 0x065) == Add(0x396, 20)
    ensures Times(0x396, 0x065) == Add(0x34c, 21) && Times(0x34c, 0x065) == Add(0x176, 29)
      && Times(0x176, 0x065) == Add(0x3da, 18)
  {
  }

  lemma ThirdRootProducts()
    ensures Times(0x3d0, 0x3d0) == 0x159 && Times(0x159, 0x159) == 0x051 && Times(0x051, 0x159) == 0x0a1
    ensures Times(0x01d, 0x3d0) == Add(0x2e3, 22) && Times(0x2e3, 0x3d0) == Add(0x2e3, 20)
    ensures Times(0x2e3, 0x3d0) == Add(0x2e2, 21) && Times(0x2e2, 0x3d0) == Add(0x13a, 29)
      && Times(0x13a, 0x3d0) == Add(0x0a1, 18)
  {
  }

  /** The generator vanishes at three consecutive powers of e: its leading term there is what the others
      sum up to. */
  lemma GeneratorVanishes(j: nat)
    requires j <= 2
    ensures Value(j, 0x3b6a_57b2, 6) == Exp((997 + j) * 6)
  {
    hide Times, Exp, Value, Add;
    Roots();
    if j == 0 {
      FirstRootProducts();
      SixthPower(997);
      Horner(j, 0x1bd, 0x18f, 0x1be, 0x192, 0x02e, 0x2f5);
    } else if j == 1 {
      SecondRootProducts();
      SixthPower(998);
      Horner(j, 0x065, 0x1c4, 0x396, 0x34c, 0x176, 0x3da);
    } else {
      ThirdRootProducts();
      SixthPower(999);
      Horner(j, 0x3d0, 0x2e3, 0x2e3, 0x2e2, 0x13a, 0x0a1);
    }
  }

  lemma ValueMap(j: nat) returns (f: bv32 -> bv32)
    ensures Linear(f) && forall c :: f(c) == Value(j, c, 6)
  {
    hide Value, Add;
    forall x, y ensures Value(j, Add(x, y), 6) == Add(Value(j, x, 6), Value(j, y, 6)) { ValueLinear(j, x, y, 6); }
    f := (c: bv32) => Value(j, c, 6) as bv32;
  }

  /** What a shifted-out symbol leaves behind has the value that the symbol would have had. */
  lemma ReduceValue(j: nat, t: Sym)
    requires j <= 2
    ensures Value(j, Reduce(t), 6) == Times(t, Exp((997 + j) * 6))
  {
    hide Value, Add, Exp, Linear, PickFive, PickTen, Double, DoubleEach, Low, Raise;
    var f := ValueMap(j);
    MapOfFive(f, t, 0x3b6a_57b2, 0x2650_8e6d, 0x1ea1_19fa, 0x3d42_33dd, 0x2a14_62b3);
    GeneratorVanishes(j);
    Multiples();
    ValueDouble(j, 0x3b6a_57b2, 6);
    ValueDouble(j, 0x2650_8e6d, 6);
    ValueDouble(j, 0x1ea1_19fa, 6);
    ValueDouble(j, 0x3d42_33dd, 6);
    var x0 := Exp((997 + j) * 6);
    var x1 := Double(x0);
    var x2 := Double(x1);
    var x3 := Double(x2);
    var x5 := Raise(x0);
    var x6 := Double(x5);
    var x7 := Double(x6);
    var x8 := Double(x7);
    LowIsSame(x0);
    SymbolParts(t);
    LowPart(t, x0, x1, x2, x3, Double(x3), x5, x6, x7, x8, Double(x8));
  }

  lemma TopSymbol(c: Residue)
    ensures LowSymbol(Drop(c, 5)) == Top(c)
  {
    DropIsShift(c);
    TopBits(c);
    hide Drop, Down;
  }

  lemma TopBits(c: Residue)
    ensures LowSymbol(c >> 25) == Top(c)
  {
  }

  /** A step multiplies by the root and adds the symbol. */
  lemma StepValue(j: nat, c: Residue, s: Sym)
    requires j <= 2
    ensures Value(j, Step(c, s), 6) == Add(Times(Value(j, c, 6), Exp(997 + j)), s)
  {
    hide Value, Add, Exp, Times, Rest, Top, Reduce, Drop, LowSymbol;
    var k, t := 997 + j, Top(c);
    ValueLinear(j, Add(Rest(c), s), Reduce(t), 6);
    ValueLinear(j, Rest(c), s, 6);
    RestValue(j, c);
    ValueSymbol(j, s, 6);
    ReduceValue(j, t);
    ValueTop(j, c, 5);
    TopSymbol(c);
    TimesExp(t, k * 5, k);
    var x, y := Value(j, c, 5), Times(t, Exp(k * 5));
    TimesLinear(x, y, Exp(k));
    AddMoves(Times(x, Exp(k)), s, Times(y, Exp(k)));
  }

  // ---------------------------------------------------------------- rows of symbols

  /** The polynomial with a row of symbols as coefficients, at the power 997 + j of e. */
  function RowValue(j: nat, v: seq<Sym>): Element {
    if v == [] then 0 else Add(Times(RowValue(j, v[..|v| - 1]), Exp(997 + j)), v[|v| - 1])
  }

  /** A remainder has the value of the row that it is the remainder of. */
  lemma {:induction false} RunValue(j: nat, v: seq<Sym>)
    requires j <= 2
    ensures Value(j, Run(0, v), 6) == RowValue(j, v)
  {
    hide Add, Exp, Times, Step, Value;
    if v == [] {
      ValueZero(j, 6);
    } else {
      var n := |v| - 1;
      RunValue(j, v[..n]);
      StepValue(j, Run(0, v[..n]), v[n]);
    }
  }

  lemma {:induction false} RowSum(j: nat, v: seq<Sym>, w: seq<Sym>)
    requires |v| == |w|
    ensures RowValue(j, Sum(v, w)) == Add(RowValue(j, v), RowValue(j, w))
  {
    hide Add, Exp, Times;
    if v == [] {
      AddLaws(0, 0);
    } else {
      var n, r := |v| - 1, Exp(997 + j);
      RowSum(j, v[..n], w[..n]);
      assert Sum(v, w)[..n] == Sum(v[..n], w[..n]);
      var x, y := RowValue(j, v[..n]), RowValue(j, w[..n]);
      TimesLinear(x, y, r);
      AddRegroup(Times(x, r), Times(y, r), v[n], w[n]);
    }
  }

  /** A row of zeros but for one place. */
  function Single(n: nat, i: nat, d: Sym): (v: seq<Sym>)
    requires i < n
    ensures |v| == n
  {
    Zeros(n)[i := d]
  }

  lemma {:induction false} RowZeros(j: nat, n: nat)
    ensures RowValue(j, Zeros(n)) == 0
  {
    hide Add, Exp, Times;
    if n > 0 {
      assert Zeros(n)[..n - 1] == Zeros(n - 1);
      RowZeros(j, n - 1);
      TimesZero(Exp(997 + j));
      AddLaws(0, 0);
    }
  }

  lemma {:induction false} RowSingle(j: nat, n: nat, i: nat, d: Sym)
    requires i < n
    ensures (997 + j) * (n - 1 - i) >= 0 && RowValue(j, Single(n, i, d)) == Times(d, Exp((997 + j) * (n - 1 - i)))
    decreases n
  {
    hide Add, Exp, Times;
    var k, v := 997 + j, Single(n, i, d);
    if i == n - 1 {
      assert v[..n - 1] == Zeros(n - 1);
      RowZeros(j, n - 1);
      TimesZero(Exp(k));
      AddLaws(d, 0);
      TimesOne(d);
    } else {
      assert v[..n - 1] == Single(n - 1, i, d);
      RowSingle(j, n - 1, i, d);
      assert k * (n - 2 - i) + k == k * (n - 1 - i);
      TimesExp(d, k * (n - 2 - i), k);
      AddLaws(RowValue(j, v), 0);
      AddLaws(Times(RowValue(j, v[..n - 1]), Exp(k)), 0);
    }
  }

  // ---------------------------------------------------------------- three terms

  lemma Cancelled(x: bv32, y: bv32, z: bv32, p: bv32, q: bv32)
    requires Add(Add(x, y), z) == 0 && Add(Add(p, q), z) == 0
    ensures Add(p, x) == Add(q, y)
  {
    hide Add;
    AddLaws(Add(x, y), z);
    AddLaws(Add(p, q), z);
    AddLaws(z, z);
    AddRegroup(p, q, x, y);
    AddLaws(Add(p, x), Add(q, y));
  }

  lemma SumOfThree(x: bv32, y: bv32, z: bv32, c: bv32)
    ensures Times(Add(Add(x, y), z), c) == Add(Add(Times(x, c), Times(y, c)), Times(z, c))
  {
    hide Add, Times;
    TimesLinear(Add(x, y), z, c);
    TimesLinear(x, y, c);
  }

  ghost predicate Balanced(x: Element, y: Element, z: Element, p: nat, q: nat, r: nat) {
    Add(Add(Times(x, Exp(p)), Times(y, Exp(q))), Times(z, Exp(r))) == 0
  }

  /** A balance, multiplied by the power of its third term, against the next balance: the third term
      drops out. */
  lemma DropThird(x: Element, y: Element, z: Element, p: nat, q: nat, r: nat, d: nat, e: nat, f: nat)
    requires Balanced(x, y, z, p, q, r) && Balanced(x, y, z, p + d, q + e, r + f)
    ensures Add(Times(x, Exp(p + d)), Times(x, Exp(p + f))) == Add(Times(y, Exp(q + e)), Times(y, Exp(q + f)))
  {
    hide Add, Times, Exp;
    SumOfThree(Times(x, Exp(p)), Times(y, Exp(q)), Times(z, Exp(r)), Exp(f));
    TimesZero(Exp(f));
    TimesExp(x, p, f);
    TimesExp(y, q, f);
    TimesExp(z, r, f);
    Cancelled(Times(x, Exp(p + f)), Times(y, Exp(q + f)), Times(z, Exp(r + f)), Times(x, Exp(p + d)), Times(y,
        Exp(q + e)));
  }

  /** Terms at different powers cannot balance three times, with their powers taken none, one and two
      times, unless all are zero. */
  lemma ThreeTerms(x: Element, y: Element, z: Element, p: nat, q: nat, r: nat)
    requires r <= q <= p < r + 1023 && (p == q ==> y == 0) && (q == r ==> z == 0)
    requires Balanced(x, y, z, 0, 0, 0) && Balanced(x, y, z, p, q, r) && Balanced(x, y, z, p + p, q + q, r + r)
    ensures x == 0 && y == 0 && z == 0
  {
    hide Add, Times, Exp, Balanced;
    var b, c := Add(Times(x, Exp(p)), Times(x, Exp(r))), Add(Times(y, Exp(q)), Times(y, Exp(r)));
    DropThird(x, y, z, 0, 0, 0, p, q, r);
    DropThird(x, y, z, p, q, r, p, q, r);
    TimesLinear(Times(x, Exp(p)), Times(x, Exp(r)), Exp(p));
    TimesExp(x, p, p);
    TimesExp(x, r, p);
    TimesLinear(Times(y, Exp(q)), Times(y, Exp(r)), Exp(q));
    TimesExp(y, q, q);
    TimesExp(y, r, q);
    assert Times(b, Exp(p)) == Times(c, Exp(q)) && b == c;
    TimesZero(Exp(q));
    TimesZero(Exp(r));
    AddLaws(0, 0);
    if q < p { PowersDiffer(b, q, p); }
    assert b == 0;
    AddLaws(Times(x, Exp(p)), Times(x, Exp(r)));
    AddLaws(Times(y, Exp(q)), Times(y, Exp(r)));
    if r < p { PowersDiffer(x, r, p); }
    if r < q { PowersDiffer(y, r, q); }
    LastTerm(x, y, z);
  }

  lemma LastTerm(x: Element, y: Element, z: Element)
    requires Balanced(x, y, z, 0, 0, 0)
    ensures Add(Add(x, y), z) == 0 && (x == 0 && y == 0 ==> z == 0) && (x == 0 && z == 0 ==> y == 0)
      && (y == 0 && z == 0 ==> x == 0)
  {
    TimesOne(x);
    TimesOne(y);
    TimesOne(z);
    hide Times, Exp;
  }

  // ---------------------------------------------------------------- three changes

  function ThreeSingles(n: nat, i: nat, j: nat, k: nat, a: Sym, b: Sym, c: Sym): (v: seq<Sym>)
    requires i < n && j < n && k < n
    ensures |v| == n
  {
    Sum(Sum(Single(n, i, a), Single(n, j, b)), Single(n, k, c))
  }

  /** A symbol at a place from the end, with the powers of the first root. */
  function Term(d: Sym, q: nat): Element { Times(d, Exp(997 * q)) }

  lemma TermAt(d: Sym, t: nat, q: nat)
    ensures t * q >= 0 && (997 + t) * q >= 0 && Times(Term(d, q), Exp(t * q)) == Times(d, Exp((997 + t) * q))
  {
    hide Times, Exp;
    assert 997 * q + t * q == (997 + t) * q;
    TimesExp(d, 997 * q, t * q);
  }

  /** A row of three symbols with a zero remainder balances at every root of the generator. */
  lemma BalancedAtRoot(t: nat, n: nat, i: nat, j: nat, k: nat, a: Sym, b: Sym, c: Sym)
    requires t <= 2 && i < n && j < n && k < n && Run(0, ThreeSingles(n, i, j, k, a, b, c)) == 0
    ensures var p, q, r := n - 1 - i, n - 1 - j, n - 1 - k;
      t * p >= 0 && t * q >= 0 && t * r >= 0
      && Balanced(Term(a, p), Term(b, q), Term(c, r), t * p, t * q, t * r)
  {
    hide Times, Exp, Add, RowValue, Run, Value, Single, Term;
    var x, y, z := Single(n, i, a), Single(n, j, b), Single(n, k, c);
    RunValue(t, ThreeSingles(n, i, j, k, a, b, c));
    ValueZero(t, 6);
    RowSum(t, Sum(x, y), z);
    RowSum(t, x, y);
    RowSingle(t, n, i, a);
    RowSingle(t, n, j, b);
    RowSingle(t, n, k, c);
    TermAt(a, t, n - 1 - i);
    TermAt(b, t, n - 1 - j);
    TermAt(c, t, n - 1 - k);
  }

  lemma ThreeSinglesZero(n: nat, i: nat, j: nat, k: nat, a: Sym, b: Sym, c: Sym)
    requires i <= j <= k < n && k < i + 1023 && (i == j ==> b == 0) && (j == k ==> c == 0)
    requires Run(0, ThreeSingles(n, i, j, k, a, b, c)) == 0
    ensures a == 0 && b == 0 && c == 0
  {
    hide Times, Exp, Balanced, Run, ThreeSingles;
    var p, q, r := n - 1 - i, n - 1 - j, n - 1 - k;
    BalancedAtRoot(0, n, i, j, k, a, b, c);
    BalancedAtRoot(1, n, i, j, k, a, b, c);
    BalancedAtRoot(2, n, i, j, k, a, b, c);
    TimesZero(Exp(997 * q));
    TimesZero(Exp(997 * r));
    ThreeTerms(Term(a, p), Term(b, q), Term(c, r), p, q, r);
    ExpNotZero(a, 997 * p);
    ExpNotZero(b, 997 * q);
    ExpNotZero(c, 997 * r);
  }

  /** The rows differ at these three places at most. */
  ghost predicate SameBut<T>(v: seq<T>, w: seq<T>, i: nat, j: nat, k: nat) {
    |v| == |w| && forall m :: 0 <= m < |v| && m != i && m != j && m != k ==> v[m] == w[m]
  }

  lemma DifferenceSingles(v: seq<Sym>, w: seq<Sym>, i: nat, j: nat, k: nat)
    requires i <= j <= k < |v| && SameBut(v, w, i, j, k)
    ensures Sum(v, w) == ThreeSingles(|v|, i, j, k, Add(v[i], w[i]), if i == j then 0 else Add(v[j], w[j]),
                                      if j == k then 0 else Add(v[k], w[k]))
  {
    hide Add;
    AddLaws(0, 0);
    AddLaws(Add(v[i], w[i]), 0);
    AddLaws(Add(v[j], w[j]), 0);
    AddLaws(Add(v[k], w[k]), 0);
    forall m | 0 <= m < |v| && m != i && m != j && m != k ensures Add(v[m], w[m]) == 0 { AddLaws(v[m], w[m]); }
  }

  lemma SameRemainder(v: seq<Sym>, w: seq<Sym>, i: nat, j: nat, k: nat)
    requires i <= j <= k < |v| && k < i + 1023 && SameBut(v, w, i, j, k) && PolyMod(v) == PolyMod(w)
    ensures v == w
  {
    hide Run, Add, ThreeSingles;
    RunLinear(1, 1, v, w);
    AddLaws(1, 1);
    AddLaws(PolyMod(v), PolyMod(w));
    DifferenceSingles(v, w, i, j, k);
    ThreeSinglesZero(|v|, i, j, k, Add(v[i], w[i]), if i == j then 0 else Add(v[j], w[j]),
                     if j == k then 0 else Add(v[k], w[k]));
    AddLaws(v[i], w[i]);
    AddLaws(v[j], w[j]);
    AddLaws(v[k], w[k]);
  }

  /** Any change of up to three symbols, none 1023 or more places from another, changes the remainder. */
  lemma ThreeChangesDetected(v: seq<Sym>, w: seq<Sym>, i: nat, j: nat, k: nat)
    requires i <= j <= k < |v| && k < i + 1023 && SameBut(v, w, i, j, k) && v != w
    ensures PolyMod(v) != PolyMod(w)
  {
    hide PolyMod;
    if PolyMod(v) == PolyMod(w) {
      SameRemainder(v, w, i, j, k);
    }
  }

  // ---------------------------------------------------------------- leading zeros

  /** A one and then `n` zeros have the powers of the roots as values. */
  lemma ZerosAfterOne(j: nat, n: nat)
    requires j <= 2
    ensures (997 + j) * n >= 0 && Value(j, Run(1, Zeros(n)), 6) == Times(1, Exp((997 + j) * n))
  {
    hide Step, Value, Times, Exp, RowValue;
    RunOne(1);
    RunConcat(0, [1], Zeros(n));
    assert [1] + Zeros(n) == Single(n + 1, 0, 1);
    RunValue(j, Single(n + 1, 0, 1));
    RowSingle(j, n + 1, 0, 1);
  }

  lemma ZerosMoveOne(n: nat)
    requires 0 < n < 1023
    ensures Run(1, Zeros(n)) != 1
  {
    hide Run, Value, Times, Exp;
    if Run(1, Zeros(n)) == 1 {
      ZerosAfterOne(0, n);
      ZerosAfterOne(1, n);
      ValueSymbol(0, 1, 6);
      ValueSymbol(1, 1, 6);
      FixedSum(1, 997 * n, n);
      OrderIsFull(1, n);
    }
  }

  /** Fewer than 1023 zeros put in front are noticed. */
  lemma LeadingZerosNoticed(v: seq<Sym>, n: nat)
    requires 0 < n < 1023
    ensures PolyMod(Zeros(n) + v) != PolyMod(v)
  {
    hide Run;
    RunConcat(1, Zeros(n), v);
    ZerosMoveOne(n);
    RunInjective(Run(1, Zeros(n)), 1, v);
  }
}
