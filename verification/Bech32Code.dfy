/** The checksum of bech32 and bech32m: a linear code over 5-bit symbols. */
module Bech32Code {

  /** 5-bit symbols, held in words. */
  type Sym = v: bv32 | v < 32

  /** Remainders: six symbols packed into 30 bits. */
  type Residue = c: bv32 | c < 0x4000_0000

  datatype Encoding = INVALID | BECH32 | BECH32M

  function EncodingConstant(e: Encoding): Residue
    requires e != INVALID
  {
    if e == BECH32 then 1 else 0x2bc8_30a3
  }

  // ---------------------------------------------------------------- the remainder

  /** Sums of symbols and of remainders are exclusive ors. */
  function Add(c: bv32, d: bv32): (r: bv32)
    ensures c < 32 && d < 32 ==> r < 32
    ensures c < 0x400 && d < 0x400 ==> r < 0x400
    ensures c < 0x4000_0000 && d < 0x4000_0000 ==> r < 0x4000_0000
  {
    AddInRange(c, d);
    c ^ d
  }

  lemma AddInRange(c: bv32, d: bv32)
    ensures c < 32 && d < 32 ==> c ^ d < 32
    ensures c < 0x400 && d < 0x400 ==> c ^ d < 0x400
    ensures c < 0x4000_0000 && d < 0x4000_0000 ==> c ^ d < 0x4000_0000
  {
  }

  lemma AddCommutes(c: bv32, d: bv32)
    ensures Add(c, d) == Add(d, c)
  {
  }

  lemma AddZero(c: bv32)
    ensures Add(c, 0) == c && Add(c, c) == 0
  {
  }

  lemma AddCancels(c: bv32, d: bv32)
    ensures Add(Add(c, d), d) == c
  {
  }

  lemma AddLaws(c: bv32, d: bv32)
    ensures Add(c, d) == Add(d, c) && Add(c, 0) == c == Add(0, c) && Add(c, c) == 0
    ensures Add(Add(c, d), d) == c && (Add(c, d) == 0 <==> c == d)
  {
    hide Add;
    AddCommutes(c, d);
    AddCommutes(c, 0);
    AddCommutes(0, d);
    AddZero(c);
    AddZero(d);
    AddCancels(c, d);
  }

  lemma AddAssociative(a: bv32, b: bv32, c: bv32)
    ensures Add(Add(a, b), c) == Add(a, Add(b, c))
  {
  }

  lemma AddRegroup(p: bv32, q: bv32, v: bv32, w: bv32)
    ensures Add(Add(p, q), Add(v, w)) == Add(Add(p, v), Add(q, w))
  {
    hide Add;
    AddAssociative(p, q, Add(v, w));
    AddAssociative(q, v, w);
    AddLaws(q, v);
    AddAssociative(v, q, w);
    AddAssociative(p, v, Add(q, w));
  }

  /** What one bit of a shifted-out symbol leaves behind. */
  function Pick(c0: bv32, bit: bv32, x: Residue): Residue { if c0 & bit != 0 then x else 0 }

  /** What the low five bits of a word leave behind. */
  function PickFive(c0: bv32, x0: Residue, x1: Residue, x2: Residue, x3: Residue, x4: Residue): Residue {
    Add(Add(Add(Add(Pick(c0, 1, x0), Pick(c0, 2, x1)), Pick(c0, 4, x2)), Pick(c0, 8, x3)), Pick(c0, 16, x4))
  }

  /** What a shifted-out symbol leaves behind: the symbol times the generator less its leading term. */
  function Reduce(c0: bv32): (r: bv32)
    ensures r < 0x4000_0000
  {
    PickFive(c0, 0x3b6a_57b2, 0x2650_8e6d, 0x1ea1_19fa, 0x3d42_33dd, 0x2a14_62b3)
  }

  /** The highest symbol of a remainder, and the others moved up by one. */
  function Top(c: bv32): (r: bv32)
    ensures c < 0x4000_0000 ==> r < 32
  {
    c >> 25
  }

  function Rest(c: bv32): (r: bv32)
    ensures r < 0x4000_0000
  {
    (c & 0x1ff_ffff) << 5
  }

  /** The remainder with one more symbol. */
  function Step(c: Residue, v: Sym): Residue {
    Add(Add(Rest(c), v), Reduce(Top(c)))
  }

  /** The remainder with a row of symbols more. */
  function Run(c: Residue, v: seq<Sym>): Residue {
    if v == [] then c else Step(Run(c, v[..|v| - 1]), v[|v| - 1])
  }

  function PolyMod(v: seq<Sym>): Residue { Run(1, v) }

  lemma {:induction false} RunConcat(c: Residue, v: seq<Sym>, w: seq<Sym>)
    ensures Run(c, v + w) == Run(Run(c, v), w)
    decreases |w|
  {
    hide Step;
    if w == [] {
      assert v + w == v;
    } else {
      assert (v + w)[..|v + w| - 1] == v + w[..|w| - 1];
      RunConcat(c, v, w[..|w| - 1]);
    }
  }

  // ---------------------------------------------------------------- linearity

  lemma RestLinear(c: bv32, d: bv32)
    ensures Rest(Add(c, d)) == Add(Rest(c), Rest(d))
  {
  }

  lemma TopLinear(c: bv32, d: bv32)
    ensures Top(Add(c, d)) == Add(Top(c), Top(d))
  {
  }

  lemma PickLinear(c: bv32, d: bv32, bit: bv32, x: Residue)
    requires bit == 1 || bit == 2 || bit == 4 || bit == 8 || bit == 16
    ensures Pick(Add(c, d), bit, x) == Add(Pick(c, bit, x), Pick(d, bit, x))
  {
    hide Add;
    BitOfSum(c, d, bit);
    AddLaws(x, 0);
    AddLaws(0, 0);
  }

  lemma BitOfSum(c: bv32, d: bv32, bit: bv32)
    requires bit == 1 || bit == 2 || bit == 4 || bit == 8 || bit == 16
    ensures Add(c, d) & bit != 0 <==> (c & bit != 0) != (d & bit != 0)
  {
  }

  lemma PickFiveLinear(c: bv32, d: bv32, x0: Residue, x1: Residue, x2: Residue, x3: Residue, x4: Residue)
    ensures PickFive(Add(c, d), x0, x1, x2, x3, x4) == Add(PickFive(c, x0, x1, x2, x3, x4), PickFive(d, x0, x1, x2, x3,
        x4))
  {
    hide Pick, Add;
    PickLinear(c, d, 1, x0);
    PickLinear(c, d, 2, x1);
    PickLinear(c, d, 4, x2);
    PickLinear(c, d, 8, x3);
    PickLinear(c, d, 16, x4);
    AddFives(Pick(c, 1, x0), Pick(c, 2, x1), Pick(c, 4, x2), Pick(c, 8, x3), Pick(c, 16, x4),
             Pick(d, 1, x0), Pick(d, 2, x1), Pick(d, 4, x2), Pick(d, 8, x3), Pick(d, 16, x4));
  }

  lemma AddFives(c0: bv32, c1: bv32, c2: bv32, c3: bv32, c4: bv32, d0: bv32, d1: bv32, d2: bv32, d3: bv32, d4: bv32)
    ensures Add(Add(Add(Add(Add(c0, d0), Add(c1, d1)), Add(c2, d2)), Add(c3, d3)), Add(c4, d4))
      == Add(Add(Add(Add(Add(c0, c1), c2), c3), c4), Add(Add(Add(Add(d0, d1), d2), d3), d4))
  {
    hide Add;
    AddRegroup(c0, c1, d0, d1);
    AddRegroup(Add(c0, c1), c2, Add(d0, d1), d2);
    AddRegroup(Add(Add(c0, c1), c2), c3, Add(Add(d0, d1), d2), d3);
    AddRegroup(Add(Add(Add(c0, c1), c2), c3), c4, Add(Add(Add(d0, d1), d2), d3), d4);
  }

  lemma ReduceLinear(c: bv32, d: bv32)
    ensures Reduce(Add(c, d)) == Add(Reduce(c), Reduce(d))
  {
    hide PickFive, Add;
    PickFiveLinear(c, d, 0x3b6a_57b2, 0x2650_8e6d, 0x1ea1_19fa, 0x3d42_33dd, 0x2a14_62b3);
  }

  lemma StepLinear(c: Residue, d: Residue, v: Sym, w: Sym)
    ensures Step(Add(c, d), Add(v, w)) == Add(Step(c, v), Step(d, w))
  {
    hide Reduce, Rest, Top, Add;
    RestLinear(c, d);
    TopLinear(c, d);
    ReduceLinear(Top(c), Top(d));
    AddRegroup(Rest(c), Rest(d), v, w);
    AddRegroup(Add(Rest(c), v), Add(Rest(d), w), Reduce(Top(c)), Reduce(Top(d)));
  }

  function Sum(v: seq<Sym>, w: seq<Sym>): (x: seq<Sym>)
    requires |v| == |w|
    ensures |x| == |v|
  {
    seq(|v|, i requires 0 <= i < |v| => Add(v[i], w[i]))
  }

  /** The remainder of a sum is the sum of the remainders. */
  lemma {:induction false} RunLinear(c: Residue, d: Residue, v: seq<Sym>, w: seq<Sym>)
    requires |v| == |w|
    ensures Run(Add(c, d), Sum(v, w)) == Add(Run(c, v), Run(d, w))
  {
    hide Step, Add;
    if v != [] {
      var n := |v| - 1;
      RunLinear(c, d, v[..n], w[..n]);
      assert Sum(v, w)[..n] == Sum(v[..n], w[..n]);
      StepLinear(Run(c, v[..n]), Run(d, w[..n]), v[n], w[n]);
    }
  }

  // ---------------------------------------------------------------- detecting changes

  lemma ReduceKernel(c0: bv32, r: bv32)
    requires c0 < 32 && Add(Add(r, 0), Reduce(c0)) == 0 && r & 31 == 0
    ensures c0 == 0 && r == 0
  {
  }

  lemma RestParts(c: bv32)
    ensures Rest(c) & 31 == 0 && (Rest(c) == 0 && Top(c) == 0 ==> c == 0)
  {
  }

  /** Only zero steps to zero. */
  lemma StepKernel(c: Residue)
    requires Step(c, 0) == 0
    ensures c == 0
  {
    hide Reduce, Rest, Top, Add;
    RestParts(c);
    ReduceKernel(Top(c), Rest(c));
  }

  /** Different remainders stay different under the same symbol. */
  lemma StepInjective(c: Residue, d: Residue, v: Sym)
    requires Step(c, v) == Step(d, v)
    ensures c == d
  {
    hide Step, Add;
    StepLinear(c, d, v, v);
    AddLaws(v, v);
    AddLaws(Step(c, v), Step(d, v));
    AddLaws(c, d);
    StepKernel(Add(c, d));
  }

  lemma {:induction false} RunInjective(c: Residue, d: Residue, v: seq<Sym>)
    requires c != d
    ensures Run(c, v) != Run(d, v)
  {
    hide Step;
    if v != [] {
      var n := |v| - 1;
      RunInjective(c, d, v[..n]);
      if Run(c, v) == Run(d, v) {
        StepInjective(Run(c, v[..n]), Run(d, v[..n]), v[n]);
      }
    }
  }

  /** Remainders of at most so many symbols, by number of symbols. */
  function Limit(n: nat): bv32
    requires n <= 6
  {
    match n
    case 0 => 1
    case 1 => 0x20
    case 2 => 0x400
    case 3 => 0x8000
    case 4 => 0x10_0000
    case 5 => 0x200_0000
    case _ => 0x4000_0000
  }

  predicate Packed(c: bv32, n: nat)
    requires n <= 6
  {
    c < Limit(n)
  }

  lemma PackedStep(c: Residue, v: Sym, n: nat)
    requires n < 6 && Packed(c, n)
    ensures Packed(Step(c, v), n + 1) && (Step(c, v) == 0 ==> c == 0 && v == 0)
  {
  }

  lemma NothingPacked()
    ensures Packed(0, 0)
  {
  }

  /** Up to six symbols after a zero remainder are just packed: only zeros give zero. */
  lemma {:induction false} ShortRun(v: seq<Sym>)
    requires |v| <= 6
    ensures Packed(Run(0, v), |v|) && (Run(0, v) == 0 ==> forall i :: 0 <= i < |v| ==> v[i] == 0)
  {
    hide Step, Packed;
    if v == [] {
      NothingPacked();
    } else {
      var n := |v| - 1;
      ShortRun(v[..n]);
      PackedStep(Run(0, v[..n]), v[n], n);
      assert forall i :: 0 <= i < n ==> v[..n][i] == v[i];
    }
  }

  /** Any change that is confined to six consecutive symbols, a single symbol in particular, changes the
      remainder. */
  lemma BurstDetected(v: seq<Sym>, w: seq<Sym>, from: nat, n: nat)
    requires |v| == |w| && v != w && n <= 6 && from + n <= |v|
    requires forall i :: 0 <= i < |v| && !(from <= i < from + n) ==> v[i] == w[i]
    ensures PolyMod(v) != PolyMod(w)
  {
    hide Step, Add, Run, Packed;
    var head, tail := v[..from], v[from + n..];
    var a, b := v[from..from + n], w[from..from + n];
    assert v == head + a + tail && w == head + b + tail;
    var c := Run(1, head);
    RunConcat(1, head, a);
    RunConcat(1, head, b);
    RunConcat(1, head + a, tail);
    RunConcat(1, head + b, tail);
    ShortDifference(c, a, b);
    RunInjective(Run(c, a), Run(c, b), tail);
  }

  lemma ShortDifference(c: Residue, a: seq<Sym>, b: seq<Sym>)
    requires |a| == |b| <= 6 && a != b
    ensures Run(c, a) != Run(c, b)
  {
    hide Step, Add, Run, Packed;
    RunLinear(c, c, a, b);
    AddLaws(c, c);
    AddLaws(Run(c, a), Run(c, b));
    ShortRun(Sum(a, b));
    if Run(c, a) == Run(c, b) {
      forall i | 0 <= i < |a| ensures a[i] == b[i] {
        assert Sum(a, b)[i] == 0;
        AddLaws(a[i], b[i]);
      }
    }
  }

  // ---------------------------------------------------------------- one variant is never taken for the other

  /** The symbol that leaves these low bits behind, and the remainder before a zero symbol. */
  function TopFromLow(low: bv32): bv32 {
    (if low & 1 != 0 then 17 else 0) ^ (if low & 2 != 0 then 11 else 0) ^ (if low & 4 != 0 then 22 else 0)
      ^ (if low & 8 != 0 then 5 else 0) ^ (if low & 16 != 0 then 10 else 0)
  }

  function Back(c: bv32): bv32 {
    var top := TopFromLow(c);
    (top << 25) | ((c ^ Reduce(top)) >> 5)
  }

  lemma TopIsFound(top: bv32, rest: bv32)
    requires top < 32 && rest & 31 == 0
    ensures TopFromLow(Add(Add(rest, 0), Reduce(top))) == top
  {
  }

  lemma RestMovesBack(c: Residue)
    ensures (Top(c) << 25) | (Rest(c) >> 5) == c
  {
  }

  lemma AddIsXor(c: bv32, d: bv32)
    ensures Add(c, d) == c ^ d
  {
  }

  lemma BackIsInverse(c: Residue)
    ensures Back(Step(c, 0)) == c
  {
    hide Reduce, Rest, Top, Add, TopFromLow;
    RestParts(c);
    TopIsFound(Top(c), Rest(c));
    AddLaws(Rest(c), Reduce(Top(c)));
    AddLaws(Rest(c), 0);
    AddIsXor(Step(c, 0), Reduce(Top(c)));
    RestMovesBack(c);
  }

  /** Going back `n` zero symbols leads to `d`, and past no single symbol. */
  predicate FarTo(c: bv32, n: nat, d: bv32)
    decreases n
  {
    c >= 32 && if n == 0 then c == d else FarTo(Back(c), n - 1, d)
  }

  lemma {:induction false} FarJoin(c: bv32, n: nat, d: bv32, m: nat, e: bv32)
    requires FarTo(c, n, d) && FarTo(d, m, e)
    ensures FarTo(c, n + m, e)
    decreases n
  {
    hide Back;
    if n > 0 {
      FarJoin(Back(c), n - 1, d, m, e);
    }
  }

  /** The difference of the two constants is no single symbol before any of the first 90 places. */
  lemma ConstantsAreFar()
    ensures FarTo(Add(1, 0x2bc8_30a3), 90, 0x1b66_abf6)
  {
    FarSteps();
    FartherSteps();
    FarthestSteps();
    hide FarTo;
    FarJoin(0x2bc8_30a2, 10, 0x17c7_ae0b, 10, 0x274d_7abf);
    FarJoin(0x2bc8_30a2, 20, 0x274d_7abf, 10, 0x2056_b172);
    FarJoin(0x2bc8_30a2, 30, 0x2056_b172, 10, 0x2e97_cab8);
    FarJoin(0x2bc8_30a2, 40, 0x2e97_cab8, 10, 0x103d_29f1);
    FarJoin(0x2bc8_30a2, 50, 0x103d_29f1, 10, 0x0db5_05f7);
    FarJoin(0x2bc8_30a2, 60, 0x0db5_05f7, 10, 0x3642_5580);
    FarJoin(0x2bc8_30a2, 70, 0x3642_5580, 10, 0x3ef0_7c66);
    FarJoin(0x2bc8_30a2, 80, 0x3ef0_7c66, 10, 0x1b66_abf6);
  }

  lemma FarSteps()
    ensures Add(1, 0x2bc8_30a3) == 0x2bc8_30a2
    ensures FarTo(0x2bc8_30a2, 10, 0x17c7_ae0b)
    ensures FarTo(0x17c7_ae0b, 10, 0x274d_7abf)
    ensures FarTo(0x274d_7abf, 10, 0x2056_b172)
  {
  }

  lemma FartherSteps()
    ensures FarTo(0x2056_b172, 10, 0x2e97_cab8)
    ensures FarTo(0x2e97_cab8, 10, 0x103d_29f1)
    ensures FarTo(0x103d_29f1, 10, 0x0db5_05f7)
  {
  }

  lemma FarthestSteps()
    ensures FarTo(0x0db5_05f7, 10, 0x3642_5580)
    ensures FarTo(0x3642_5580, 10, 0x3ef0_7c66)
    ensures FarTo(0x3ef0_7c66, 10, 0x1b66_abf6)
  {
  }

  function Zeros(n: nat): seq<Sym> { seq(n, _ => 0) }

  lemma {:induction false} FarFromZeros(c: Residue, n: nat, y: Residue, m: nat, e: bv32)
    requires Run(c, Zeros(n)) == y && FarTo(y, m, e) && n <= m
    ensures c >= 32
    decreases n
  {
    hide Step, Back;
    if n > 0 {
      assert Zeros(n)[..n - 1] == Zeros(n - 1);
      var before := Run(c, Zeros(n - 1));
      BackIsInverse(before);
      FarFromZeros(c, n - 1, before, m - 1, e);
    }
  }

  lemma DifferenceRun(c: Residue, d: Residue, v: seq<Sym>)
    ensures Add(Run(c, v), Run(d, v)) == Run(Add(c, d), Zeros(|v|))
  {
    hide Step, Add, Run;
    RunLinear(c, d, v, v);
    forall i | 0 <= i < |v| ensures Sum(v, v)[i] == 0 { AddLaws(v[i], v[i]); }
    assert Sum(v, v) == Zeros(|v|);
  }

  /** Changing one symbol among the last 91 never turns the constant of one variant into that of the
      other. */
  lemma VariantsApart(v: seq<Sym>, i: nat, x: Sym)
    requires i < |v| <= i + 91 && x != v[i]
    ensures Add(PolyMod(v), PolyMod(v[i := x])) != Add(1, 0x2bc8_30a3)
  {
    hide Step, Add, Run, FarTo;
    var head, tail, w := v[..i], v[i + 1..], v[i := x];
    assert v == head + [v[i]] + tail && w == head + [x] + tail;
    var c := Run(1, head);
    RunConcat(1, head + [v[i]], tail);
    RunConcat(1, head + [x], tail);
    RunConcat(1, head, [v[i]]);
    RunConcat(1, head, [x]);
    var a, b := Run(c, [v[i]]), Run(c, [x]);
    DifferenceRun(a, b, tail);
    RunLinear(c, c, [v[i]], [x]);
    AddLaws(c, c);
    assert Sum([v[i]], [x]) == [Add(v[i], x)];
    RunOne(Add(v[i], x));
    ConstantsAreFar();
    if Add(PolyMod(v), PolyMod(w)) == Add(1, 0x2bc8_30a3) {
      FarFromZeros(Add(a, b), |tail|, Add(1, 0x2bc8_30a3), 90, 0x1b66_abf6);
    }
  }

  lemma RunOne(x: Sym)
    ensures Run(0, [x]) == x
  {
    assert Run(0, [x]) == Step(Run(0, []), x) by { assert [x][..0] == []; }
  }

  // ---------------------------------------------------------------- the checksum

  function Down(c: bv32): (r: bv32)
    ensures r <= c
  {
    c >> 5
  }

  function LowSymbol(c: bv32): (r: bv32)
    ensures r < 32
  {
    c & 31
  }

  /** The remainder shifted right by `k` symbols. */
  function Drop(c: Residue, k: nat): (r: Residue)
  {
    if k == 0 then c else Down(Drop(c, k - 1))
  }

  lemma DropIsShift(c: Residue)
    ensures Drop(c, 0) == c && Drop(c, 1) == c >> 5 && Drop(c, 2) == c >> 10 && Drop(c, 3) == c >> 15
    ensures Drop(c, 4) == c >> 20 && Drop(c, 5) == c >> 25
  {
    hide Down;
    assert Drop(c, 1) == Down(c) && Drop(c, 2) == Down(Down(c)) && Drop(c, 3) == Down(Down(Down(c)));
    assert Drop(c, 4) == Down(Drop(c, 3)) && Drop(c, 5) == Down(Drop(c, 4));
    RepeatedDown(c);
  }

  lemma RepeatedDown(c: bv32)
    ensures Down(c) == c >> 5 && Down(Down(c)) == c >> 10 && Down(Down(Down(c))) == c >> 15
    ensures Down(Down(Down(Down(c)))) == c >> 20 && Down(Down(Down(Down(Down(c))))) == c >> 25
  {
  }

  /** The i-th of the six symbols packed in a remainder. */
  function Group(c: Residue, i: nat): Sym
    requires i < 6
  {
    LowSymbol(Drop(c, 5 - i))
  }

  function Groups(c: Residue): (g: seq<Sym>)
    ensures |g| == 6
  {
    seq(6, i requires 0 <= i < 6 => Group(c, i))
  }

  lemma SmallParts(c: bv32)
    requires c < 0x4000_0000
    ensures Top(Down(c)) == 0 && Reduce(0) == 0 && Add(Rest(Down(c)), LowSymbol(c)) == c
  {
  }

  /** Moving a remainder down by a symbol is undone by a step with that symbol. */
  lemma StepDown(c: Residue)
    ensures Step(Down(c), LowSymbol(c)) == c
  {
    hide Add, Reduce, Top, Rest, Down, LowSymbol;
    SmallParts(c);
    AddLaws(c, 0);
  }

  lemma PackedDown(c: bv32, n: nat)
    requires n < 6 && Packed(c, n + 1)
    ensures Packed(Down(c), n)
  {
  }

  lemma {:induction false} DropPacked(c: Residue, k: nat)
    requires k <= 6
    ensures Packed(Drop(c, k), 6 - k)
  {
    hide Packed, Down;
    if k == 0 {
      AllPacked(c);
    } else {
      DropPacked(c, k - 1);
      PackedDown(Drop(c, k - 1), 6 - k);
    }
  }

  lemma AllPacked(c: Residue)
    ensures Packed(c, 6)
  {
  }

  lemma DropAll(c: Residue)
    ensures Drop(c, 6) == 0
  {
    hide Down;
    DropPacked(c, 6);
  }

  lemma {:induction false} GroupsPrefix(c: Residue, n: nat)
    requires n <= 6
    ensures Run(0, Groups(c)[..n]) == Drop(c, 6 - n)
  {
    hide Step, Down, LowSymbol;
    if n == 0 {
      DropAll(c);
    } else {
      GroupsPrefix(c, n - 1);
      StepDown(Drop(c, 6 - n));
      assert Groups(c)[..n][..n - 1] == Groups(c)[..n - 1];
    }
  }

  /** Six symbols after a zero remainder give back the remainder that they were taken from. */
  lemma GroupsPacked(c: Residue)
    ensures Run(0, Groups(c)) == c
  {
    hide Step, Group, Run;
    GroupsPrefix(c, 6);
    assert Groups(c)[..6] == Groups(c);
  }

  /** The six symbols after which a remainder becomes the target: the symbols of the difference between
      the target and what six zeros would give. */
  lemma SixSymbols(c: Residue, target: Residue, w: seq<Sym>)
    requires |w| == 6
    ensures Run(c, w) == target <==> w == Groups(Add(Run(c, Zeros(6)), target))
  {
    hide Step, Group, Run, Add;
    var z := Run(c, Zeros(6));
    var g := Groups(Add(z, target));
    GroupsPacked(Add(z, target));
    AddLaws(c, 0);
    AddLaws(z, target);
    AddAssociative(z, z, target);
    AddLaws(z, z);
    AddLaws(target, 0);
    RunLinear(c, 0, Zeros(6), g);
    SumZeros(g);
    if Run(c, w) == target && w != g {
      ShortDifference(c, w, g);
    }
  }

  lemma SumZeros(g: seq<Sym>)
    ensures Sum(Zeros(|g|), g) == g
  {
    forall i | 0 <= i < |g| ensures Sum(Zeros(|g|), g)[i] == g[i] { AddLaws(g[i], 0); }
  }
}
