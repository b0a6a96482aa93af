/** The field with 1024 elements that the generator of the bech32 code comes from: pairs of 5-bit symbols,
    packed into ten bits, as polynomials in its primitive element e, where e^2 = 9e + 23. */
module GaloisField {
  import opened Bech32Code

  type Element = u: bv32 | u < 1024

  // ---------------------------------------------------------------- maps given by their columns

  function PickTen(u: bv32, x0: Element, x1: Element, x2: Element, x3: Element, x4: Element,
                   x5: Element, x6: Element, x7: Element, x8: Element, x9: Element): Element {
    PickFiveBelow(u, x0, x1, x2, x3, x4);
    PickFiveBelow(Down(u), x5, x6, x7, x8, x9);
    Add(PickFive(u, x0, x1, x2, x3, x4), PickFive(Down(u), x5, x6, x7, x8, x9))
  }

  lemma PickFiveBelow(u: bv32, x0: Element, x1: Element, x2: Element, x3: Element, x4: Element)
    ensures PickFive(u, x0, x1, x2, x3, x4) < 1024
  {
    hide Add;
  }

  lemma DownLinear(u: bv32, v: bv32)
    ensures Down(Add(u, v)) == Add(Down(u), Down(v))
  {
  }

  lemma PickTenLinear(u: bv32, v: bv32, x0: Element, x1: Element, x2: Element, x3: Element, x4: Element,
                      x5: Element, x6: Element, x7: Element, x8: Element, x9: Element)
    ensures PickTen(Add(u, v), x0, x1, x2, x3, x4, x5, x6, x7, x8, x9)
      == Add(PickTen(u, x0, x1, x2, x3, x4, x5, x6, x7, x8, x9), PickTen(v, x0, x1, x2, x3, x4, x5, x6, x7, x8, x9))
  {
    hide PickFive, Add, Down;
    DownLinear(u, v);
    PickFiveLinear(u, v, x0, x1, x2, x3, x4);
    PickFiveLinear(Down(u), Down(v), x5, x6, x7, x8, x9);
    AddRegroup(PickFive(u, x0, x1, x2, x3, x4), PickFive(v, x0, x1, x2, x3, x4),
               PickFive(Down(u), x5, x6, x7, x8, x9), PickFive(Down(v), x5, x6, x7, x8, x9));
  }

  /** Keeps sums, and has elements of the field as its values. */
  ghost predicate Linear(f: bv32 -> bv32) {
    && (forall x, y :: f(Add(x, y)) == Add(f(x), f(y)))
    && (forall x :: f(x) < 1024)
  }

  lemma LinearAt(f: bv32 -> bv32, x: bv32, y: bv32)
    requires Linear(f)
    ensures f(Add(x, y)) == Add(f(x), f(y)) && f(x) < 1024
  {
    hide Add;
  }

  lemma LinearZero(f: bv32 -> bv32)
    requires Linear(f)
    ensures f(0) == 0
  {
    hide Add;
    AddLaws(0, 0);
    AddLaws(f(0), f(0));
    assert f(Add(0, 0)) == Add(f(0), f(0));
  }

  lemma MapOfPick(f: bv32 -> bv32, u: bv32, bit: bv32, x: Residue)
    requires Linear(f)
    ensures f(x) < 1024 && f(Pick(u, bit, x)) == Pick(u, bit, f(x))
  {
    LinearZero(f);
    hide Add;
  }

  lemma MapOfFive(f: bv32 -> bv32, u: bv32, x0: Residue, x1: Residue, x2: Residue, x3: Residue, x4: Residue)
    requires Linear(f)
    ensures f(PickFive(u, x0, x1, x2, x3, x4)) == PickFive(u, f(x0), f(x1), f(x2), f(x3), f(x4))
  {
    hide Pick, Add, Linear;
    MapOfPick(f, u, 1, x0);
    MapOfPick(f, u, 2, x1);
    MapOfPick(f, u, 4, x2);
    MapOfPick(f, u, 8, x3);
    MapOfPick(f, u, 16, x4);
    var p0, p1, p2, p3, p4 := Pick(u, 1, x0), Pick(u, 2, x1), Pick(u, 4, x2), Pick(u, 8, x3), Pick(u, 16, x4);
    LinearAt(f, p0, p1);
    LinearAt(f, Add(p0, p1), p2);
    LinearAt(f, Add(Add(p0, p1), p2), p3);
    LinearAt(f, Add(Add(Add(p0, p1), p2), p3), p4);
  }

  /** A linear map of the sum of some columns is the sum of the columns' images. */
  lemma MapOfTen(f: bv32 -> bv32, u: bv32, x0: Element, x1: Element, x2: Element, x3: Element, x4: Element,
                 x5: Element, x6: Element, x7: Element, x8: Element, x9: Element)
    requires Linear(f)
    ensures f(PickTen(u, x0, x1, x2, x3, x4, x5, x6, x7, x8, x9))
      == PickTen(u, f(x0), f(x1), f(x2), f(x3), f(x4), f(x5), f(x6), f(x7), f(x8), f(x9))
  {
    hide PickFive, Add, Down;
    MapOfFive(f, u, x0, x1, x2, x3, x4);
    MapOfFive(f, Down(u), x5, x6, x7, x8, x9);
  }

  lemma PickAdds(u: bv32, bit: bv32, x: Residue, y: Residue)
    ensures Pick(u, bit, Add(x, y)) == Add(Pick(u, bit, x), Pick(u, bit, y))
  {
    AddLaws(0, 0);
    hide Add;
  }

  lemma PickFiveAdds(u: bv32, x0: Residue, x1: Residue, x2: Residue, x3: Residue, x4: Residue,
                     y0: Residue, y1: Residue, y2: Residue, y3: Residue, y4: Residue)
    ensures PickFive(u, Add(x0, y0), Add(x1, y1), Add(x2, y2), Add(x3, y3), Add(x4, y4))
      == Add(PickFive(u, x0, x1, x2, x3, x4), PickFive(u, y0, y1, y2, y3, y4))
  {
    hide Pick, Add;
    PickAdds(u, 1, x0, y0);
    PickAdds(u, 2, x1, y1);
    PickAdds(u, 4, x2, y2);
    PickAdds(u, 8, x3, y3);
    PickAdds(u, 16, x4, y4);
    AddFives(Pick(u, 1, x0), Pick(u, 2, x1), Pick(u, 4, x2), Pick(u, 8, x3), Pick(u, 16, x4),
             Pick(u, 1, y0), Pick(u, 2, y1), Pick(u, 4, y2), Pick(u, 8, y3), Pick(u, 16, y4));
  }

  lemma PickTenAdds(u: bv32, x0: Element, x1: Element, x2: Element, x3: Element, x4: Element,
                    x5: Element, x6: Element, x7: Element, x8: Element, x9: Element,
                    y0: Element, y1: Element, y2: Element, y3: Element, y4: Element,
                    y5: Element, y6: Element, y7: Element, y8: Element, y9: Element)
    ensures PickTen(u, Add(x0, y0), Add(x1, y1), Add(x2, y2), Add(x3, y3), Add(x4, y4),
                    Add(x5, y5), Add(x6, y6), Add(x7, y7), Add(x8, y8), Add(x9, y9))
      == Add(PickTen(u, x0, x1, x2, x3, x4, x5, x6, x7, x8, x9), PickTen(u, y0, y1, y2, y3, y4, y5, y6, y7, y8, y9))
  {
    hide PickFive, Add, Down;
    PickFiveAdds(u, x0, x1, x2, x3, x4, y0, y1, y2, y3, y4);
    PickFiveAdds(Down(u), x5, x6, x7, x8, x9, y5, y6, y7, y8, y9);
    AddRegroup(PickFive(u, x0, x1, x2, x3, x4), PickFive(u, y0, y1, y2, y3, y4),
               PickFive(Down(u), x5, x6, x7, x8, x9), PickFive(Down(u), y5, y6, y7, y8, y9));
  }

  lemma OneColumns(u: bv32)
    ensures Low(u) == PickTen(u, 0x001, 0x002, 0x004, 0x008, 0x010, 0x020, 0x040, 0x080, 0x100, 0x200)
  {
  }

  /** Linear maps that agree on the single bits agree. */
  lemma SameMaps(f: bv32 -> bv32, g: bv32 -> bv32, u: bv32)
    requires Linear(f) && Linear(g)
    requires f(0x001) == g(0x001) && f(0x002) == g(0x002) && f(0x004) == g(0x004) && f(0x008) == g(0x008)
    requires f(0x010) == g(0x010) && f(0x020) == g(0x020) && f(0x040) == g(0x040) && f(0x080) == g(0x080)
    requires f(0x100) == g(0x100) && f(0x200) == g(0x200)
    ensures f(Low(u)) == g(Low(u))
  {
    hide PickTen, Linear;
    OneColumns(u);
    MapOfTen(f, u, 0x001, 0x002, 0x004, 0x008, 0x010, 0x020, 0x040, 0x080, 0x100, 0x200);
    MapOfTen(g, u, 0x001, 0x002, 0x004, 0x008, 0x010, 0x020, 0x040, 0x080, 0x100, 0x200);
  }

  // ---------------------------------------------------------------- multiplication

  function Low(u: bv32): Element { u & 0x3ff }

  /** The product with the symbol 2, where 2^5 = 2^3 + 1. */
  function Double(u: bv32): Element {
    ((u & 0x1ef) << 1) ^ ((u >> 4) & 0x21) ^ (((u >> 4) & 0x21) << 3)
  }

  /** The product with e, where e^2 = 9e + 23. */
  function Raise(u: bv32): Element {
    PickFiveBelow(Down(u), 0x137, 0x247, 0x1ae, 0x35c, 0x3b1);
    Add(LowUp(u), PickFive(Down(u), 0x137, 0x247, 0x1ae, 0x35c, 0x3b1))
  }

  function LowUp(u: bv32): Element { (u & 31) << 5 }

  function Times(u: bv32, v: bv32): Element {
    var d0 := Low(v);
    var d1 := Double(v);
    var d2 := Double(d1);
    var d3 := Double(d2);
    var e0 := Raise(v);
    var e1 := Double(e0);
    var e2 := Double(e1);
    var e3 := Double(e2);
    PickTen(u, d0, d1, d2, d3, Double(d3), e0, e1, e2, e3, Double(e3))
  }

  lemma LowLinear(u: bv32, v: bv32)
    ensures Low(Add(u, v)) == Add(Low(u), Low(v)) && Double(Low(u)) == Double(u) && Low(Low(u)) == Low(u)
  {
    LowOfSum(u, v);
    DoubleOfLow(u);
    LowIsSame(Low(u));
    hide Low, Double, Add;
  }

  lemma LowOfSum(u: bv32, v: bv32)
    ensures Low(Add(u, v)) == Add(Low(u), Low(v))
  {
  }

  lemma DoubleOfLow(u: bv32)
    ensures Double(Low(u)) == Double(u)
  {
  }

  lemma DoubleLinear(u: bv32, v: bv32)
    ensures Double(Add(u, v)) == Add(Double(u), Double(v))
  {
  }

  lemma LowUpLinear(u: bv32, v: bv32)
    ensures LowUp(Add(u, v)) == Add(LowUp(u), LowUp(v))
  {
  }

  lemma RaiseLinear(u: bv32, v: bv32)
    ensures Raise(Add(u, v)) == Add(Raise(u), Raise(v))
  {
    hide PickFive, Add, Down, LowUp;
    DownLinear(u, v);
    PickFiveLinear(Down(u), Down(v), 0x137, 0x247, 0x1ae, 0x35c, 0x3b1);
    LowUpLinear(u, v);
    AddRegroup(LowUp(u), LowUp(v), PickFive(Down(u), 0x137, 0x247, 0x1ae, 0x35c, 0x3b1),
               PickFive(Down(v), 0x137, 0x247, 0x1ae, 0x35c, 0x3b1));
  }

  lemma TimesLinear(u: bv32, v: bv32, c: bv32)
    ensures Times(Add(u, v), c) == Add(Times(u, c), Times(v, c))
  {
    hide PickTen, Low, Double, Raise, Add;
    var d1 := Double(c);
    var d2 := Double(d1);
    var d3 := Double(d2);
    var e0 := Raise(c);
    var e1 := Double(e0);
    var e2 := Double(e1);
    var e3 := Double(e2);
    PickTenLinear(u, v, Low(c), d1, d2, d3, Double(d3), e0, e1, e2, e3, Double(e3));
  }

  lemma TimesAdds(u: bv32, c: bv32, d: bv32)
    ensures Times(u, Add(c, d)) == Add(Times(u, c), Times(u, d))
  {
    hide PickTen, Low, Double, Raise, Add;
    LowLinear(c, d);
    RaiseLinear(c, d);
    DoublesLinear(c, d);
    DoublesLinear(Raise(c), Raise(d));
    var c1, d1, c5, d5 := Double(c), Double(d), Raise(c), Raise(d);
    var c2, d2, c6, d6 := Double(c1), Double(d1), Double(c5), Double(d5);
    var c3, d3, c7, d7 := Double(c2), Double(d2), Double(c6), Double(d6);
    var c8, d8 := Double(c7), Double(d7);
    PickTenAdds(u, Low(c), c1, c2, c3, Double(c3), c5, c6, c7, c8, Double(c8),
                Low(d), d1, d2, d3, Double(d3), d5, d6, d7, d8, Double(d8));
  }

  lemma DoublesLinear(c: bv32, d: bv32)
    ensures Double(Add(c, d)) == Add(Double(c), Double(d))
    ensures Double(Double(Add(c, d))) == Add(Double(Double(c)), Double(Double(d)))
    ensures Double(Double(Double(Add(c, d)))) == Add(Double(Double(Double(c))), Double(Double(Double(d))))
    ensures Double(Double(Double(Double(Add(c, d)))))
      == Add(Double(Double(Double(Double(c)))), Double(Double(Double(Double(d)))))
  {
    hide Double, Add;
    DoubleLinear(c, d);
    DoubleLinear(Double(c), Double(d));
    DoubleLinear(Double(Double(c)), Double(Double(d)));
    DoubleLinear(Double(Double(Double(c))), Double(Double(Double(d))));
  }

  // ---------------------------------------------------------------- its laws

  lemma FiveDoubles(c: bv32)
    ensures Double(Double(Double(Double(Double(c))))) == Add(Low(c), Double(Double(Double(c))))
  {
  }

  lemma LowPick(u: bv32, bit: bv32, x: Residue)
    requires bit <= 16
    ensures Pick(Low(u), bit, x) == Pick(u, bit, x) && Pick(Down(Low(u)), bit, x) == Pick(Down(u), bit, x)
  {
    LowBit(u, bit);
    hide Low, Down;
  }

  lemma LowBit(u: bv32, bit: bv32)
    requires bit <= 16
    ensures Low(u) & bit == u & bit && Down(Low(u)) & bit == Down(u) & bit
  {
  }

  lemma LowFive(u: bv32, x0: Residue, x1: Residue, x2: Residue, x3: Residue, x4: Residue)
    ensures PickFive(Low(u), x0, x1, x2, x3, x4) == PickFive(u, x0, x1, x2, x3, x4)
    ensures PickFive(Down(Low(u)), x0, x1, x2, x3, x4) == PickFive(Down(u), x0, x1, x2, x3, x4)
  {
    hide Pick, Low, Down, Add;
    LowPick(u, 1, x0);
    LowPick(u, 2, x1);
    LowPick(u, 4, x2);
    LowPick(u, 8, x3);
    LowPick(u, 16, x4);
  }

  /** Only the low ten bits matter. */
  lemma LowFactors(u: bv32, c: bv32)
    ensures Raise(Low(u)) == Raise(u) && LowUp(Low(u)) == LowUp(u)
    ensures Times(Low(u), c) == Times(u, c) && Times(u, Low(c)) == Times(u, c)
  {
    hide Low, Down, LowUp, Add, PickFive, Double;
    LowFive(u, 0x137, 0x247, 0x1ae, 0x35c, 0x3b1);
    LowFive(c, 0x137, 0x247, 0x1ae, 0x35c, 0x3b1);
    LowLinear(u, u);
    LowLinear(c, c);
    LowUpLow(u);
    LowUpLow(c);
    var c1, c5 := Double(c), Raise(c);
    var c2, c6 := Double(c1), Double(c5);
    var c3, c7 := Double(c2), Double(c6);
    var c8 := Double(c7);
    LowFive(u, Low(c), c1, c2, c3, Double(c3));
    LowFive(u, c5, c6, c7, c8, Double(c8));
  }

  lemma LowUpLow(u: bv32)
    ensures LowUp(Low(u)) == LowUp(u)
  {
  }

  lemma LowIsSame(u: Element)
    ensures Low(u) == u
  {
  }

  /** The products with a single bit. */
  lemma BitProducts(c: bv32)
    ensures Times(0x001, c) == Low(c) && Times(0x002, c) == Double(c) && Times(0x004, c) == Double(Double(c))
    ensures Times(0x008, c) == Double(Double(Double(c))) && Times(0x010, c) == Double(Double(Double(Double(c))))
    ensures var r := Raise(c);
      && Times(0x020, c) == r && Times(0x040, c) == Double(r) && Times(0x080, c) == Double(Double(r))
      && Times(0x100, c) == Double(Double(Double(r))) && Times(0x200, c) == Double(Double(Double(Double(r))))
  {
    hide Low, Double, Raise, PickTen;
    var c1, c5 := Double(c), Raise(c);
    var c2, c6 := Double(c1), Double(c5);
    var c3, c7 := Double(c2), Double(c6);
    var c8 := Double(c7);
    LowBits(Low(c), c1, c2, c3, Double(c3), c5, c6, c7, c8, Double(c8));
    HighBits(Low(c), c1, c2, c3, Double(c3), c5, c6, c7, c8, Double(c8));
  }

  lemma AddNothing(x: bv32)
    ensures Add(x, 0) == x && Add(0, x) == x
  {
  }

  lemma FiveBits(x0: Residue, x1: Residue, x2: Residue, x3: Residue, x4: Residue)
    ensures PickFive(1, x0, x1, x2, x3, x4) == x0 && PickFive(2, x0, x1, x2, x3, x4) == x1
    ensures PickFive(4, x0, x1, x2, x3, x4) == x2 && PickFive(8, x0, x1, x2, x3, x4) == x3
    ensures PickFive(16, x0, x1, x2, x3, x4) == x4
  {
    AddNothing(0);
    AddNothing(x0);
    AddNothing(x1);
    AddNothing(x2);
    AddNothing(x3);
    AddNothing(x4);
    hide Add;
  }

  lemma NoBits(z: bv32, x0: Residue, x1: Residue, x2: Residue, x3: Residue, x4: Residue)
    requires z & 31 == 0
    ensures PickFive(z, x0, x1, x2, x3, x4) == 0
  {
    AddNothing(0);
    hide Add;
    assert z & 1 == 0 && z & 2 == 0 && z & 4 == 0 && z & 8 == 0 && z & 16 == 0;
  }

  lemma LowPart(z: bv32, x0: Element, x1: Element, x2: Element, x3: Element, x4: Element,
                x5: Element, x6: Element, x7: Element, x8: Element, x9: Element)
    requires Down(z) & 31 == 0
    ensures PickTen(z, x0, x1, x2, x3, x4, x5, x6, x7, x8, x9) == PickFive(z, x0, x1, x2, x3, x4)
  {
    hide PickFive, Add, Down;
    NoBits(Down(z), x5, x6, x7, x8, x9);
    AddNothing(PickFive(z, x0, x1, x2, x3, x4));
  }

  lemma HighPart(z: bv32, x0: Element, x1: Element, x2: Element, x3: Element, x4: Element,
                 x5: Element, x6: Element, x7: Element, x8: Element, x9: Element)
    requires z & 31 == 0
    ensures PickTen(z, x0, x1, x2, x3, x4, x5, x6, x7, x8, x9) == PickFive(Down(z), x5, x6, x7, x8, x9)
  {
    hide PickFive, Add, Down;
    NoBits(z, x0, x1, x2, x3, x4);
    AddNothing(PickFive(Down(z), x5, x6, x7, x8, x9));
  }

  lemma LowBits(x0: Element, x1: Element, x2: Element, x3: Element, x4: Element,
                x5: Element, x6: Element, x7: Element, x8: Element, x9: Element)
    ensures PickTen(0x001, x0, x1, x2, x3, x4, x5, x6, x7, x8, x9) == x0
    ensures PickTen(0x002, x0, x1, x2, x3, x4, x5, x6, x7, x8, x9) == x1
    ensures PickTen(0x004, x0, x1, x2, x3, x4, x5, x6, x7, x8, x9) == x2
    ensures PickTen(0x008, x0, x1, x2, x3, x4, x5, x6, x7, x8, x9) == x3
    ensures PickTen(0x010, x0, x1, x2, x3, x4, x5, x6, x7, x8, x9) == x4
  {
    hide PickFive, PickTen;
    FiveBits(x0, x1, x2, x3, x4);
    LowPart(0x001, x0, x1, x2, x3, x4, x5, x6, x7, x8, x9);
    LowPart(0x002, x0, x1, x2, x3, x4, x5, x6, x7, x8, x9);
    LowPart(0x004, x0, x1, x2, x3, x4, x5, x6, x7, x8, x9);
    LowPart(0x008, x0, x1, x2, x3, x4, x5, x6, x7, x8, x9);
    LowPart(0x010, x0, x1, x2, x3, x4, x5, x6, x7, x8, x9);
  }

  lemma HighBits(x0: Element, x1: Element, x2: Element, x3: Element, x4: Element,
                 x5: Element, x6: Element, x7: Element, x8: Element, x9: Element)
    ensures PickTen(0x020, x0, x1, x2, x3, x4, x5, x6, x7, x8, x9) == x5
    ensures PickTen(0x040, x0, x1, x2, x3, x4, x5, x6, x7, x8, x9) == x6
    ensures PickTen(0x080, x0, x1, x2, x3, x4, x5, x6, x7, x8, x9) == x7
    ensures PickTen(0x100, x0, x1, x2, x3, x4, x5, x6, x7, x8, x9) == x8
    ensures PickTen(0x200, x0, x1, x2, x3, x4, x5, x6, x7, x8, x9) == x9
  {
    hide PickFive, PickTen;
    FiveBits(x5, x6, x7, x8, x9);
    HighPart(0x020, x0, x1, x2, x3, x4, x5, x6, x7, x8, x9);
    HighPart(0x040, x0, x1, x2, x3, x4, x5, x6, x7, x8, x9);
    HighPart(0x080, x0, x1, x2, x3, x4, x5, x6, x7, x8, x9);
    HighPart(0x100, x0, x1, x2, x3, x4, x5, x6, x7, x8, x9);
    HighPart(0x200, x0, x1, x2, x3, x4, x5, x6, x7, x8, x9);
  }

  lemma RaiseDoubleBits()
    ensures Raise(Double(0x001)) == Double(Raise(0x001)) && Raise(Double(0x002)) == Double(Raise(0x002))
      && Raise(Double(0x004)) == Double(Raise(0x004)) && Raise(Double(0x008)) == Double(Raise(0x008))
      && Raise(Double(0x010)) == Double(Raise(0x010))
    ensures Raise(Double(0x020)) == Double(Raise(0x020)) && Raise(Double(0x040)) == Double(Raise(0x040))
      && Raise(Double(0x080)) == Double(Raise(0x080)) && Raise(Double(0x100)) == Double(Raise(0x100))
      && Raise(Double(0x200)) == Double(Raise(0x200))
  {
  }

  lemma RaiseDoubleMap() returns (f: bv32 -> bv32)
    ensures Linear(f) && forall u :: f(u) == Raise(Double(u))
  {
    hide Raise, Double, Times, Add;
    forall x, y ensures Raise(Double(Add(x, y))) == Add(Raise(Double(x)), Raise(Double(y))) {
      DoubleLinear(x, y);
      RaiseLinear(Double(x), Double(y));
    }
    f := (u: bv32) => Raise(Double(u)) as bv32;
  }

  lemma DoubleRaiseMap() returns (f: bv32 -> bv32)
    ensures Linear(f) && forall u :: f(u) == Double(Raise(u))
  {
    hide Raise, Double, Times, Add;
    forall x, y ensures Double(Raise(Add(x, y))) == Add(Double(Raise(x)), Double(Raise(y))) {
      RaiseLinear(x, y);
      DoubleLinear(Raise(x), Raise(y));
    }
    f := (u: bv32) => Double(Raise(u)) as bv32;
  }

  lemma RaiseDouble(c: bv32)
    ensures Raise(Double(c)) == Double(Raise(c))
  {
    hide Raise, Double, Add, Low, Linear;
    RaiseDoubleBits();
    var f := RaiseDoubleMap();
    var g := DoubleRaiseMap();
    SameMaps(f, g, c);
    LowLinear(c, c);
    LowFactors(c, c);
  }

  lemma RaiseTwiceBits()
    ensures Raise(Raise(0x001)) == Times(0x137, 0x001) && Raise(Raise(0x002)) == Times(0x137, 0x002)
      && Raise(Raise(0x004)) == Times(0x137, 0x004) && Raise(Raise(0x008)) == Times(0x137, 0x008)
      && Raise(Raise(0x010)) == Times(0x137, 0x010)
    ensures Raise(Raise(0x020)) == Times(0x137, 0x020) && Raise(Raise(0x040)) == Times(0x137, 0x040)
      && Raise(Raise(0x080)) == Times(0x137, 0x080) && Raise(Raise(0x100)) == Times(0x137, 0x100)
      && Raise(Raise(0x200)) == Times(0x137, 0x200)
  {
  }

  lemma RaiseTwiceMap() returns (f: bv32 -> bv32)
    ensures Linear(f) && forall u :: f(u) == Raise(Raise(u))
  {
    hide Raise, Double, Times, Add;
    forall x, y ensures Raise(Raise(Add(x, y))) == Add(Raise(Raise(x)), Raise(Raise(y))) {
      RaiseLinear(x, y);
      RaiseLinear(Raise(x), Raise(y));
    }
    f := (u: bv32) => Raise(Raise(u)) as bv32;
  }

  lemma FactorMap(c: bv32) returns (f: bv32 -> bv32)
    ensures Linear(f) && forall u :: f(u) == Times(c, u)
  {
    hide Raise, Double, Times, Add;
    forall x, y ensures Times(c, Add(x, y)) == Add(Times(c, x), Times(c, y)) {
      TimesAdds(c, x, y);
    }
    f := (u: bv32) => Times(c, u) as bv32;
  }

  /** e^2, as an element and as a map. */
  lemma RaiseTwice(c: bv32)
    ensures Raise(Raise(c)) == Times(0x137, c)
  {
    hide Raise, Times, Add, Low, Linear;
    RaiseTwiceBits();
    var f := RaiseTwiceMap();
    var g := FactorMap(0x137);
    SameMaps(f, g, c);
    LowFactors(c, c);
    LowFactors(0x137, c);
  }

  lemma TimesOfDouble(c: bv32) returns (f: bv32 -> bv32)
    ensures Linear(f) && forall u :: f(u) == Times(Double(u), c)
  {
    hide Raise, Double, Times, Add;
    forall x, y ensures Times(Double(Add(x, y)), c) == Add(Times(Double(x), c), Times(Double(y), c)) {
      DoubleLinear(x, y);
      TimesLinear(Double(x), Double(y), c);
    }
    f := (u: bv32) => Times(Double(u), c) as bv32;
  }

  lemma DoubleOfTimes(c: bv32) returns (f: bv32 -> bv32)
    ensures Linear(f) && forall u :: f(u) == Double(Times(u, c))
  {
    hide Raise, Double, Times, Add;
    forall x, y ensures Double(Times(Add(x, y), c)) == Add(Double(Times(x, c)), Double(Times(y, c))) {
      TimesLinear(x, y, c);
      DoubleLinear(Times(x, c), Times(y, c));
    }
    f := (u: bv32) => Double(Times(u, c)) as bv32;
  }

  lemma TimesOfRaise(c: bv32) returns (f: bv32 -> bv32)
    ensures Linear(f) && forall u :: f(u) == Times(Raise(u), c)
  {
    hide Raise, Double, Times, Add;
    forall x, y ensures Times(Raise(Add(x, y)), c) == Add(Times(Raise(x), c), Times(Raise(y), c)) {
      RaiseLinear(x, y);
      TimesLinear(Raise(x), Raise(y), c);
    }
    f := (u: bv32) => Times(Raise(u), c) as bv32;
  }

  lemma RaiseOfTimes(c: bv32) returns (f: bv32 -> bv32)
    ensures Linear(f) && forall u :: f(u) == Raise(Times(u, c))
  {
    hide Raise, Double, Times, Add;
    forall x, y ensures Raise(Times(Add(x, y), c)) == Add(Raise(Times(x, c)), Raise(Times(y, c))) {
      TimesLinear(x, y, c);
      RaiseLinear(Times(x, c), Times(y, c));
    }
    f := (u: bv32) => Raise(Times(u, c)) as bv32;
  }

  lemma TimesOfTimes(c: bv32, d: bv32) returns (f: bv32 -> bv32)
    ensures Linear(f) && forall u :: f(u) == Times(Times(u, c), d)
  {
    hide Raise, Double, Times, Add;
    forall x, y ensures Times(Times(Add(x, y), c), d) == Add(Times(Times(x, c), d), Times(Times(y, c), d)) {
      TimesLinear(x, y, c);
      TimesLinear(Times(x, c), Times(y, c), d);
    }
    f := (u: bv32) => Times(Times(u, c), d) as bv32;
  }

  lemma TimesOf(c: bv32) returns (f: bv32 -> bv32)
    ensures Linear(f) && forall u :: f(u) == Times(u, c)
  {
    hide Raise, Double, Times, Add;
    forall x, y ensures Times(Add(x, y), c) == Add(Times(x, c), Times(y, c)) {
      TimesLinear(x, y, c);
    }
    f := (u: bv32) => Times(u, c) as bv32;
  }

  lemma DoubledBits()
    ensures Double(0x001) == 0x002 && Double(0x002) == 0x004 && Double(0x004) == 0x008 && Double(0x008) == 0x010
    ensures Double(0x010) == Add(0x001, 0x008)
    ensures Double(0x020) == 0x040 && Double(0x040) == 0x080 && Double(0x080) == 0x100 && Double(0x100) == 0x200
    ensures Double(0x200) == Add(0x020, 0x100)
  {
  }

  lemma TimesDouble(x: bv32, c: bv32)
    ensures Times(Double(x), c) == Double(Times(x, c))
  {
    hide Raise, Double, Times, Add, Low, Linear;
    var f := TimesOfDouble(c);
    var g := DoubleOfTimes(c);
    DoubledBits();
    BitProducts(c);
    LowLinear(c, c);
    TimesLinear(0x001, 0x008, c);
    TimesLinear(0x020, 0x100, c);
    FiveDoubles(c);
    FiveDoubles(Raise(c));
    LowIsSame(Raise(c));
    SameMaps(f, g, x);
    LowFactors(x, c);
    LowLinear(x, x);
  }

  lemma RaisedBits()
    ensures Raise(0x001) == 0x020 && Raise(0x002) == 0x040 && Raise(0x004) == 0x080 && Raise(0x008) == 0x100
    ensures Raise(0x010) == 0x200 && Raise(0x020) == 0x137 && Raise(0x040) == Double(0x137)
    ensures Raise(0x080) == Double(Double(0x137)) && Raise(0x100) == Double(Double(Double(0x137)))
    ensures Raise(0x200) == Double(Double(Double(Double(0x137))))
  {
  }

  lemma TimesRaise(x: bv32, c: bv32)
    ensures Times(Raise(x), c) == Raise(Times(x, c))
  {
    hide Raise, Double, Times, Add, Low, Linear;
    var f := TimesOfRaise(c);
    var g := RaiseOfTimes(c);
    RaisedBits();
    BitProducts(c);
    LowFactors(c, c);
    RaiseTwice(c);
    RaiseDoubles(c);
    RaiseDoubles(Raise(c));
    TimesDoubles(0x137, c);
    SameMaps(f, g, x);
    LowFactors(x, c);
  }

  lemma RaiseDoubles(c: bv32)
    ensures Raise(Double(c)) == Double(Raise(c)) && Raise(Double(Double(c))) == Double(Double(Raise(c)))
    ensures Raise(Double(Double(Double(c)))) == Double(Double(Double(Raise(c))))
    ensures Raise(Double(Double(Double(Double(c))))) == Double(Double(Double(Double(Raise(c)))))
  {
    hide Raise, Double;
    RaiseDouble(c);
    RaiseDouble(Double(c));
    RaiseDouble(Double(Double(c)));
    RaiseDouble(Double(Double(Double(c))));
  }

  lemma TimesDoubles(x: bv32, c: bv32)
    ensures Times(Double(x), c) == Double(Times(x, c)) && Times(Double(Double(x)), c) == Double(Double(Times(x, c)))
    ensures Times(Double(Double(Double(x))), c) == Double(Double(Double(Times(x, c))))
    ensures Times(Double(Double(Double(Double(x)))), c) == Double(Double(Double(Double(Times(x, c)))))
  {
    hide Raise, Double, Times;
    TimesDouble(x, c);
    TimesDouble(Double(x), c);
    TimesDouble(Double(Double(x)), c);
    TimesDouble(Double(Double(Double(x))), c);
  }

  /** Products do not depend on how they are grouped. */
  lemma TimesAssociative(x: bv32, c: bv32, d: bv32)
    ensures Times(Times(x, c), d) == Times(x, Times(c, d))
  {
    hide Raise, Double, Times, Add, Low, Linear;
    var f := TimesOfTimes(c, d);
    var g := TimesOf(Times(c, d));
    BitProducts(c);
    BitProducts(Times(c, d));
    LowFactors(c, d);
    LowIsSame(Times(c, d));
    TimesDoubles(c, d);
    TimesDoubles(Raise(c), d);
    TimesRaise(c, d);
    SameMaps(f, g, x);
    LowFactors(x, c);
    LowFactors(x, Times(c, d));
  }

  // ---------------------------------------------------------------- powers of e

  function Exp(n: nat): Element { if n == 0 then 1 else Raise(Exp(n - 1)) }

  lemma {:induction false} ExpAdd(m: nat, n: nat)
    ensures Times(Exp(m), Exp(n)) == Exp(m + n)
  {
    hide Raise, Times, Low, Double;
    if m == 0 {
      BitProducts(Exp(n));
      LowIsSame(Exp(n));
    } else {
      ExpAdd(m - 1, n);
      TimesRaise(Exp(m - 1), Exp(n));
    }
  }

  /** A product with a power, once more times a power. */
  lemma TimesExp(u: bv32, m: nat, n: nat)
    ensures Times(Times(u, Exp(m)), Exp(n)) == Times(u, Exp(m + n))
  {
    hide Times, Exp;
    TimesAssociative(u, Exp(m), Exp(n));
    ExpAdd(m, n);
  }
}
