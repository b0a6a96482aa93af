/** Which texts are accepted: exactly the encoded ones, all in lower case or all in upper case. */
module Bech32Cases {
  import opened Basics
  import opened Bech32Code
  import opened Bech32

  predicate Mixed(s: Text) { HasLower(s) && HasUpper(s) }

  lemma LowerKeepsPrintable(c: bv8)
    ensures IsPrintable(LowerCase(c)) <==> IsPrintable(c)
    ensures LowerCase(c) == SEPARATOR <==> c == SEPARATOR
    ensures SymbolOf(LowerCase(c)) == SymbolOf(c) && LowerCase(LowerCase(c)) == LowerCase(c) && !IsUpper(LowerCase(c))
  {
    LowerIsSame(c);
    hide LowerSymbol;
  }

  lemma LoweredShape(s: Text)
    ensures AllPrintable(Lowered(s)) <==> AllPrintable(s)
    ensures LastSeparator(Lowered(s)) == LastSeparator(s)
    ensures !HasUpper(Lowered(s)) && NoUpper(Lowered(s))
  {
    hide LowerCase, IsPrintable, IsUpper;
    var t := Lowered(s);
    forall i | 0 <= i < |s|
      ensures (IsPrintable(t[i]) <==> IsPrintable(s[i])) && (t[i] == SEPARATOR <==> s[i] == SEPARATOR) && !IsUpper(t[i])
    {
      LowerKeepsPrintable(s[i]);
    }
    var pos := LastSeparator(s);
    if pos >= 0 {
      LastSeparatorIs(t, pos);
    }
  }

  lemma LoweredSymbols(s: Text)
    ensures AllSymbols(Lowered(s)) <==> AllSymbols(s)
    ensures AllSymbols(s) ==> Symbols(Lowered(s)) == Symbols(s)
  {
    hide LowerCase, SymbolOf;
    var t := Lowered(s);
    forall i | 0 <= i < |s| ensures SymbolOf(t[i]) == SymbolOf(s[i]) { LowerKeepsPrintable(s[i]); }
  }

  lemma LoweredSlices(s: Text, pos: nat)
    requires pos < |s|
    ensures Lowered(s)[pos + 1..] == Lowered(s[pos + 1..])
    ensures Lowered(Lowered(s)[..pos]) == Lowered(s[..pos])
  {
    hide LowerCase, IsPrintable, IsUpper;
    forall i | 0 <= i < pos ensures LowerCase(LowerCase(s[i])) == LowerCase(s[i]) { LowerKeepsPrintable(s[i]); }
  }

  /** Case does not matter as long as it is one: a text in upper case means what it means in lower case, and
      a text of mixed case is refused, whatever else it is. */
  lemma CaseIgnored(s: Text)
    ensures !Mixed(s) ==> Decode(s) == Decode(Lowered(s))
    ensures Mixed(s) ==> Decode(s) == FAILED
  {
    hide VerifyChecksum, Lowered, Symbols, LastSeparator, AllPrintable, HasUpper, HasLower, AllSymbols, NoUpper;
    LoweredShape(s);
    var pos := LastSeparator(s);
    if 1 <= pos {
      LoweredSlices(s, pos);
      LoweredSymbols(s[pos + 1..]);
    }
  }

  // ---------------------------------------------------------------- upper case

  function UpperCase(c: bv8): bv8 { if IsLower(c) then (c - 0x61) + 0x41 else c }

  function Uppered(s: Text): (t: Text)
    ensures |t| == |s|
  {
    seq(|s|, i requires 0 <= i < |s| => UpperCase(s[i]))
  }

  lemma UpperThenLower(c: bv8)
    ensures !IsLower(UpperCase(c)) && (!IsUpper(c) ==> LowerCase(UpperCase(c)) == c)
  {
  }

  lemma UpperedIsNotMixed(s: Text)
    ensures !Mixed(Uppered(s)) && (NoUpper(s) ==> Lowered(Uppered(s)) == s)
  {
    hide LowerCase, UpperCase, IsUpper, IsLower;
    var t := Uppered(s);
    forall i | 0 <= i < |s| ensures !IsLower(t[i]) && (!IsUpper(s[i]) ==> LowerCase(t[i]) == s[i]) {
      UpperThenLower(s[i]);
    }
  }

  lemma EncodedInLower(encoding: Encoding, hrp: Text, values: seq<Sym>)
    requires encoding != INVALID && NoUpper(hrp)
    ensures NoUpper(Encode(encoding, hrp, values))
  {
    hide CreateChecksum, Chars, IsUpper;
    var chars := values + CreateChecksum(encoding, hrp, values);
    CharsAreSymbols(chars);
    assert !IsUpper(SEPARATOR) by { SeparatorHasNoCase(); }
  }

  lemma SeparatorHasNoCase()
    ensures !IsUpper(SEPARATOR) && !IsLower(SEPARATOR)
  {
  }

  /** An encoded text decodes to its inputs in upper case as well. */
  lemma UpperDecodes(encoding: Encoding, hrp: Text, values: seq<Sym>)
    requires encoding != INVALID && NoUpper(hrp)
    ensures Decode(Uppered(Encode(encoding, hrp, values))) == Decode(Encode(encoding, hrp, values))
    ensures hrp != [] && AllPrintable(hrp) && |hrp| + |values| + 7 <= 90 ==>
      Decode(Uppered(Encode(encoding, hrp, values))) == DecodeResult(encoding, hrp, values)
  {
    hide Decode, Encode, Mixed, NoUpper, AllPrintable;
    EncodedInLower(encoding, hrp, values);
    UpperedIsNotMixed(Encode(encoding, hrp, values));
    CaseIgnored(Uppered(Encode(encoding, hrp, values)));
    DecodeOfEncode(encoding, hrp, values);
  }

  /** The texts that decode to these inputs are the encoded one and what differs from it in case, as long as
      it is of one case and not too long; so nothing else is accepted, and nothing of these is refused. */
  lemma Accepts(s: Text, encoding: Encoding, hrp: Text, values: seq<Sym>)
    requires encoding != INVALID && NoUpper(hrp)
    ensures Decode(s) == DecodeResult(encoding, hrp, values)
      <==> && !Mixed(s) && Lowered(s) == Encode(encoding, hrp, values)
           && hrp != [] && AllPrintable(hrp) && |s| <= 90
  {
    hide Mixed, NoUpper, AllPrintable, Lowered, CreateChecksum, Chars, Decode, LastSeparator, VerifyChecksum,
         AllSymbols;
    CaseIgnored(s);
    DecodeOfEncode(encoding, hrp, values);
    if Decode(s) == DecodeResult(encoding, hrp, values) {
      EncodeOfDecode(s);
    }
  }

  // ---------------------------------------------------------------- two texts

  lemma RunSnoc(c: Residue, v: seq<Sym>, x: Sym)
    ensures Run(c, v + [x]) == Step(Run(c, v), x)
  {
    hide Step;
    assert (v + [x])[..|v|] == v;
  }

  /** The remainder of nine symbols, step by step. */
  lemma NineSteps(v: seq<Sym>, c: seq<Residue>)
    requires |v| == 9 && |c| == 10 && c[0] == 1
    requires forall i :: 0 <= i < 9 ==> Step(c[i], v[i]) == c[i + 1]
    ensures PolyMod(v) == c[9]
  {
    hide Step;
    assert v[..0] == [];
    for i := 0 to 9
      invariant Run(1, v[..i]) == c[i]
    {
      assert v[..i + 1] == v[..i] + [v[i]];
      RunSnoc(1, v[..i], v[i]);
    }
    assert v[..9] == v;
  }

  lemma ShortSteps()
    ensures Step(1, 3) == 0x23 && Step(0x23, 0) == 0x460 && Step(0x460, 1) == 0x8c01
    ensures Step(0x8c01, 10) == 0x11_802a && Step(0x11_802a, 28) == 0x230_055c && Step(0x230_055c, 25) == 0x3d6a_fc2b
    ensures Step(0x3d6a_fc2b, 31) == 0x2f8_4386 && Step(0x2f8_4386, 20) == 0x2462_2766 && Step(0x2462_2766, 31) == 1
  {
  }

  lemma ShortModifiedSteps()
    ensures Step(0x8c01, 31) == 0x11_803f && Step(0x11_803f, 0) == 0x230_07e0 && Step(0x230_07e0, 9) == 0x3d6a_abbb
    ensures Step(0x3d6a_abbb, 19) == 0x2f2_b18a && Step(0x2f2_b18a, 17) == 0x253c_66e3
      && Step(0x253c_66e3, 29) == 0x2bc8_30a3
  {
  }

  lemma ShortPart()
    ensures ExpandHRP([0x61]) == [3, 0, 1]
  {
    assert HighBits(0x61) == 3 && LowBits(0x61) == 1;
  }

  lemma ShortSums()
    ensures PolyMod([3, 0, 1, 10, 28, 25, 31, 20, 31]) == 1
    ensures PolyMod([3, 0, 1, 31, 0, 9, 19, 17, 29]) == 0x2bc8_30a3
  {
    hide Step, Run;
    ShortSteps();
    ShortModifiedSteps();
    NineSteps([3, 0, 1, 10, 28, 25, 31, 20, 31],
              [1, 0x23, 0x460, 0x8c01, 0x11_802a, 0x230_055c, 0x3d6a_fc2b, 0x2f8_4386, 0x2462_2766, 1]);
    NineSteps([3, 0, 1, 31, 0, 9, 19, 17, 29],
              [1, 0x23, 0x460, 0x8c01, 0x11_803f, 0x230_07e0, 0x3d6a_abbb, 0x2f2_b18a, 0x253c_66e3, 0x2bc8_30a3]);
  }

  /** The characters of the text "a1" and six symbols. */
  function Short(v: seq<Sym>): Text { [0x61, SEPARATOR] + Chars(v) }

  lemma ShortSum(v: seq<Sym>, encoding: Encoding)
    requires |v| == 6 && encoding != INVALID && PolyMod([3, 0, 1] + v) == EncodingConstant(encoding)
    ensures CreateChecksum(encoding, [0x61], []) == v
  {
    ShortPart();
    hide PolyMod, CreateChecksum, ExpandHRP, EncodingConstant, VerifyChecksum;
    assert [] + v == v;
    VerifyMeans([0x61], v, encoding);
    ChecksumVerifies(encoding, [0x61], [], v);
  }

  lemma ShortEncodes(v: seq<Sym>, encoding: Encoding)
    requires |v| == 6 && encoding != INVALID && CreateChecksum(encoding, [0x61], []) == v
    ensures NoUpper([0x61]) && AllPrintable([0x61])
    ensures Encode(encoding, [0x61], []) == Short(v)
  {
    SmallLetter();
    hide Chars, CreateChecksum, IsUpper, IsPrintable;
    var none: seq<Sym> := [];
    var part: Text := [0x61];
    assert none + v == v;
    assert part + [SEPARATOR] == [0x61, SEPARATOR];
  }

  lemma ShortDecodes(v: seq<Sym>, encoding: Encoding)
    requires |v| == 6 && encoding != INVALID && PolyMod([3, 0, 1] + v) == EncodingConstant(encoding)
    ensures Decode(Short(v)) == DecodeResult(encoding, [0x61], [])
  {
    ShortSum(v, encoding);
    hide PolyMod, CreateChecksum, EncodingConstant, Decode, Encode, NoUpper, AllPrintable, Short;
    ShortEncodes(v, encoding);
    DecodeOfEncode(encoding, [0x61], []);
  }

  lemma SmallLetter()
    ensures !IsUpper(0x61) && IsPrintable(0x61)
  {
  }

  lemma UpperForm(s: Text, t: Text)
    requires |s| == |t| && forall i :: 0 <= i < |s| ==> !IsUpper(s[i]) && t[i] == UpperCase(s[i])
    ensures Decode(t) == Decode(s)
  {
    hide Decode, Mixed, IsUpper, UpperCase, Lowered;
    assert t == Uppered(s);
    UpperedIsNotMixed(s);
    CaseIgnored(t);
  }

  lemma ShortIs(v: seq<Sym>, s: Text)
    requires |s| == |v| + 2 && s[0] == 0x61 && s[1] == SEPARATOR
    requires forall i :: 0 <= i < |v| ==> s[i + 2] == CharOf(v[i])
    ensures Short(v) == s
  {
    hide CharOf;
  }

  /** "A12UEL5L", which BIP 173 lists as valid: bech32 with the part "a" and no data. */
  lemma KnownBech32()
    ensures Decode([0x41, 0x31, 0x32, 0x55, 0x45, 0x4c, 0x35, 0x4c]) == DecodeResult(BECH32, [0x61], [])
  {
    ShortSums();
    hide PolyMod, Decode;
    assert [3 as Sym, 0, 1] + [10, 28, 25, 31, 20, 31] == [3, 0, 1, 10, 28, 25, 31, 20, 31];
    ShortDecodes([10, 28, 25, 31, 20, 31], BECH32);
    hide Short;
    BothCases();
  }

  lemma BothCases()
    ensures Short([10, 28, 25, 31, 20, 31]) == [0x61, 0x31, 0x32, 0x75, 0x65, 0x6c, 0x35, 0x6c]
    ensures Decode([0x41, 0x31, 0x32, 0x55, 0x45, 0x4c, 0x35, 0x4c])
         == Decode([0x61, 0x31, 0x32, 0x75, 0x65, 0x6c, 0x35, 0x6c])
  {
    hide Decode, Short;
    ShortIs([10, 28, 25, 31, 20, 31], [0x61, 0x31, 0x32, 0x75, 0x65, 0x6c, 0x35, 0x6c]);
    UpperForm([0x61, 0x31, 0x32, 0x75, 0x65, 0x6c, 0x35, 0x6c], [0x41, 0x31, 0x32, 0x55, 0x45, 0x4c, 0x35, 0x4c]);
  }

  lemma BothCasesModified()
    ensures Short([31, 0, 9, 19, 17, 29]) == [0x61, 0x31, 0x6c, 0x71, 0x66, 0x6e, 0x33, 0x61]
    ensures Decode([0x41, 0x31, 0x4c, 0x51, 0x46, 0x4e, 0x33, 0x41])
         == Decode([0x61, 0x31, 0x6c, 0x71, 0x66, 0x6e, 0x33, 0x61])
  {
    hide Decode, Short;
    ShortIs([31, 0, 9, 19, 17, 29], [0x61, 0x31, 0x6c, 0x71, 0x66, 0x6e, 0x33, 0x61]);
    UpperForm([0x61, 0x31, 0x6c, 0x71, 0x66, 0x6e, 0x33, 0x61], [0x41, 0x31, 0x4c, 0x51, 0x46, 0x4e, 0x33, 0x41]);
  }

  /** "A1LQFN3A", which BIP 350 lists as valid: bech32m with the part "a" and no data. */
  lemma KnownBech32m()
    ensures Decode([0x41, 0x31, 0x4c, 0x51, 0x46, 0x4e, 0x33, 0x41]) == DecodeResult(BECH32M, [0x61], [])
  {
    ShortSums();
    hide PolyMod, Decode;
    assert [3 as Sym, 0, 1] + [31, 0, 9, 19, 17, 29] == [3, 0, 1, 31, 0, 9, 19, 17, 29];
    ShortDecodes([31, 0, 9, 19, 17, 29], BECH32M);
    hide Short;
    BothCasesModified();
  }
}
