/** Bech32 and bech32m text: a human-readable part, a separator, and symbols with a checksum. */
module Bech32 {
  import opened Basics
  import opened Bech32Code
  import opened Bech32Distance

  type Text = seq<bv8>

  datatype DecodeResult = DecodeResult(encoding: Encoding, hrp: Text, data: seq<Sym>)

  const FAILED := DecodeResult(INVALID, [], [])

  /** The separator "1". */
  const SEPARATOR: bv8 := 0x31

  // ---------------------------------------------------------------- characters

  predicate IsLower(c: bv8) { 0x61 <= c <= 0x7a }

  predicate IsUpper(c: bv8) { 0x41 <= c <= 0x5a }

  predicate IsPrintable(c: bv8) { 33 <= c <= 126 }

  function LowerCase(c: bv8): bv8 { if IsUpper(c) then (c - 0x41) + 0x61 else c }

  function Lowered(s: Text): (t: Text)
    ensures |t| == |s|
  {
    seq(|s|, i requires 0 <= i < |s| => LowerCase(s[i]))
  }

  /** The characters for symbols, in the order of the symbols. */
  function CharOf(v: Sym): bv8 {
    match v
    case 0 => 0x71
    case 1 => 0x70
    case 2 => 0x7a
    case 3 => 0x72
    case 4 => 0x79
    case 5 => 0x39
    case 6 => 0x78
    case 7 => 0x38
    case 8 => 0x67
    case 9 => 0x66
    case 10 => 0x32
    case 11 => 0x74
    case 12 => 0x76
    case 13 => 0x64
    case 14 => 0x77
    case 15 => 0x30
    case 16 => 0x73
    case 17 => 0x33
    case 18 => 0x6a
    case 19 => 0x6e
    case 20 => 0x35
    case 21 => 0x34
    case 22 => 0x6b
    case 23 => 0x68
    case 24 => 0x63
    case 25 => 0x65
    case 26 => 0x36
    case 27 => 0x6d
    case 28 => 0x75
    case 29 => 0x61
    case 30 => 0x37
    case _ => 0x6c
  }

  /** The symbol for a character in either case. */
  function SymbolOf(c: bv8): Option<Sym> { LowerSymbol(LowerCase(c)) }

  function LowerSymbol(c: bv8): Option<Sym> {
    match c
    case 0x30 => Some(15)
    case 0x32 => Some(10)
    case 0x33 => Some(17)
    case 0x34 => Some(21)
    case 0x35 => Some(20)
    case 0x36 => Some(26)
    case 0x37 => Some(30)
    case 0x38 => Some(7)
    case 0x39 => Some(5)
    case 0x61 => Some(29)
    case 0x63 => Some(24)
    case 0x64 => Some(13)
    case 0x65 => Some(25)
    case 0x66 => Some(9)
    case 0x67 => Some(8)
    case 0x68 => Some(23)
    case 0x6a => Some(18)
    case 0x6b => Some(22)
    case 0x6c => Some(31)
    case 0x6d => Some(27)
    case 0x6e => Some(19)
    case 0x70 => Some(1)
    case 0x71 => Some(0)
    case 0x72 => Some(3)
    case 0x73 => Some(16)
    case 0x74 => Some(11)
    case 0x75 => Some(28)
    case 0x76 => Some(12)
    case 0x77 => Some(14)
    case 0x78 => Some(6)
    case 0x79 => Some(4)
    case 0x7a => Some(2)
    case _ => None
  }

  lemma CharSymbol(v: Sym)
    ensures LowerSymbol(CharOf(v)) == Some(v)
  {
    match v
    case 0 =>
    case 1 =>
    case 2 =>
    case 3 =>
    case 4 =>
    case 5 =>
    case 6 =>
    case 7 =>
    case 8 =>
    case 9 =>
    case 10 =>
    case 11 =>
    case 12 =>
    case 13 =>
    case 14 =>
    case 15 =>
    case 16 =>
    case 17 =>
    case 18 =>
    case 19 =>
    case 20 =>
    case 21 =>
    case 22 =>
    case 23 =>
    case 24 =>
    case 25 =>
    case 26 =>
    case 27 =>
    case 28 =>
    case 29 =>
    case 30 =>
    case _ => assert v == 31;
  }

  lemma CharIsLower(v: Sym)
    ensures LowerCase(CharOf(v)) == CharOf(v)
  {
    CharIsLegal(v);
    hide CharOf;
  }

  lemma CharRoundTrip(v: Sym)
    ensures SymbolOf(CharOf(v)) == Some(v)
  {
    hide CharOf, LowerSymbol, LowerCase;
    CharIsLower(v);
    CharSymbol(v);
  }

  lemma CharIsLegal(v: Sym)
    ensures CharOf(v) != SEPARATOR && !IsUpper(CharOf(v)) && IsPrintable(CharOf(v))
  {
  }

  lemma LowerIsSame(c: bv8)
    ensures SymbolOf(LowerCase(c)) == SymbolOf(c) && LowerCase(LowerCase(c)) == LowerCase(c) && !IsUpper(LowerCase(c))
    ensures !IsUpper(c) ==> LowerCase(c) == c
    ensures LowerCase(c) == SEPARATOR <==> c == SEPARATOR
  {
  }

  lemma DigitRoundTrip(c: bv8)
    requires LowerSymbol(c).Some? && c < 0x40
    ensures CharOf(LowerSymbol(c).value) == c && c != SEPARATOR
  {
    match c
    case 0x30 =>
    case 0x32 =>
    case 0x33 =>
    case 0x34 =>
    case 0x35 =>
    case 0x36 =>
    case 0x37 =>
    case 0x38 =>
    case 0x39 =>
    case _ =>
  }

  lemma LetterRoundTrip(c: bv8)
    requires LowerSymbol(c).Some? && c >= 0x40
    ensures CharOf(LowerSymbol(c).value) == c && c != SEPARATOR
  {
    match c
    case 0x61 =>
    case 0x63 =>
    case 0x64 =>
    case 0x65 =>
    case 0x66 =>
    case 0x67 =>
    case 0x68 =>
    case 0x6a =>
    case 0x6b =>
    case 0x6c =>
    case 0x6d =>
    case 0x6e =>
    case 0x70 =>
    case 0x71 =>
    case 0x72 =>
    case 0x73 =>
    case 0x74 =>
    case 0x75 =>
    case 0x76 =>
    case 0x77 =>
    case 0x78 =>
    case 0x79 =>
    case 0x7a =>
    case _ =>
  }

  lemma LowerRoundTrip(c: bv8)
    requires LowerSymbol(c).Some?
    ensures CharOf(LowerSymbol(c).value) == c && c != SEPARATOR
  {
    hide LowerSymbol, CharOf;
    if c < 0x40 { DigitRoundTrip(c); } else { LetterRoundTrip(c); }
  }

  lemma SymbolRoundTrip(c: bv8)
    requires SymbolOf(c).Some?
    ensures CharOf(SymbolOf(c).value) == LowerCase(c) && c != SEPARATOR
  {
    hide LowerCase, CharOf, LowerSymbol;
    LowerIsSame(c);
    LowerRoundTrip(LowerCase(c));
  }

  function Chars(v: seq<Sym>): (s: Text)
    ensures |s| == |v|
  {
    seq(|v|, i requires 0 <= i < |v| => CharOf(v[i]))
  }

  predicate AllSymbols(s: Text) { forall i :: 0 <= i < |s| ==> SymbolOf(s[i]).Some? }

  function Symbols(s: Text): (v: seq<Sym>)
    requires AllSymbols(s)
    ensures |v| == |s|
  {
    seq(|s|, i requires 0 <= i < |s| => SymbolOf(s[i]).value)
  }

  // ---------------------------------------------------------------- checksums

  function HighBits(c: bv8): Sym { (c >> 5) as bv32 }

  function LowBits(c: bv8): Sym {
    LowBitsInRange(c);
    (c & 0x1f) as bv32
  }

  lemma LowBitsInRange(c: bv8)
    ensures (c & 0x1f) as bv32 < 32
  {
  }

  /** The high bits of the characters, a zero, and their low bits. */
  function ExpandHRP(hrp: Text): (v: seq<Sym>)
    ensures |v| == 2 * |hrp| + 1
  {
    seq(|hrp|, i requires 0 <= i < |hrp| => HighBits(hrp[i])) + [0 as Sym]
    + seq(|hrp|, i requires 0 <= i < |hrp| => LowBits(hrp[i]))
  }

  function VerifyChecksum(hrp: Text, values: seq<Sym>): Encoding {
    var check := PolyMod(ExpandHRP(hrp) + values);
    if check == EncodingConstant(BECH32) then BECH32
    else if check == EncodingConstant(BECH32M) then BECH32M
    else INVALID
  }

  function CreateChecksum(encoding: Encoding, hrp: Text, values: seq<Sym>): (sum: seq<Sym>)
    requires encoding != INVALID
    ensures |sum| == 6
  {
    Groups(Add(PolyMod(ExpandHRP(hrp) + values + Zeros(6)), EncodingConstant(encoding)))
  }

  lemma VerifyMeans(hrp: Text, values: seq<Sym>, encoding: Encoding)
    requires encoding != INVALID
    ensures VerifyChecksum(hrp, values) == encoding <==> PolyMod(ExpandHRP(hrp) + values) == EncodingConstant(encoding)
  {
  }

  /** Six symbols verify as an encoding exactly when they are the created checksum. */
  lemma ChecksumVerifies(encoding: Encoding, hrp: Text, values: seq<Sym>, sum: seq<Sym>)
    requires encoding != INVALID && |sum| == 6
    ensures VerifyChecksum(hrp, values + sum) == encoding <==> sum == CreateChecksum(encoding, hrp, values)
  {
    hide Run, Groups, ExpandHRP, EncodingConstant, Add;
    var v := ExpandHRP(hrp) + values;
    assert ExpandHRP(hrp) + (values + sum) == v + sum;
    VerifyMeans(hrp, values + sum, encoding);
    RunConcat(1, v, sum);
    RunConcat(1, v, Zeros(6));
    SixSymbols(Run(1, v), EncodingConstant(encoding), sum);
  }

  // ---------------------------------------------------------------- text

  predicate NoUpper(s: Text) { forall i :: 0 <= i < |s| ==> !IsUpper(s[i]) }

  predicate HasUpper(s: Text) { exists i :: 0 <= i < |s| && IsUpper(s[i]) }

  predicate HasLower(s: Text) { exists i :: 0 <= i < |s| && IsLower(s[i]) }

  predicate AllPrintable(s: Text) { forall i :: 0 <= i < |s| ==> IsPrintable(s[i]) }

  function Encode(encoding: Encoding, hrp: Text, values: seq<Sym>): Text
    requires encoding != INVALID && NoUpper(hrp)
  {
    hrp + [SEPARATOR] + Chars(values + CreateChecksum(encoding, hrp, values))
  }

  /** The place of the last separator; -1 if there is none. */
  function LastSeparator(s: Text): (pos: int)
    ensures -1 <= pos < |s|
    ensures pos >= 0 ==> s[pos] == SEPARATOR
    ensures forall i :: pos < i < |s| ==> s[i] != SEPARATOR
  {
    if s == [] then -1
    else if s[|s| - 1] == SEPARATOR then |s| - 1
    else LastSeparator(s[..|s| - 1])
  }

  /** Printable, not of mixed case, short enough, with a separator that leaves room on both sides, and
      symbols after it. */
  predicate WellFormed(s: Text) {
    var pos := LastSeparator(s);
    && AllPrintable(s) && !(HasLower(s) && HasUpper(s)) && |s| <= 90 && 1 <= pos && pos + 7 <= |s|
    && AllSymbols(s[pos + 1..])
  }

  function Decode(s: Text): DecodeResult {
    if !WellFormed(s) then FAILED
    else
      var pos := LastSeparator(s);
      var hrp, values := Lowered(s[..pos]), Symbols(s[pos + 1..]);
      var encoding := VerifyChecksum(hrp, values);
      if encoding == INVALID then FAILED else DecodeResult(encoding, hrp, values[..|values| - 6])
  }

  // ---------------------------------------------------------------- round trips

  lemma CharsAreSymbols(v: seq<Sym>)
    ensures AllSymbols(Chars(v)) && Symbols(Chars(v)) == v
    ensures NoUpper(Chars(v)) && AllPrintable(Chars(v)) && forall i :: 0 <= i < |v| ==> Chars(v)[i] != SEPARATOR
  {
    hide SymbolOf, CharOf, IsUpper, IsPrintable;
    forall i | 0 <= i < |v|
      ensures SymbolOf(Chars(v)[i]) == Some(v[i]) && Chars(v)[i] != SEPARATOR
      ensures !IsUpper(Chars(v)[i]) && IsPrintable(Chars(v)[i]) {
      CharRoundTrip(v[i]);
      CharIsLegal(v[i]);
    }
  }

  lemma LastSeparatorIs(s: Text, pos: nat)
    requires pos < |s| && s[pos] == SEPARATOR && forall i :: pos < i < |s| ==> s[i] != SEPARATOR
    ensures LastSeparator(s) == pos
  {
  }

  /** Decoding what was encoded succeeds exactly when the human-readable part is not empty and
      printable and the text has at most 90 characters; then it gives everything back. */
  lemma DecodeOfEncode(encoding: Encoding, hrp: Text, values: seq<Sym>)
    requires encoding != INVALID && NoUpper(hrp)
    ensures var legal := hrp != [] && AllPrintable(hrp) && |hrp| + |values| + 7 <= 90;
      && (legal ==> Decode(Encode(encoding, hrp, values)) == DecodeResult(encoding, hrp, values))
      && (!legal ==> Decode(Encode(encoding, hrp, values)) == FAILED)
  {
    hide CreateChecksum, VerifyChecksum, Lowered, Chars, Symbols, IsUpper, IsLower, IsPrintable, LastSeparator;
    var sum := CreateChecksum(encoding, hrp, values);
    var s, n := Encode(encoding, hrp, values), |hrp|;
    var chars := Chars(values + sum);
    CharsAreSymbols(values + sum);
    LastSeparatorIs(s, n);
    assert s[..n] == hrp && s[n + 1..] == chars;
    LoweredIsSame(hrp);
    ChecksumVerifies(encoding, hrp, values, sum);
    assert (values + sum)[..|values|] == values;
    EncodedShape(hrp, chars);
  }

  lemma LoweredIsSame(s: Text)
    requires NoUpper(s)
    ensures Lowered(s) == s
  {
    forall i | 0 <= i < |s| ensures LowerCase(s[i]) == s[i] { LowerIsSame(s[i]); }
  }

  lemma EncodedShape(hrp: Text, chars: Text)
    requires NoUpper(hrp) && NoUpper(chars) && AllPrintable(chars)
    ensures var s := hrp + [SEPARATOR] + chars; !HasUpper(s) && (AllPrintable(s) <==> AllPrintable(hrp))
  {
    var s := hrp + [SEPARATOR] + chars;
    forall i | 0 <= i < |s| ensures !IsUpper(s[i]) && (i >= |hrp| ==> IsPrintable(s[i])) {
      if i > |hrp| { assert s[i] == chars[i - |hrp| - 1]; }
    }
    forall i | 0 <= i < |hrp| ensures s[i] == hrp[i] {}
  }

  /** Encoding what was decoded gives the text back in lower case. */
  lemma EncodeOfDecode(s: Text)
    requires Decode(s).encoding != INVALID
    ensures var r := Decode(s); NoUpper(r.hrp) && Encode(r.encoding, r.hrp, r.data) == Lowered(s)
  {
    hide CreateChecksum, VerifyChecksum, Lowered, Chars, Symbols, LastSeparator, Decode, AllSymbols, NoUpper;
    DecodeParts(s);
    var r, pos := Decode(s), LastSeparator(s);
    var values := Symbols(s[pos + 1..]);
    var n := |values| - 6;
    assert values == values[..n] + values[n..];
    ChecksumVerifies(r.encoding, r.hrp, values[..n], values[n..]);
    LoweredParts(s, pos);
    CharsOfSymbols(s[pos + 1..]);
  }

  lemma DecodeParts(s: Text)
    requires Decode(s).encoding != INVALID
    ensures |s| <= 90 && 1 <= LastSeparator(s) <= |s| - 7 && s[LastSeparator(s)] == SEPARATOR
      && AllSymbols(s[LastSeparator(s) + 1..])
    ensures var r, pos := Decode(s), LastSeparator(s); var values := Symbols(s[pos + 1..]);
      r.hrp == Lowered(s[..pos]) && r.data == values[..|values| - 6] && VerifyChecksum(r.hrp, values) == r.encoding
  {
    hide VerifyChecksum, Lowered, Symbols, LastSeparator, IsUpper, IsLower, IsPrintable;
  }

  lemma LoweredParts(s: Text, pos: nat)
    requires pos < |s| && s[pos] == SEPARATOR
    ensures NoUpper(Lowered(s[..pos])) && Lowered(s) == Lowered(s[..pos]) + [SEPARATOR] + Lowered(s[pos + 1..])
  {
    hide LowerCase, IsUpper;
    LowerIsSame(SEPARATOR);
    LowerIsSame(s[pos]);
    forall i | 0 <= i < pos ensures !IsUpper(LowerCase(s[i])) { LowerIsSame(s[i]); }
  }

  lemma CharsOfSymbols(s: Text)
    requires AllSymbols(s)
    ensures Chars(Symbols(s)) == Lowered(s)
  {
    hide LowerCase, SymbolOf, CharOf;
    forall i | 0 <= i < |s| ensures CharOf(SymbolOf(s[i]).value) == LowerCase(s[i]) { SymbolRoundTrip(s[i]); }
  }

  // ---------------------------------------------------------------- errors

  /** Changing one symbol of values that verify makes them verify as neither variant. */
  lemma OneSymbolRejected(hrp: Text, values: seq<Sym>, j: nat, x: Sym)
    requires j < |values| <= 91 && x != values[j] && VerifyChecksum(hrp, values) != INVALID
    ensures VerifyChecksum(hrp, values[j := x]) == INVALID
  {
    hide Run, Add, ExpandHRP;
    var v, i := ExpandHRP(hrp) + values, |ExpandHRP(hrp)| + j;
    assert v[i := x] == ExpandHRP(hrp) + values[j := x];
    assert v[i := x][i] != v[i];
    BurstDetected(v, v[i := x], i, 1);
    VariantsApart(v, i, x);
    AddLaws(1, 0x2bc8_30a3);
  }

  /** A character after the separator that is replaced by another one, other than the separator, is
      always noticed. */
  lemma OneErrorRejected(s: Text, i: nat, c: bv8)
    requires Decode(s).encoding != INVALID && LastSeparator(s) < i < |s|
    requires c != SEPARATOR && LowerCase(c) != LowerCase(s[i])
    ensures Decode(s[i := c]) == FAILED
  {
    hide VerifyChecksum, Lowered, Symbols, LastSeparator, LowerCase, SymbolOf, WellFormed;
    DecodeParts(s);
    WellFormedParts(s[i := c]);
    var pos := LastSeparator(s);
    LastSeparatorIs(s[i := c], pos);
    assert s[i := c][..pos] == s[..pos];
    var tail, j := s[pos + 1..], i - pos - 1;
    assert s[i := c][pos + 1..] == tail[j := c];
    if WellFormed(s[i := c]) {
      SymbolsUpdate(tail, j, c);
      OtherSymbol(tail[j], c);
      OneSymbolRejected(Lowered(s[..pos]), Symbols(tail), j, SymbolOf(c).value);
    }
  }

  /** Values that verify as a variant verify as that variant no longer after a change of up to three
      symbols. */
  lemma ThreeSymbolsRejected(hrp: Text, values: seq<Sym>, other: seq<Sym>, i: nat, j: nat, k: nat)
    requires VerifyChecksum(hrp, values) != INVALID && values != other
    requires i <= j <= k < |values| && k < i + 1023 && SameBut(values, other, i, j, k)
    ensures VerifyChecksum(hrp, other) != VerifyChecksum(hrp, values)
  {
    hide PolyMod, ExpandHRP, EncodingConstant;
    var head, encoding := ExpandHRP(hrp), VerifyChecksum(hrp, values);
    var v, w, n := head + values, head + other, |head|;
    assert v[n..] == values && w[n..] == other;
    ThreeChangesDetected(v, w, n + i, n + j, n + k);
    VerifyMeans(hrp, values, encoding);
    VerifyMeans(hrp, other, encoding);
  }

  lemma DecodeVerifies(s: Text, pos: int)
    requires Decode(s).encoding != INVALID && LastSeparator(s) == pos
    ensures |s| <= 90 && 1 <= pos <= |s| - 7 && s[pos] == SEPARATOR && AllSymbols(s[pos + 1..])
    ensures VerifyChecksum(Lowered(s[..pos]), Symbols(s[pos + 1..])) == Decode(s).encoding
  {
    hide VerifyChecksum, Lowered, Symbols, LastSeparator, Decode, AllSymbols;
    DecodeParts(s);
  }

  lemma LoweredSame(s: Text, t: Text, pos: nat)
    requires pos < |s| == |t| && s[pos] == t[pos] == SEPARATOR
    requires Lowered(s[..pos]) == Lowered(t[..pos]) && Lowered(s[pos + 1..]) == Lowered(t[pos + 1..])
    ensures Lowered(s) == Lowered(t)
  {
    hide Lowered, NoUpper;
    LoweredParts(s, pos);
    LoweredParts(t, pos);
  }

  /** Two accepted texts of the same variant, with their separators at the same place. */
  lemma AcceptedPair(s: Text, t: Text, pos: nat)
    requires Decode(s).encoding == Decode(t).encoding != INVALID
    requires |s| == |t| && LastSeparator(s) == LastSeparator(t) == pos
    ensures |s| <= 90 && 1 <= pos <= |s| - 7 && AllSymbols(s[pos + 1..]) && AllSymbols(t[pos + 1..])
    ensures VerifyChecksum(Lowered(s[..pos]), Symbols(s[pos + 1..]))
      == VerifyChecksum(Lowered(t[..pos]), Symbols(t[pos + 1..])) != INVALID
    ensures Lowered(s[..pos]) == Lowered(t[..pos]) && Lowered(s[pos + 1..]) == Lowered(t[pos + 1..]) ==>
      Lowered(s) == Lowered(t)
  {
    hide VerifyChecksum, Lowered, Symbols, LastSeparator, Decode, AllSymbols;
    DecodeVerifies(s, pos);
    DecodeVerifies(t, pos);
    if Lowered(s[..pos]) == Lowered(t[..pos]) && Lowered(s[pos + 1..]) == Lowered(t[pos + 1..]) {
      LoweredSame(s, t, pos);
    }
  }

  /** Up to three characters after the separator that are replaced by other ones, other than the
      separator, never give a text of the same variant that means something else. */
  lemma ThreeErrorsRejected(s: Text, t: Text, i: nat, j: nat, k: nat)
    requires Decode(s).encoding != INVALID && Lowered(t) != Lowered(s) && SameBut(s, t, i, j, k)
    requires LastSeparator(s) < i <= j <= k < |s| && t[i] != SEPARATOR && t[j] != SEPARATOR && t[k] != SEPARATOR
    ensures Decode(t).encoding != Decode(s).encoding
  {
    hide VerifyChecksum, Lowered, Chars, Symbols, LastSeparator, LowerCase, SymbolOf, WellFormed, Decode, NoUpper,
         AllSymbols,
         SameBut;
    DecodeParts(s);
    var pos := LastSeparator(s);
    SameTail(s, t, pos, i, j, k);
    LastSeparatorIs(t, pos);
    if Decode(t).encoding == Decode(s).encoding {
      AcceptedPair(s, t, pos);
      SameSymbolsSameText(Lowered(s[..pos]), s[pos + 1..], t[pos + 1..], i - pos - 1, j - pos - 1, k - pos - 1);
    }
  }

  lemma SameTail(s: Text, t: Text, pos: nat, i: nat, j: nat, k: nat)
    requires SameBut(s, t, i, j, k) && pos < i <= j <= k < |s|
    requires s[pos] == SEPARATOR && forall m :: pos < m < |s| ==> s[m] != SEPARATOR
    requires t[i] != SEPARATOR && t[j] != SEPARATOR && t[k] != SEPARATOR
    ensures |t| == |s| && t[..pos] == s[..pos] && t[pos] == SEPARATOR && forall m :: pos < m < |t| ==> t[m] != SEPARATOR
    ensures SameBut(s[pos + 1..], t[pos + 1..], i - pos - 1, j - pos - 1, k - pos - 1)
  {
  }

  lemma SameSymbolsSameText(hrp: Text, a: Text, b: Text, i: nat, j: nat, k: nat)
    requires AllSymbols(a) && AllSymbols(b) && SameBut(a, b, i, j, k) && i <= j <= k < |a| && k < i + 1023
    requires VerifyChecksum(hrp, Symbols(a)) == VerifyChecksum(hrp, Symbols(b)) != INVALID
    ensures Lowered(a) == Lowered(b)
  {
    hide VerifyChecksum, Lowered, Chars, Symbols, AllSymbols, SameBut;
    SymbolsSameBut(a, b, i, j, k);
    CharsOfSymbols(a);
    CharsOfSymbols(b);
    if Symbols(a) != Symbols(b) {
      ThreeSymbolsRejected(hrp, Symbols(a), Symbols(b), i, j, k);
    }
  }

  lemma SymbolsSameBut(a: Text, b: Text, i: nat, j: nat, k: nat)
    requires AllSymbols(a) && AllSymbols(b) && SameBut(a, b, i, j, k)
    ensures SameBut(Symbols(a), Symbols(b), i, j, k)
  {
    hide SymbolOf;
  }

  // ---------------------------------------------------------------- errors in the human-readable part

  lemma CharParts(b: bv8, c: bv8)
    ensures HighBits(b) == HighBits(c) && LowBits(b) == LowBits(c) ==> b == c
  {
  }

  lemma ExpandedAt(hrp: Text, m: nat)
    requires m < |hrp|
    ensures ExpandHRP(hrp)[m] == HighBits(hrp[m]) && ExpandHRP(hrp)[|hrp| + 1 + m] == LowBits(hrp[m])
    ensures ExpandHRP(hrp)[|hrp|] == 0
  {
    hide HighBits, LowBits;
  }

  /** A character of the human-readable part is two of the symbols that the checksum is about. */
  lemma ExpandedChange(hrp: Text, other: Text, i: nat)
    requires i < |hrp| && SameBut(hrp, other, i, i, i)
    ensures forall m :: 0 <= m < 2 * |hrp| + 1 && m != i && m != |hrp| + 1 + i ==>
      ExpandHRP(hrp)[m] == ExpandHRP(other)[m]
    ensures hrp != other ==> ExpandHRP(hrp) != ExpandHRP(other)
  {
    hide ExpandHRP, HighBits, LowBits;
    forall m | 0 <= m < 2 * |hrp| + 1 && m != i && m != |hrp| + 1 + i ensures ExpandHRP(hrp)[m] == ExpandHRP(other)[m] {
      var n := if m <= |hrp| then m else m - |hrp| - 1;
      ExpandedAt(hrp, if n == |hrp| then i else n);
      ExpandedAt(other, if n == |hrp| then i else n);
    }
    ExpandedAt(hrp, i);
    ExpandedAt(other, i);
    CharParts(hrp[i], other[i]);
    if hrp[i] == other[i] { assert hrp == other; }
  }

  /** Replacing one character of a human-readable part of at most 1021 changes the remainder, whatever
      symbols follow. */
  lemma PartChangeDetected(hrp: Text, values: seq<Sym>, i: nat, c: bv8)
    requires i < |hrp| < 1022 && c != hrp[i]
    ensures PolyMod(ExpandHRP(hrp[i := c]) + values) != PolyMod(ExpandHRP(hrp) + values)
  {
    hide PolyMod, ExpandHRP;
    var v, w, n := ExpandHRP(hrp) + values, ExpandHRP(hrp[i := c]) + values, 2 * |hrp| + 1;
    assert hrp[i := c][i] == c;
    ExpandedChange(hrp, hrp[i := c], i);
    assert v[..n] == ExpandHRP(hrp) && w[..n] == ExpandHRP(hrp[i := c]);
    ThreeChangesDetected(v, w, i, i, |hrp| + 1 + i);
  }

  /** The same when one of the symbols that follow changes as well. */
  lemma PartAndSymbolDetected(hrp: Text, other: Text, values: seq<Sym>, changed: seq<Sym>, i: nat, j: nat)
    requires i < |hrp| && SameBut(hrp, other, i, i, i) && j < |values| && SameBut(values, changed, j, j, j)
    requires 2 * |hrp| + 1 + j < i + 1023 && (hrp != other || values != changed)
    ensures PolyMod(ExpandHRP(other) + changed) != PolyMod(ExpandHRP(hrp) + values)
  {
    hide PolyMod, ExpandHRP;
    var v, w, n := ExpandHRP(hrp) + values, ExpandHRP(other) + changed, 2 * |hrp| + 1;
    ExpandedChange(hrp, other, i);
    assert v[..n] == ExpandHRP(hrp) && w[..n] == ExpandHRP(other) && v[n..] == values && w[n..] == changed;
    ThreeChangesDetected(v, w, i, |hrp| + 1 + i, n + j);
  }

  lemma PartAndSymbolRejected(hrp: Text, other: Text, values: seq<Sym>, changed: seq<Sym>, i: nat, j: nat)
    requires i < |hrp| && SameBut(hrp, other, i, i, i) && j < |values| && SameBut(values, changed, j, j, j)
    requires 2 * |hrp| + 1 + j < i + 1023 && VerifyChecksum(hrp, values) != INVALID
    ensures VerifyChecksum(other, changed) == VerifyChecksum(hrp, values) ==> hrp == other && values == changed
  {
    hide PolyMod, ExpandHRP, EncodingConstant;
    if hrp != other || values != changed {
      PartAndSymbolDetected(hrp, other, values, changed, i, j);
      VerifyMeans(hrp, values, VerifyChecksum(hrp, values));
      VerifyMeans(other, changed, VerifyChecksum(hrp, values));
    }
  }

  lemma LoweredSameBut(s: Text, t: Text, i: nat)
    requires SameBut(s, t, i, i, i)
    ensures SameBut(Lowered(s), Lowered(t), i, i, i)
  {
    hide LowerCase;
  }

  /** A character of the human-readable part that is replaced, with or without one of the characters after
      the separator, never gives a text of the same variant that means something else. */
  lemma PartErrorRejected(s: Text, t: Text, i: nat, j: nat)
    requires Decode(s).encoding != INVALID && Lowered(t) != Lowered(s) && SameBut(s, t, i, j, j)
    requires i < LastSeparator(s) < j < |s| && t[j] != SEPARATOR
    ensures Decode(t).encoding != Decode(s).encoding
  {
    hide VerifyChecksum, Lowered, Chars, Symbols, LastSeparator, LowerCase, SymbolOf, WellFormed, Decode, NoUpper,
         AllSymbols,
         SameBut;
    DecodeParts(s);
    var pos := LastSeparator(s);
    PartsSameBut(s, t, pos, i, j);
    LastSeparatorIs(t, pos);
    if Decode(t).encoding == Decode(s).encoding {
      AcceptedPair(s, t, pos);
      var a, b := s[pos + 1..], t[pos + 1..];
      LoweredSameBut(s[..pos], t[..pos], i);
      SymbolsSameBut(a, b, j - pos - 1, j - pos - 1, j - pos - 1);
      PartAndSymbolRejected(Lowered(s[..pos]), Lowered(t[..pos]), Symbols(a), Symbols(b), i, j - pos - 1);
      CharsOfSymbols(a);
      CharsOfSymbols(b);
    }
  }

  lemma PartsSameBut(s: Text, t: Text, pos: nat, i: nat, j: nat)
    requires SameBut(s, t, i, j, j) && i < pos < j < |s| && t[j] != SEPARATOR
    requires s[pos] == SEPARATOR && forall m :: pos < m < |s| ==> s[m] != SEPARATOR
    ensures |t| == |s| && t[pos] == SEPARATOR && forall m :: pos < m < |t| ==> t[m] != SEPARATOR
    ensures SameBut(s[..pos], t[..pos], i, i, i)
    ensures SameBut(s[pos + 1..], t[pos + 1..], j - pos - 1, j - pos - 1, j - pos - 1)
  {
  }

  lemma WellFormedParts(s: Text)
    ensures WellFormed(s) ==> |s| <= 90 && 1 <= LastSeparator(s) <= |s| - 7 && AllSymbols(s[LastSeparator(s) + 1..])
  {
    hide LastSeparator, AllSymbols;
  }

  lemma SymbolsUpdate(s: Text, j: nat, c: bv8)
    requires j < |s| && AllSymbols(s) && AllSymbols(s[j := c])
    ensures SymbolOf(c).Some? && SymbolOf(s[j]).Some? && Symbols(s)[j] == SymbolOf(s[j]).value
    ensures Symbols(s[j := c]) == Symbols(s)[j := SymbolOf(c).value]
  {
    hide SymbolOf;
    assert s[j := c][j] == c;
  }

  lemma OtherSymbol(b: bv8, c: bv8)
    requires SymbolOf(b).Some? && SymbolOf(c).Some? && LowerCase(b) != LowerCase(c)
    ensures SymbolOf(b).value != SymbolOf(c).value
  {
    hide SymbolOf, CharOf, LowerCase;
    SymbolRoundTrip(b);
    SymbolRoundTrip(c);
  }

  // ---------------------------------------------------------------- the methods

  lemma AddFive(x: bv32, a: bv32, b: bv32, c: bv32, d: bv32, e: bv32)
    ensures Add(Add(Add(Add(Add(x, a), b), c), d), e) == Add(x, Add(Add(Add(Add(a, b), c), d), e))
  {
    hide Add;
    AddAssociative(x, a, b);
    AddAssociative(x, Add(a, b), c);
    AddAssociative(x, Add(Add(a, b), c), d);
    AddAssociative(x, Add(Add(Add(a, b), c), d), e);
  }

  /** Adds what one bit leaves behind, if it is set. */
  method AddIf(c: bv32, c0: bv32, bit: bv32, x: Residue) returns (r: bv32)
    ensures r == Add(c, Pick(c0, bit, x))
  {
    AddLaws(c, 0);
    r := if c0 & bit != 0 then c ^ x else c;
  }

  /** One turn of the loop: the symbol moves in, and each bit that is shifted out is reduced. */
  method StepInPlace(before: Residue, v: Sym) returns (c: bv32)
    ensures c == Step(before, v)
  {
    hide Add, Pick;
    var c0 := before >> 25;
    assert c0 == Top(before);
    c := Shift(before, v);
    AddFive(c, Pick(c0, 1, 0x3b6a_57b2), Pick(c0, 2, 0x2650_8e6d), Pick(c0, 4, 0x1ea1_19fa), Pick(c0, 8, 0x3d42_33dd),
            Pick(c0, 16, 0x2a14_62b3));
    c := AddIf(c, c0, 1, 0x3b6a_57b2);
    c := AddIf(c, c0, 2, 0x2650_8e6d);
    c := AddIf(c, c0, 4, 0x1ea1_19fa);
    c := AddIf(c, c0, 8, 0x3d42_33dd);
    c := AddIf(c, c0, 16, 0x2a14_62b3);
  }

  method Shift(c: Residue, v: Sym) returns (r: bv32)
    ensures r == Add(Rest(c), v)
  {
    r := ((c & 0x1ff_ffff) << 5) ^ v;
  }

  method ComputePolyMod(v: seq<Sym>) returns (c: bv32)
    ensures c == PolyMod(v)
  {
    hide Step;
    c := 1;
    for i := 0 to |v|
      invariant c < 0x4000_0000 && c == Run(1, v[..i])
    {
      c := StepInPlace(c, v[i]);
      assert v[..i + 1][..i] == v[..i];
    }
    assert v[..|v|] == v;
  }

  method ComputeExpandedHRP(hrp: Text) returns (v: seq<Sym>)
    ensures v == ExpandHRP(hrp)
  {
    var ret := new bv32[2 * |hrp| + 1](_ => 0);
    for i := 0 to |hrp|
      invariant forall k :: 0 <= k < i ==> ret[k] == HighBits(hrp[k]) && ret[k + |hrp| + 1] == LowBits(hrp[k])
      invariant forall k :: i <= k <= |hrp| ==> ret[k] == 0
      invariant forall k :: 0 <= k < ret.Length ==> ret[k] < 32
    {
      ret[i] := HighBits(hrp[i]);
      ret[i + |hrp| + 1] := LowBits(hrp[i]);
    }
    v := ret[..];
    assert v == ExpandHRP(hrp);
  }

  method ComputeChecksum(encoding: Encoding, hrp: Text, values: seq<Sym>) returns (sum: seq<Sym>)
    requires encoding != INVALID
    ensures sum == CreateChecksum(encoding, hrp, values)
  {
    hide Run, Add, ExpandHRP, EncodingConstant;
    var expanded := ComputeExpandedHRP(hrp);
    var remainder := ComputePolyMod(expanded + values + Zeros(6));
    var mod := Add(remainder, EncodingConstant(encoding));
    sum := [];
    for i := 0 to 6
      invariant sum == Groups(mod)[..i]
    {
      sum := sum + [Group(mod, i)];
    }
  }

  method EncodeText(encoding: Encoding, hrp: Text, values: seq<Sym>) returns (s: Text)
    requires encoding != INVALID && NoUpper(hrp)
    ensures s == Encode(encoding, hrp, values)
  {
    hide CreateChecksum, CharOf;
    var checksum := ComputeChecksum(encoding, hrp, values);
    var combined := values + checksum;
    s := hrp + [SEPARATOR];
    for i := 0 to |combined|
      invariant s == hrp + [SEPARATOR] + Chars(combined)[..i]
    {
      s := s + [CharOf(combined[i])];
    }
  }

  method RFindSeparator(s: Text) returns (pos: int)
    ensures pos == LastSeparator(s)
  {
    pos := |s| - 1;
    while pos >= 0 && s[pos] != SEPARATOR
      invariant -1 <= pos < |s| && LastSeparator(s) == LastSeparator(s[..pos + 1])
    {
      assert s[..pos + 1][..pos] == s[..pos];
      pos := pos - 1;
    }
    if pos >= 0 { assert s[..pos + 1][pos] == SEPARATOR; }
  }

  /** Whether there are lower-case and upper-case letters, and whether all other characters are printable. */
  method ScanCase(s: Text) returns (ok: bool, lower: bool, upper: bool)
    ensures ok == AllPrintable(s)
    ensures ok ==> lower == HasLower(s) && upper == HasUpper(s)
  {
    lower, upper := false, false;
    for i := 0 to |s|
      invariant forall k :: 0 <= k < i ==> IsPrintable(s[k])
      invariant lower == exists k :: 0 <= k < i && IsLower(s[k])
      invariant upper == exists k :: 0 <= k < i && IsUpper(s[k])
    {
      var c := s[i];
      if c >= 0x61 && c <= 0x7a {
        lower := true;
      } else if c >= 0x41 && c <= 0x5a {
        upper := true;
      } else if c < 33 || c > 126 {
        return false, lower, upper;
      }
    }
    return true, lower, upper;
  }

  method DecodeText(s: Text) returns (r: DecodeResult)
    ensures r == Decode(s)
  {
    hide SymbolOf, LowerCase, VerifyChecksum, LastSeparator, HasLower, HasUpper, AllPrintable;
    var ok, lower, upper := ScanCase(s);
    if !ok || (lower && upper) {
      return FAILED;
    }
    var pos := RFindSeparator(s);
    if |s| > 90 || pos == -1 || pos == 0 || pos + 7 > |s| {
      return FAILED;
    }
    ghost var tail := s[pos + 1..];
    var values: seq<Sym> := [];
    for i := 0 to |s| - 1 - pos
      invariant AllSymbols(tail[..i]) && values == Symbols(tail[..i])
    {
      assert tail[i] == s[i + pos + 1];
      var rev := SymbolOf(s[i + pos + 1]);
      if rev.None? {
        return FAILED;
      }
      AllSymbolsSnoc(tail, i);
      values := values + [rev.value];
    }
    assert tail[..|tail|] == tail;
    var hrp: Text := [];
    for i := 0 to pos
      invariant hrp == Lowered(s[..pos])[..i]
    {
      hrp := hrp + [LowerCase(s[i])];
    }
    assert hrp == Lowered(s[..pos]);
    var expanded := ComputeExpandedHRP(hrp);
    var check := ComputePolyMod(expanded + values);
    var encoding := EncodingOf(check, hrp, values);
    if encoding == INVALID {
      return FAILED;
    }
    return DecodeResult(encoding, hrp, values[..|values| - 6]);
  }

  method EncodingOf(check: bv32, ghost hrp: Text, ghost values: seq<Sym>) returns (e: Encoding)
    requires check == PolyMod(ExpandHRP(hrp) + values)
    ensures e == VerifyChecksum(hrp, values)
  {
    if check == EncodingConstant(BECH32) { return BECH32; }
    if check == EncodingConstant(BECH32M) { return BECH32M; }
    return INVALID;
  }

  lemma AllSymbolsSnoc(s: Text, i: nat)
    requires i < |s| && AllSymbols(s[..i]) && SymbolOf(s[i]).Some?
    ensures AllSymbols(s[..i + 1]) && Symbols(s[..i + 1]) == Symbols(s[..i]) + [SymbolOf(s[i]).value]
  {
    hide SymbolOf;
    forall k | 0 <= k < i ensures SymbolOf(s[k]).Some? && s[..i + 1][k] == s[..i][k] { assert s[..i][k] == s[k]; }
  }
}
