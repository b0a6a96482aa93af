/** Which texts base 58 accepts, white space around them, the symbols, and texts with a check at the end. */
module Base58Texts {
  import opened Basics
  import opened Radix
  import opened Base58

  // ---------------------------------------------------------------- the symbols

  predicate IsDigitOrLetter(c: char) { '0' <= c <= '9' || 'A' <= c <= 'Z' || 'a' <= c <= 'z' }

  /** The symbols are the digits and letters but for the four that look alike, and they are in ascending
      order: this leaves one choice only. */
  lemma SymbolsAre(c: char, d: nat, e: nat)
    requires d < e < 58
    ensures Digit(c) >= 0 <==> IsDigitOrLetter(c) && c != '0' && c != 'I' && c != 'O' && c != 'l'
    ensures Symbol(d) < Symbol(e)
    ensures Digit(Symbol(d)) == d && (Digit(c) >= 0 ==> Symbol(Digit(c)) == c)
  {
    SymbolDigit(d);
  }

  // ---------------------------------------------------------------- white space

  /** White space is the space and the five control characters from tabulator to carriage return. */
  lemma SpacesAre(c: char)
    ensures IsSpace(c) <==> c as int == 32 || 9 <= c as int <= 13
  {
  }

  lemma TokenIs(s: string, a: nat, b: nat)
    requires a <= b <= |s|
    requires (forall i :: 0 <= i < a ==> IsSpace(s[i])) && (forall i :: a <= i < b ==> !IsSpace(s[i]))
    requires (b < |s| ==> IsSpace(s[b])) && (a < |s| ==> a < b)
    ensures Token(s) == s[a..b] && AfterToken(s) == s[b..]
  {
    hide IsSpace;
    LeadingOf(s, IsSpace, a);
    var t := s[a..];
    forall i | 0 <= i < b - a ensures IsNotSpace(t[i]) { assert t[i] == s[a + i]; }
    if b < |s| { assert t[b - a] == s[b]; }
    LeadingOf(t, IsNotSpace, b - a);
  }

  lemma SpacesOnly(s: string)
    requires AllSpaces(s)
    ensures Token(s) == "" && AfterToken(s) == ""
  {
    TokenIs(s, |s|, |s|);
  }

  lemma PaddedAt(lead: string, s: string, trail: string, a: nat, b: nat)
    requires a < b <= |s|
    ensures var w, n := lead + s + trail, |lead|; w[n + a..n + b] == s[a..b] && w[n + b..] == s[b..] + trail
  {
  }

  lemma TokenInside(lead: string, s: string, trail: string, a: nat, b: nat)
    requires AllSpaces(lead) && AllSpaces(trail) && a < b <= |s|
    requires (forall i :: 0 <= i < a ==> IsSpace(s[i])) && (forall i :: a <= i < b ==> !IsSpace(s[i]))
    requires b < |s| ==> IsSpace(s[b])
    ensures var w := lead + s + trail; Token(w) == s[a..b] && AfterToken(w) == s[b..] + trail
  {
    hide IsSpace, Token, AfterToken;
    var w, n := lead + s + trail, |lead|;
    forall i | 0 <= i < n + a ensures IsSpace(w[i]) { assert w[i] == if i < n then lead[i] else s[i - n]; }
    forall i | n + a <= i < n + b ensures !IsSpace(w[i]) { assert w[i] == s[i - n]; }
    if n + b < |w| { assert w[n + b] == if b < |s| then s[b] else trail[0]; }
    TokenIs(w, n + a, n + b);
    PaddedAt(lead, s, trail, a, b);
  }

  lemma AllSpacesConcat(s: string, t: string)
    requires AllSpaces(t)
    ensures AllSpaces(s + t) <==> AllSpaces(s)
  {
    hide IsSpace;
    if AllSpaces(s + t) {
      forall i | 0 <= i < |s| ensures IsSpace(s[i]) { assert (s + t)[i] == s[i]; }
    }
  }

  /** White space before and after a text leaves its token, and puts nothing but white space after it. */
  lemma PaddedToken(lead: string, s: string, trail: string)
    requires AllSpaces(lead) && AllSpaces(trail)
    ensures Token(lead + s + trail) == Token(s)
    ensures AllSpaces(AfterToken(lead + s + trail)) <==> AllSpaces(AfterToken(s))
  {
    TokenBounds(s);
    var a, b := TokenStart(s), TokenEnd(s);
    hide TokenStart, TokenEnd, Token, AfterToken, IsSpace;
    if a < |s| {
      TokenInside(lead, s, trail, a, b);
      AllSpacesConcat(s[b..], trail);
    } else {
      AllSpacesConcat(lead, s);
      AllSpacesConcat(lead + s, trail);
      SpacesOnly(s);
      SpacesOnly(lead + s + trail);
    }
  }

  /** White space around a text does not change the answer. */
  lemma PaddedDecode(lead: string, s: string, trail: string, max: int)
    requires AllSpaces(lead) && AllSpaces(trail)
    ensures Decode(lead + s + trail, max) == Decode(s, max)
  {
    PaddedToken(lead, s, trail);
    SpaceIsNotNull();
    hide Token, AfterToken, IsSpace, Payload, Ones, Bytes, Digits58, ValueOf, DigitsOf;
    assert '\0' in lead + s + trail <==> '\0' in s;
  }

  lemma SpaceIsNotNull()
    ensures !IsSpace('\0')
  {
  }

  // ---------------------------------------------------------------- what is accepted

  /** What was encoded is decoded if its bytes are no more than allowed, and refused otherwise; an empty text
      stands for no bytes whatever the limit. */
  lemma DecodeOfEncoded(b: seq<Byte>, max: int)
    ensures Decode(Encode(b), max) == if b == [] || |b| <= max then Some(b) else None
  {
    hide Acceptable, Encode, Decode, Token;
    DecodeOfEncode(b, |b|);
    LimitOnly(Encode(b), |b|, max);
    if b == [] {
      EmptyText();
      SpacesOnly("");
    } else if Token(Encode(b)) == "" {
      EmptyToken(Encode(b), |b|);
    }
  }

  lemma EmptyToken(s: string, max: int)
    requires Decode(s, max).Some? && Token(s) == ""
    ensures Decode(s, max).value == []
  {
    DecodedLength(s, max);
    ZeroHasNoDigits();
    hide AfterToken;
  }

  lemma EmptyText()
    ensures Encode([]) == ""
  {
    ZeroHasNoDigits();
  }

  lemma ZeroHasNoDigits()
    ensures ValueOf([], 256) == ValueOf([], 58) == 0 && DigitsOf(0, 58) == DigitsOf(0, 256) == []
  {
  }

  lemma DecodedLength(s: string, max: int)
    requires Decode(s, max).Some?
    ensures |Decode(s, max).value| == Ones(Token(s)) + |Payload(Token(s))|
  {
    hide Token, AfterToken, Payload, Ones, ValueOf, DigitsOf, Digits58;
  }

  /** With another limit the answer is the same or there is none. */
  lemma LimitOnly(s: string, max: int, other: int)
    requires Decode(s, max).Some?
    ensures Decode(s, other) == if Token(s) == "" || |Decode(s, max).value| <= other then Decode(s, max) else None
  {
    DecodedLength(s, max);
    hide Token, AfterToken, Payload, Ones, ValueOf, DigitsOf, Digits58, Bytes;
  }

  /** Exactly these texts decode to given bytes: the encoded ones with white space around them, if the bytes
      are no more than allowed.  So a text that means something has one meaning, and bytes have one text. */
  lemma Accepts(s: string, b: seq<Byte>, max: int)
    ensures Decode(s, max) == Some(b)
      <==> (b == [] || |b| <= max)
           && exists lead, trail :: AllSpaces(lead) && AllSpaces(trail) && s == lead + Encode(b) + trail
  {
    hide Token, AfterToken, Encode, IsSpace, Payload, Ones, Bytes, Digits58, ValueOf, DigitsOf, Decode;
    if Decode(s, max) == Some(b) {
      EncodeOfDecode(s, max);
      DecodedWithin(s, max);
      var lead, trail := AroundToken(s, max);
    }
    if (b == [] || |b| <= max)
      && exists lead, trail :: AllSpaces(lead) && AllSpaces(trail) && s == lead + Encode(b) + trail {
      var lead, trail :| AllSpaces(lead) && AllSpaces(trail) && s == lead + Encode(b) + trail;
      PaddedDecode(lead, Encode(b), trail, max);
      DecodeOfEncoded(b, max);
    }
  }

  lemma DecodedWithin(s: string, max: int)
    requires Decode(s, max).Some?
    ensures Decode(s, max).value == [] || |Decode(s, max).value| <= max
  {
    DecodedLength(s, max);
    if Token(s) == "" { EmptyToken(s, max); }
    hide Token, AfterToken, Payload, Ones, ValueOf, DigitsOf, Digits58, Bytes;
  }

  lemma AroundToken(s: string, max: int) returns (lead: string, trail: string)
    requires Decode(s, max).Some?
    ensures AllSpaces(lead) && AllSpaces(trail) && s == lead + Token(s) + trail
  {
    TokenBounds(s);
    var a, b := TokenStart(s), TokenEnd(s);
    hide TokenStart, TokenEnd, Token, IsSpace, Payload, Ones, Bytes, Digits58, ValueOf, DigitsOf;
    lead, trail := s[..a], s[b..];
    assert s == s[..a] + s[a..b] + s[b..];
  }

  // ---------------------------------------------------------------- with a check at the end

  const INT_MAX := 0x7fff_ffff

  /** The first four bytes of a hash. */
  type Check = c: seq<Byte> | |c| == 4 witness [0, 0, 0, 0]

  function EncodeCheck(hash: seq<Byte> -> Check, b: seq<Byte>): string { Encode(b + hash(b)) }

  /** The limit of the text itself, which is four bytes more but stays in the range of its type. */
  function CheckedLimit(max: int): int { if max > INT_MAX - 4 then INT_MAX else max + 4 }

  function DecodeCheck(hash: seq<Byte> -> Check, s: string, max: int): Option<seq<Byte>> {
    match Decode(s, CheckedLimit(max))
    case None => None
    case Some(v) =>
      if |v| < 4 then None
      else
        var b := v[..|v| - 4];
        if hash(b) == v[|v| - 4..] then Some(b) else None
  }

  /** Exactly these texts decode to given bytes: the encoded ones with white space around them, if the bytes
      and their check are no more than allowed. */
  lemma ChecksAccepts(hash: seq<Byte> -> Check, s: string, b: seq<Byte>, max: int)
    ensures DecodeCheck(hash, s, max) == Some(b)
      <==> |b| <= max && |b| + 4 <= INT_MAX
           && exists lead, trail :: AllSpaces(lead) && AllSpaces(trail) && s == lead + EncodeCheck(hash, b) + trail
  {
    hide Decode, Encode, IsSpace;
    var v := b + hash(b);
    assert v[..|v| - 4] == b && v[|v| - 4..] == hash(b);
    Accepts(s, v, CheckedLimit(max));
    if DecodeCheck(hash, s, max) == Some(b) {
      var w := Decode(s, CheckedLimit(max)).value;
      assert w == w[..|w| - 4] + w[|w| - 4..] == v;
    }
  }

  method EncodeBase58Check(hash: seq<Byte> -> Check, input: seq<Byte>) returns (s: string)
    ensures s == EncodeCheck(hash, input)
  {
    s := EncodeBase58(input + hash(input));
  }

  method DecodeBase58Check(hash: seq<Byte> -> Check, s: string, max: int) returns (r: Option<seq<Byte>>)
    ensures r == DecodeCheck(hash, s, max)
  {
    hide Decode;
    var v := DecodeBase58(s, if max > INT_MAX - 4 then INT_MAX else max + 4);
    if v.None? || |v.value| < 4 {
      return None;
    }
    var n := |v.value| - 4;
    if hash(v.value[..n]) != v.value[n..] {
      return None;
    }
    r := Some(v.value[..n]);
  }
}
