/** Base 58: bytes to text and back, over the digit buffers that the code sizes in advance. */
module Base58 {
  import opened Basics
  import opened Radix

  /** The digit of a symbol; -1 for any other character. */
  function Digit(c: char): (d: int)
    ensures -1 <= d < 58
  {
    if '1' <= c <= '9' then c as int - '1' as int
    else if 'A' <= c <= 'H' then c as int - 'A' as int + 9
    else if 'J' <= c <= 'N' then c as int - 'J' as int + 17
    else if 'P' <= c <= 'Z' then c as int - 'P' as int + 22
    else if 'a' <= c <= 'k' then c as int - 'a' as int + 33
    else if 'm' <= c <= 'z' then c as int - 'm' as int + 44
    else -1
  }

  /** The symbols in order: the digits and letters without "0", "I", "O" and "l". */
  function Symbol(d: nat): char
    requires d < 58
  {
    if d < 9 then (d + '1' as int) as char
    else if d < 17 then (d - 9 + 'A' as int) as char
    else if d < 22 then (d - 17 + 'J' as int) as char
    else if d < 33 then (d - 22 + 'P' as int) as char
    else if d < 44 then (d - 33 + 'a' as int) as char
    else (d - 44 + 'm' as int) as char
  }

  lemma SymbolDigit(d: nat)
    requires d < 58
    ensures Digit(Symbol(d)) == d
  {
  }

  lemma DigitSymbol(c: char)
    requires Digit(c) >= 0
    ensures Digit(c) < 58 && Symbol(Digit(c)) == c
  {
  }

  lemma BigPowers()
    ensures Pow(58, 71) <= Pow(256, 52) && Pow(256, 8) <= Pow(58, 11)
  {
    assert Pow(58, 1) == 58 && Pow(256, 1) == 256;
    PowAdd(58, 1, 1);
    assert Pow(58, 2) == 0xd24;
    PowAdd(58, 2, 2);
    assert Pow(58, 4) == 0xacad10;
    PowAdd(58, 4, 4);
    assert Pow(58, 8) == 0x7479027ea100;
    PowAdd(58, 8, 8);
    assert Pow(58, 16) == 0x34fde3761da26b26e1410000;
    PowAdd(58, 16, 16);
    assert Pow(58, 32) == 0xaf820335d9b3d9cf58b911d87035677fb7f528100000000;
    PowAdd(58, 32, 32);
    assert Pow(58, 64) == 0x7853026ae25f4ce0c69893e6f1f86f67aef4db69563516064adeb967a9d66f4fe64b09ec94e5010000000000000000;
    PowAdd(58, 64, 4);
    assert Pow(58, 68) == 0x51291d3da279b033ee22c4e4a6e2dedc799439d259d1820f6deea1c2dcc053504eae09c5598944bbfd100000000000000000;
    PowAdd(58, 68, 2);
    assert Pow(58, 70) == 0x42a80443deb070f6a6540e34ca0fd38892d9fc7d024451112c093c5a49ccf46cb49e6f8654c8fcb364966400000000000000000;
    PowAdd(58, 70, 1);
    assert Pow(58, 71) == 0xf1a10f76073f997e1af0b37f5c795ecf145633452837a5de3fa17ac74b86f60a0ebe5446f358940a4ca12a800000000000000000;
    PowAdd(58, 8, 2);
    assert Pow(58, 10) == 0x5fa8624c7fba400;
    PowAdd(58, 10, 1);
    assert Pow(58, 11) == 0x15ac264554f032800;
    PowAdd(256, 1, 1);
    assert Pow(256, 2) == 0x10000;
    PowAdd(256, 2, 2);
    assert Pow(256, 4) == 0x100000000;
    PowAdd(256, 4, 4);
    assert Pow(256, 8) == 0x10000000000000000;
    PowAdd(256, 8, 8);
    assert Pow(256, 16) == 0x100000000000000000000000000000000;
    PowAdd(256, 16, 16);
    assert Pow(256, 32) == 0x10000000000000000000000000000000000000000000000000000000000000000;
    PowAdd(256, 32, 16);
    assert Pow(256, 48) == 0x1000000000000000000000000000000000000000000000000000000000000000000000000000000000000000000000000;
    PowAdd(256, 48, 4);
    assert Pow(256, 52) == 0x100000000000000000000000000000000000000000000000000000000000000000000000000000000000000000000000000000000;
  }

  // ---------------------------------------------------------------- what the functions compute

  type Byte = x: int | 0 <= x < 256

  /** How many of the first items satisfy a condition before one does not. */
  function Leading<T>(s: seq<T>, p: T -> bool): (n: nat)
    ensures n <= |s| && (forall i :: 0 <= i < n ==> p(s[i])) && (n < |s| ==> !p(s[n]))
  {
    if s == [] || !p(s[0]) then 0 else 1 + Leading(s[1..], p)
  }

  predicate IsZero(x: Byte) { x == 0 }

  predicate IsOne(c: char) { c == '1' }

  predicate IsSpace(c: char) { c in " \U{0C}\n\r\t\U{0B}" }

  predicate IsNotSpace(c: char) { !IsSpace(c) }

  predicate AllSpaces(s: string) { forall i :: 0 <= i < |s| ==> IsSpace(s[i]) }

  predicate AllSymbols(s: string) { forall i :: 0 <= i < |s| ==> Digit(s[i]) >= 0 }

  function Zeroes(b: seq<Byte>): (n: nat)
    ensures n <= |b|
  {
    Leading(b, IsZero)
  }

  function Ones(s: string): (n: nat)
    ensures n <= |s|
  {
    Leading(s, IsOne)
  }

  /** The text between leading white space and the next white space, and what follows it. */
  function Token(s: string): string {
    var t := s[Leading(s, IsSpace)..];
    t[..Leading(t, IsNotSpace)]
  }

  function AfterToken(s: string): string {
    s[Leading(s, IsSpace)..][|Token(s)|..]
  }

  function Digits58(s: string): seq<nat>
    requires AllSymbols(s)
  {
    seq(|s|, i requires 0 <= i < |s| => Digit(s[i]) as nat)
  }

  function Symbols(d: seq<nat>): string
    requires AreDigits(d, 58)
  {
    seq(|d|, i requires 0 <= i < |d| => Symbol(d[i]))
  }

  /** One "1" for each leading zero byte, then the remaining bytes as a number in base 58. */
  function Encode(b: seq<Byte>): string {
    DigitsHaveValue(ValueOf(b[Zeroes(b)..], 256), 58);
    seq(Zeroes(b), _ => '1') + Symbols(DigitsOf(ValueOf(b[Zeroes(b)..], 256), 58))
  }

  /** The digits without the leading "1"s, as a number in base 256. */
  function Payload(token: string): seq<nat>
    requires AllSymbols(token)
  {
    DigitsOf(ValueOf(Digits58(token[Ones(token)..]), 58), 256)
  }

  function Bytes(d: seq<nat>): seq<Byte>
    requires AreDigits(d, 256)
  {
    seq(|d|, i requires 0 <= i < |d| => d[i] as Byte)
  }

  /** The text is one run of symbols, with white space around it at most, that stands for no more bytes
      than allowed.  An empty run stands for no bytes whatever the limit. */
  predicate Acceptable(s: string, max: int) {
    && AllSymbols(Token(s)) && AllSpaces(AfterToken(s))
    && (Token(s) != "" ==> Ones(Token(s)) + |Payload(Token(s))| <= max)
  }

  function Decode(s: string, max: int): Option<seq<Byte>> {
    if '\0' in s || !Acceptable(s, max) then None
    else
      DigitsHaveValue(ValueOf(Digits58(Token(s)[Ones(Token(s))..]), 58), 256);
      Some(seq(Ones(Token(s)), _ => 0 as Byte) + Bytes(Payload(Token(s))))
  }

  // ---------------------------------------------------------------- round trips

  lemma LeadingOf<T>(s: seq<T>, p: T -> bool, n: nat)
    requires n <= |s| && (forall i :: 0 <= i < n ==> p(s[i])) && (n < |s| ==> !p(s[n]))
    ensures Leading(s, p) == n
  {
  }

  /** Text that is one run of symbols is its own token. */
  lemma TokenOfSymbols(s: string)
    requires AllSymbols(s)
    ensures Token(s) == s && AfterToken(s) == "" && '\0' !in s
  {
    LeadingOf(s, IsSpace, 0);
    assert s[0..] == s;
    LeadingOf(s, IsNotSpace, |s|);
  }

  /** Symbols of digits that do not start with zero do not start with a "1". */
  lemma SymbolsShape(n: nat, d: seq<nat>)
    requires AreDigits(d, 58) && (d != [] ==> d[0] != 0)
    ensures var s := seq(n, _ => '1') + Symbols(d);
      AllSymbols(s) && Ones(s) == n && Digits58(s[n..]) == d
  {
    var s := seq(n, _ => '1') + Symbols(d);
    forall i | 0 <= i < |s| ensures Digit(s[i]) >= 0 {
      if i >= n { SymbolDigit(d[i - n]); }
    }
    if d != [] { SymbolDigit(d[0]); }
    LeadingOf(s, IsOne, n);
    assert s[n..] == Symbols(d);
    forall i | 0 <= i < |d| ensures Digits58(s[n..])[i] == d[i] { SymbolDigit(d[i]); }
  }

  lemma ZeroesSplit(b: seq<Byte>)
    ensures var n := Zeroes(b); var rest: seq<nat> := b[n..];
      && b == seq(n, _ => 0 as Byte) + b[n..] && AreDigits(rest, 256) && (rest != [] ==> rest[0] != 0)
      && Bytes(rest) == b[n..]
  {
  }

  lemma OnesSplit(t: string)
    ensures t == seq(Ones(t), _ => '1') + t[Ones(t)..]
  {
  }

  /** Decoding what was encoded gives the bytes back, if they are no more than allowed. */
  lemma DecodeOfEncode(b: seq<Byte>, max: int)
    requires |b| <= max
    ensures Decode(Encode(b), max) == Some(b)
  {
    hide ValueOf, DigitsOf, Zeroes, Ones, Token, AfterToken, Digits58, Symbols, Bytes, Digit;
    var n := Zeroes(b);
    var rest: seq<nat> := b[n..];
    var v := ValueOf(rest, 256);
    ZeroesSplit(b);
    DigitsHaveValue(v, 58);
    SymbolsShape(n, DigitsOf(v, 58));
    TokenOfSymbols(Encode(b));
    DigitsOfValue(rest, 256);
    assert Payload(Encode(b)) == rest;
  }

  /** Encoding what was decoded gives the text back without the white space around it. */
  lemma EncodeOfDecode(s: string, max: int)
    requires Decode(s, max).Some?
    ensures Encode(Decode(s, max).value) == Token(s)
  {
    hide ValueOf, DigitsOf, Zeroes, Ones, Token, AfterToken, Digits58, Symbols, Bytes, Digit;
    var t := Token(s);
    var n := Ones(t);
    var d := Digits58(t[n..]);
    var v := ValueOf(d, 58);
    DigitsHaveValue(v, 256);
    BytesShape(n, DigitsOf(v, 256));
    DigitsAre58(t, n);
    DigitsOfValue(d, 58);
    OnesSplit(t);
    SymbolsOfDigits(t[n..]);
  }

  lemma BytesShape(n: nat, d: seq<nat>)
    requires AreDigits(d, 256) && (d != [] ==> d[0] != 0)
    ensures var b := seq(n, _ => 0 as Byte) + Bytes(d); Zeroes(b) == n && b[n..] == d
  {
    var b: seq<Byte> := seq(n, _ => 0 as Byte) + Bytes(d);
    LeadingOf(b, IsZero, n);
    assert b[n..] == Bytes(d);
  }

  lemma SymbolsOfDigits(t: string)
    requires AllSymbols(t)
    ensures AreDigits(Digits58(t), 58) && Symbols(Digits58(t)) == t
  {
    forall i | 0 <= i < |t| ensures Digit(t[i]) < 58 && Symbol(Digit(t[i])) == t[i] {
      DigitSymbol(t[i]);
    }
  }

  lemma DigitsAre58(t: string, n: nat)
    requires AllSymbols(t) && n == Ones(t)
    ensures var d := Digits58(t[n..]); AreDigits(d, 58) && (d != [] ==> d[0] != 0)
  {
    forall i | n <= i < |t| ensures Digit(t[i]) < 58 && (i == n ==> Digit(t[i]) != 0) {
      DigitSymbol(t[i]);
    }
  }

  // ---------------------------------------------------------------- buffer sizes

  /** 138 hundredths of the bytes, and one, are enough digits. */
  lemma EncodeBufferSuffices(n: nat)
    ensures Pow(256, n) < Pow(58, n * 138 / 100 + 1)
  {
    BigPowers();
    PowersCompare(256, 8, 58, 11, n, n * 138 / 100 + 1);
  }

  /** 733 thousandths of the symbols, and one, are enough bytes. */
  lemma DecodeBufferSuffices(n: nat)
    ensures Pow(58, n) < Pow(256, n * 733 / 1000 + 1)
  {
    BigPowers();
    PowersCompare(58, 71, 256, 52, n, n * 733 / 1000 + 1);
  }

  // ---------------------------------------------------------------- the methods

  /** The filled cells of a buffer are the digits of its value. */
  lemma FilledDigits(s: seq<nat>, length: nat, base: nat)
    requires base >= 2 && Fills(s, length, base)
    ensures length <= |s| && s[|s| - length..] == DigitsOf(ValueOf(s, base), base)
    ensures AreDigits(s[|s| - length..], base) && (length > 0 ==> s[|s| - length] != 0)
  {
    var n := |s| - length;
    assert s == s[..n] + s[n..];
    ValueSkipsZeros(s[..n], s[n..], base);
    DigitsOfValue(s[n..], base);
  }

  lemma FillsLength(s: seq<nat>, length: nat, base: nat)
    requires Fills(s, length, base)
    ensures length <= |s|
  {
  }

  lemma EmptyBuffer(s: seq<nat>, base: nat)
    requires base >= 2 && forall i :: 0 <= i < |s| ==> s[i] == 0
    ensures Fills(s, 0, base) && ValueOf(s, base) == 0
  {
    ValueOfZeros(s, base);
  }

  /** One more byte of the input still fits. */
  lemma NextByteFits(bytes: seq<nat>, k: nat)
    requires AreDigits(bytes, 256) && k < |bytes|
    ensures ValueOf(bytes[..k + 1], 256) == 256 * ValueOf(bytes[..k], 256) + bytes[k] < Pow(58, |bytes| * 138 / 100 + 1)
  {
    assert bytes[..k + 1][..k] == bytes[..k];
    hide Pow;
    ValueBelow(bytes[..k + 1], 256);
    PowIncreasing(256, k + 1, |bytes|);
    EncodeBufferSuffices(|bytes|);
  }

  lemma BytesAreDigits(bytes: seq<Byte>)
    ensures AreDigits(bytes, 256)
  {
  }

  lemma OneSymbolMore(d: seq<nat>, k: nat)
    requires AreDigits(d, 58) && k < |d|
    ensures Symbols(d)[..k + 1] == Symbols(d)[..k] + [Symbol(d[k])]
  {
    hide Symbol;
  }

  /** The text for a filled buffer: a "1" for each leading zero byte of the input, then the digits. */
  method WriteSymbols(b58: array<nat>, length: nat, zeroes: nat) returns (str: string)
    requires Fills(b58[..], length, 58)
    ensures AreDigits(DigitsOf(ValueOf(b58[..], 58), 58), 58)
    ensures str == seq(zeroes, _ => '1') + Symbols(DigitsOf(ValueOf(b58[..], 58), 58))
  {
    hide Pow, ValueOf, DigitsOf, Fills, Symbol;
    FillsLength(b58[..], length, 58);
    var size := b58.Length;
    var it := size - length;
    while it < size && b58[it] == 0
      invariant size - length <= it <= size && forall k :: size - length <= k < it ==> b58[k] == 0
    {
      it := it + 1;
    }
    FilledDigits(b58[..], length, 58);
    str := seq(zeroes, _ => '1');
    ghost var digits := b58[size - length..];
    while it < size
      invariant size - length <= it <= size && b58[size - length..] == digits
      invariant str == seq(zeroes, _ => '1') + Symbols(digits)[..it - (size - length)]
    {
      assert digits[it - (size - length)] == b58[it];
      OneSymbolMore(digits, it - (size - length));
      str := str + [Symbol(b58[it])];
      it := it + 1;
    }
  }

  method EncodeBase58(input: seq<Byte>) returns (str: string)
    ensures str == Encode(input)
  {
    hide Pow, ValueOf, DigitsOf, Zeroes, Fills, Symbols, AreDigits;
    var zeroes := 0;
    while zeroes < |input| && input[zeroes] == 0
      invariant zeroes <= |input| && forall i :: 0 <= i < zeroes ==> IsZero(input[i])
    {
      zeroes := zeroes + 1;
    }
    CountZeroes(input, zeroes);
    ghost var bytes: seq<nat> := input[zeroes..];
    BytesAreDigits(input[zeroes..]);
    var size := (|input| - zeroes) * 138 / 100 + 1;
    var b58 := new nat[size](_ => 0);
    var length, p := 0, zeroes;
    EmptyBuffer(b58[..], 58);
    EmptyBuffer(bytes[..0], 256);
    while p < |input|
      invariant zeroes <= p <= |input| && Fills(b58[..], length, 58)
      invariant ValueOf(b58[..], 58) == ValueOf(bytes[..p - zeroes], 256)
    {
      NextByteFits(bytes, p - zeroes);
      length := MultiplyAdd(b58, 58, 256, input[p], length);
      p := p + 1;
    }
    assert bytes[..p - zeroes] == bytes;
    str := WriteSymbols(b58, length, zeroes);
  }

  lemma CountZeroes(b: seq<Byte>, n: nat)
    requires n <= |b| && (forall i :: 0 <= i < n ==> IsZero(b[i])) && (n < |b| ==> b[n] != 0)
    ensures Zeroes(b) == n
  {
    LeadingOf(b, IsZero, n);
  }

  function TokenStart(s: string): (n: nat)
    ensures n <= |s|
  {
    Leading(s, IsSpace)
  }

  function TokenEnd(s: string): (n: nat)
    ensures TokenStart(s) <= n <= |s|
  {
    TokenStart(s) + |Token(s)|
  }

  /** Where the token is. */
  lemma TokenBounds(s: string)
    ensures var a, b := TokenStart(s), TokenEnd(s);
      && Token(s) == s[a..b] && AfterToken(s) == s[b..]
      && (forall i :: 0 <= i < a ==> IsSpace(s[i])) && (forall i :: a <= i < b ==> !IsSpace(s[i]))
      && (b < |s| ==> IsSpace(s[b])) && (a < |s| ==> a < b)
  {
    var a, b := TokenStart(s), TokenEnd(s);
    var t := s[a..];
    assert t[..b - a] == s[a..b];
    assert t[b - a..] == s[b..];
    forall i | a <= i < b ensures !IsSpace(s[i]) { assert IsNotSpace(t[i - a]); }
    if b < |s| { assert !IsNotSpace(t[b - a]); }
  }

  method SkipSpaces(s: string, from: nat) returns (p: nat)
    requires from <= |s|
    ensures from <= p <= |s| && (forall i :: from <= i < p ==> IsSpace(s[i])) && (p < |s| ==> !IsSpace(s[p]))
  {
    p := from;
    while p < |s| && IsSpace(s[p])
      invariant from <= p <= |s| && forall i :: from <= i < p ==> IsSpace(s[i])
    {
      p := p + 1;
    }
  }

  /** The number of a token's leading "1"s is not more than the limit. */
  method SkipOnes(s: string, from: nat, max: int) returns (ok: bool, p: nat)
    requires from <= |s|
    ensures from <= p <= |s| && forall i :: from <= i < p ==> s[i] == '1'
    ensures ok ==> (p < |s| ==> s[p] != '1') && (p > from ==> p - from <= max)
    ensures !ok ==> p > from && p - from > max
  {
    p := from;
    while p < |s| && s[p] == '1'
      invariant from <= p <= |s| && (forall i :: from <= i < p ==> s[i] == '1') && (p > from ==> p - from <= max)
    {
      p := p + 1;
      if p - from > max {
        return false, p;
      }
    }
    return true, p;
  }

  lemma StartIs(s: string, a: nat)
    requires a <= |s| && (forall i :: 0 <= i < a ==> IsSpace(s[i])) && (a < |s| ==> !IsSpace(s[a]))
    ensures TokenStart(s) == a
  {
    LeadingOf(s, IsSpace, a);
  }

  /** The "1"s that were skipped are leading symbols of the token. */
  lemma OnesInToken(s: string, p: nat)
    requires TokenStart(s) <= p <= |s| && forall i :: TokenStart(s) <= i < p ==> s[i] == '1'
    ensures p <= TokenEnd(s) && Ones(Token(s)) >= p - TokenStart(s)
    ensures (p < |s| ==> s[p] != '1') ==> Ones(Token(s)) == p - TokenStart(s)
  {
    TokenBounds(s);
    hide TokenStart, TokenEnd;
    var a, b, t := TokenStart(s), TokenEnd(s), Token(s);
    forall i | a <= i < p ensures !IsSpace(s[i]) { assert s[i] == '1'; }
    forall i | 0 <= i < p - a ensures IsOne(t[i]) { assert t[i] == s[a + i]; }
    LeadingAtLeast(t, IsOne, p - a);
    if p < |s| && s[p] != '1' {
      LeadingOf(t, IsOne, p - a);
    }
  }

  lemma LeadingAtLeast<T>(s: seq<T>, p: T -> bool, n: nat)
    requires n <= |s| && forall i :: 0 <= i < n ==> p(s[i])
    ensures Leading(s, p) >= n
  {
  }

  lemma DigitsSnoc(t: string, z: nat, k: nat)
    requires z <= k < |t| && AllSymbols(t[..k + 1])
    ensures AllSymbols(t[z..k]) && AllSymbols(t[z..k + 1])
    ensures Digits58(t[z..k + 1]) == Digits58(t[z..k]) + [Digit(t[k]) as nat]
  {
    forall i | z <= i <= k ensures Digit(t[i]) >= 0 { assert t[..k + 1][i] == t[i]; }
  }

  /** One more symbol still fits. */
  lemma NextSymbolFits(t: string, z: nat, k: nat, n: nat)
    requires z <= k < |t| && AllSymbols(t[..k + 1]) && k + 1 - z <= n
    ensures AllSymbols(t[z..k]) && AllSymbols(t[z..k + 1])
    ensures ValueOf(Digits58(t[z..k + 1]), 58) == 58 * ValueOf(Digits58(t[z..k]), 58) + Digit(t[k]) < Pow(256,
        n * 733 / 1000 + 1)
  {
    hide Pow;
    DigitsSnoc(t, z, k);
    var d := Digits58(t[z..k + 1]);
    assert d[..|d| - 1] == Digits58(t[z..k]);
    ValueBelow(d, 58);
    PowIncreasing(58, k + 1 - z, n);
    DecodeBufferSuffices(n);
  }

  lemma {:induction false} DigitCountMonotone(v: nat, w: nat, base: nat)
    requires base >= 2 && v <= w
    ensures |DigitsOf(v, base)| <= |DigitsOf(w, base)|
    decreases w
  {
    if v > 0 {
      QuotientLess(v, base);
      QuotientLess(w, base);
      DivMonotone(v, w, base);
      DigitCountMonotone(v / base, w / base, base);
    }
  }

  lemma DivMonotone(v: nat, w: nat, base: nat)
    requires base >= 2 && v <= w
    ensures v / base <= w / base
  {
    if v / base > w / base { MulLeq(w / base + 1, v / base, base); }
  }

  /** The first symbols alone take no more bytes than all of them. */
  lemma PrefixNoLonger(t: string, z: nat, k: nat)
    requires z <= k <= |t| && AllSymbols(t)
    ensures AllSymbols(t[z..k]) && AllSymbols(t[z..])
    ensures |DigitsOf(ValueOf(Digits58(t[z..k]), 58), 256)| <= |DigitsOf(ValueOf(Digits58(t[z..]), 58), 256)|
  {
    hide DigitsOf, ValueOf;
    var d, e := Digits58(t[z..k]), Digits58(t[k..]);
    assert Digits58(t[z..]) == d + e;
    ValueConcat(d, e, 58);
    PowPositive(58, |e|);
    MulLeq(1, Pow(58, |e|), ValueOf(d, 58));
    DigitCountMonotone(ValueOf(d, 58), ValueOf(d + e, 58), 256);
  }

  /** A prefix that takes too many bytes makes the text unacceptable. */
  lemma TooLong(s: string, k: nat, length: nat, buf: seq<nat>, max: int)
    requires Ones(Token(s)) <= k <= |Token(s)| && k > 0 && AllSymbols(Token(s)[Ones(Token(s))..k])
    requires ValueOf(buf, 256) == ValueOf(Digits58(Token(s)[Ones(Token(s))..k]), 58)
    requires Fills(buf, length, 256) && length + Ones(Token(s)) > max
    ensures !Acceptable(s, max)
  {
    hide DigitsOf, ValueOf, Digits58, Token, Ones;
    FilledDigits(buf, length, 256);
    if AllSymbols(Token(s)) {
      PrefixNoLonger(Token(s), Ones(Token(s)), k);
    }
  }

  lemma BadSymbol(s: string, k: nat, max: int)
    requires k < |Token(s)| && Digit(Token(s)[k]) < 0
    ensures !Acceptable(s, max)
  {
  }

  lemma SnocSymbol(t: string, k: nat)
    requires k < |t| && AllSymbols(t[..k]) && Digit(t[k]) >= 0
    ensures AllSymbols(t[..k + 1])
  {
    forall i | 0 <= i < k ensures Digit(t[i]) >= 0 { assert t[..k][i] == t[i]; }
  }

  /** What the buffer holds after the first `k` symbols of the token. */
  ghost predicate Read(s: string, k: nat, buf: seq<nat>, length: nat, max: int)
  {
    var t := Token(s);
    && Ones(t) <= k <= |t| && AllSymbols(t[..k]) && AllSymbols(t[Ones(t)..k])
    && Fills(buf, length, 256) && ValueOf(buf, 256) == ValueOf(Digits58(t[Ones(t)..k]), 58)
    && (k > 0 ==> length + Ones(t) <= max)
  }

  /** Processes one symbol; false when it is none, or when the result gets too long. */
  method ReadSymbol(c: char, zeroes: nat, buf: array<nat>, length: nat, max: int, ghost str: string, ghost k: nat)
    returns (ok: bool, newLength: nat)
    requires k < |Token(str)| && c == Token(str)[k] && zeroes == Ones(Token(str)) && Read(str, k, buf[..], length, max)
    requires buf.Length > (|Token(str)| - Ones(Token(str))) * 733 / 1000
    modifies buf
    ensures ok ==> Read(str, k + 1, buf[..], newLength, max)
    ensures !ok ==> !Acceptable(str, max)
  {
    hide Pow, ValueOf, DigitsOf, Digit, Token, Ones, Fills, Digits58, AllSymbols, Acceptable;
    ghost var token := Token(str);
    var carry := Digit(c);
    if carry == -1 {
      BadSymbol(str, k, max);
      return false, length;
    }
    SnocSymbol(token, k);
    NextSymbolFits(token, zeroes, k, |token| - zeroes);
    BufferFits(|token| - zeroes, buf.Length);
    newLength := MultiplyAdd(buf, 256, 58, carry, length);
    if newLength + zeroes > max {
      TooLong(str, k + 1, newLength, buf[..], max);
      return false, newLength;
    }
    return true, newLength;
  }

  lemma BufferFits(n: nat, size: nat)
    requires size > n * 733 / 1000
    ensures Pow(256, n * 733 / 1000 + 1) <= Pow(256, size)
  {
    PowIncreasing(256, n * 733 / 1000 + 1, size);
  }

  method DecodeBase58(str: string, max: int) returns (r: Option<seq<Byte>>)
    ensures r == Decode(str, max)
  {
    hide Pow, ValueOf, DigitsOf, Digit, Token, AfterToken, TokenStart, TokenEnd, IsSpace, Ones, Read, Payload, Digits58,
         AllSymbols, Acceptable, Bytes;
    if '\0' in str {
      return None;
    }
    TokenBounds(str);
    var start := SkipSpaces(str, 0);
    StartIs(str, start);
    var ok, p := SkipOnes(str, start, max);
    OnesInToken(str, p);
    if !ok {
      TooManyOnes(str, max);
      return None;
    }
    var zeroes := p - start;
    var size := (|str| - p) * 733 / 1000 + 1;
    var b256 := new nat[size](_ => 0);
    var length := 0;
    NothingRead(str, b256[..], max);
    while p < |str| && !IsSpace(str[p])
      invariant start + zeroes <= p <= TokenEnd(str)
      invariant Read(str, p - start, b256[..], length, max)
    {
      ok, length := ReadSymbol(str[p], zeroes, b256, length, max, str, p - start);
      if !ok {
        return None;
      }
      p := p + 1;
    }
    p := SkipSpaces(str, p);
    if p != |str| {
      TrailingText(str, p, max);
      return None;
    }
    Accepted(str, b256[..], length, max);
    return Some(seq(zeroes, _ => 0 as Byte) + Bytes(b256[size - length..]));
  }

  lemma TooManyOnes(s: string, max: int)
    requires Ones(Token(s)) > 0 && Ones(Token(s)) > max
    ensures !Acceptable(s, max)
  {
  }

  lemma NothingRead(s: string, buf: seq<nat>, max: int)
    requires (forall i :: 0 <= i < |buf| ==> buf[i] == 0) && (Ones(Token(s)) > 0 ==> Ones(Token(s)) <= max)
    ensures Read(s, Ones(Token(s)), buf, 0, max)
  {
    var t := Token(s);
    EmptyBuffer(buf, 256);
    NoDigits(58);
    forall i | 0 <= i < Ones(t) ensures Digit(t[i]) >= 0 { assert IsOne(t[i]); }
    assert t[Ones(t)..Ones(t)] == "";
  }

  lemma TrailingText(s: string, p: nat, max: int)
    requires TokenEnd(s) <= p < |s| && !IsSpace(s[p])
    ensures !Acceptable(s, max)
  {
    TokenBounds(s);
    hide TokenEnd, TokenStart;
    assert AfterToken(s)[p - TokenEnd(s)] == s[p];
  }

  lemma Accepted(s: string, buf: seq<nat>, length: nat, max: int)
    requires '\0' !in s && Read(s, |Token(s)|, buf, length, max)
    requires forall i :: TokenEnd(s) <= i < |s| ==> IsSpace(s[i])
    ensures length <= |buf| && AreDigits(buf[|buf| - length..], 256)
    ensures Decode(s, max) == Some(seq(Ones(Token(s)), _ => 0 as Byte) + Bytes(buf[|buf| - length..]))
  {
    TokenBounds(s);
    hide DigitsOf, ValueOf, Digits58, Token, Ones, TokenEnd, TokenStart, Bytes, Fills;
    var t := Token(s);
    assert t[..|t|] == t && t[Ones(t)..|t|] == t[Ones(t)..];
    FilledDigits(buf, length, 256);
    DigitsHaveValue(ValueOf(Digits58(t[Ones(t)..]), 58), 256);
  }
}
