/** The compact encoding of targets: a 23-bit mantissa, a sign and an exponent of base 256; and the
    work that a target stands for. */
module CompactBits {
  import opened Basics
  import opened Powers
  import opened Limbs
  import opened ArithUint256

  /** What a compact word decodes to, and whether it is marked negative or too large. */
  datatype Target = Target(value: nat, negative: bool, overflow: bool)

  function Size(compact: Word): nat { compact / 0x100_0000 }

  function Mantissa(compact: Word): nat { compact % 0x80_0000 }

  predicate SignBit(compact: Word) { compact / 0x80_0000 % 2 == 1 }

  /** The mantissa after the shift for small sizes. */
  function Kept(compact: Word): nat {
    if Size(compact) <= 3 then RightShift(Mantissa(compact), 8 * (3 - Size(compact))) else Mantissa(compact)
  }

  ghost function Decode(compact: Word): Target {
    var size, word := Size(compact), Kept(compact);
    Target(if size <= 3 then word else Wrapped(Times(word, Pow2(8 * (size - 3)))),
           word != 0 && SignBit(compact),
           word != 0 && (size > 34 || (word > 0xff && size > 33) || (word > 0xffff && size > 32)))
  }

  // ---------------------------------------------------------------- encoding

  function Bytes(x: nat): nat { (BitLength(x) + 7) / 8 }

  /** The three leading bytes of a number. */
  function LeadingBytes(x: nat): nat {
    if Bytes(x) <= 3 then x * Pow2(8 * (3 - Bytes(x))) else RightShift(x, 8 * (Bytes(x) - 3))
  }

  /** Whether the mantissa would run into the sign bit. */
  predicate Crowded(x: nat) { LeadingBytes(x) >= 0x80_0000 }

  function EncodedWord(x: nat): nat { if Crowded(x) then LeadingBytes(x) / 256 else LeadingBytes(x) }

  function EncodedSize(x: nat): nat { if Crowded(x) then Bytes(x) + 1 else Bytes(x) }

  ghost function Encode(x: nat, negative: bool): nat {
    EncodedWord(x) + EncodedSize(x) * 0x100_0000 + if negative && EncodedWord(x) != 0 then 0x80_0000 else 0
  }

  // ---------------------------------------------------------------- what decoding means

  /** Overflow is flagged exactly when the mantissa times 256 to the power of the size less three does
      not fit into 256 bits; the value is that product, as far as it fits, or that quotient for small sizes;
      and a word is negative exactly when its sign bit is set and that number is not zero. */
  lemma DecodeMeans(compact: Word)
    ensures var t := Decode(compact); var size, m := Size(compact), Mantissa(compact);
      && (t.overflow <==> size > 3 && m * Pow2(8 * (size - 3)) >= Bound())
      && (!t.overflow ==> t.value == if size <= 3 then m / Pow2(8 * (3 - size)) else m * Pow2(8 * (size - 3)))
      && (size > 3 ==> t.value == m * Pow2(8 * (size - 3)) % Bound())
      && (t.negative <==> SignBit(compact) && if size > 3 then m != 0 else t.value != 0)
  {
    hide Pow2, Bound;
    var size, m := Size(compact), Mantissa(compact);
    if size > 3 {
      OverflowFlag(m, size - 3);
      TimesOne(Bound());
      MulLeq(0, m, Pow2(8 * (size - 3)));
      if m * Pow2(8 * (size - 3)) < Bound() {
        WrappedIs(m * Pow2(8 * (size - 3)), 0, m * Pow2(8 * (size - 3)));
      }
    } else {
      DividedZero(Pow2(8 * (3 - size)));
    }
  }

  lemma DividedZero(p: nat)
    requires p > 0
    ensures 0 / p == 0
  {
  }

  /** The flag's thresholds are exactly those of the product. */
  lemma OverflowFlag(m: nat, e: nat)
    requires 0 < e && m < 0x80_0000
    ensures m * Pow2(8 * e) >= Bound() <==> m != 0 && (e > 31 || (m > 0xff && e > 30) || (m > 0xffff && e > 29))
  {
    hide Pow2;
    if m == 0 {
    } else if e > 31 {
      Pow2Monotone(256, 8 * e);
      MulLeq(1, m, Pow2(8 * e));
    } else if e >= 29 {
      FlagAtThreshold(m, e);
    } else {
      FlagAtThreshold(m, 29);
      Pow2Monotone(8 * e, 232);
      MulLeq(Pow2(8 * e), Pow2(232), m);
    }
  }

  /** With 31, 30 or 29 the product overflows from the mantissa 256 to the power of 32 less that. */
  lemma FlagAtThreshold(m: nat, e: nat)
    requires 29 <= e <= 31
    ensures m * Pow2(8 * e) >= Bound() <==> m >= if e == 31 then 0x100 else if e == 30 then 0x1_0000 else 0x100_0000
  {
    hide Pow2;
    Pow2Of32();
    Pow2Add(24, 232);
    Pow2Add(16, 240);
    Pow2Add(8, 248);
    CompareProducts(m, Pow2(256 - 8 * e), Pow2(8 * e));
  }

  lemma CompareProducts(m: int, n: int, p: nat)
    requires p > 0
    ensures m * p >= n * p <==> m >= n
  {
    if m >= n { MulLeq(n, m, p); } else { MulLess(m, n, p); }
  }

  // ---------------------------------------------------------------- encoding, then decoding

  /** A number other than zero has a mantissa of 16 to 23 bits, the number scaled by a power of 256. */
  lemma EncodedShape(x: nat)
    requires 0 < x < Bound()
    ensures 0x8000 <= EncodedWord(x) < 0x80_0000 && 1 <= EncodedSize(x) <= 33
    ensures EncodedSize(x) <= 3 ==> EncodedWord(x) == x * Pow2(8 * (3 - EncodedSize(x)))
    ensures EncodedSize(x) > 3 ==> EncodedWord(x) == x / Pow2(8 * (EncodedSize(x) - 3))
    ensures EncodedSize(x) == 33 ==> EncodedWord(x) <= 0xffff
  {
    hide Pow2, BitLength;
    LeadingShape(x);
    Pow2Of32();
    var n := Bytes(x);
    BitLengthBounds(x);
    BitLengthAtMost(x, 256);
    if Crowded(x) {
      if n < 3 {
        Pow2Add(8, 8 * (2 - n));
        ByteOff(x, Pow2(8 * (2 - n)));
      } else if n == 3 {
        NoBits(0);
      } else {
        Pow2Add(8 * (n - 3), 8);
        DivDiv(x, Pow2(8 * (n - 3)), 256);
      }
    } else {
      NoBits(0);
    }
  }

  lemma ByteOff(x: nat, p: nat)
    ensures x * (256 * p) / 256 == x * p
  {
    assert x * (256 * p) == 256 * (x * p);
  }

  lemma DivDiv(x: nat, p: nat, q: nat)
    requires p > 0 && q > 0
    ensures p * q > 0 && x / p / q == x / (p * q)
  {
    MulLeq(1, p, q);
    var a, r := x / p / q, x / p % q;
    assert x == (a * q + r) * p + x % p;
    assert (a * q + r) * p == a * (p * q) + r * p;
    MulLeq(r, q - 1, p);
    MulLeq(0, r, p);
    RemainderIs(x, p * q, a, r * p + x % p);
  }

  lemma LeadingShape(x: nat)
    requires x > 0
    ensures 0x1_0000 <= LeadingBytes(x) < 0x100_0000 && Bytes(x) > 0
  {
    hide Pow2, BitLength;
    BitLengthBounds(x);
    Pow2Of32();
    var n := Bytes(x);
    Pow2Monotone(BitLength(x), 8 * n);
    Pow2Monotone(8 * (n - 1), BitLength(x) - 1);
    if n <= 3 {
      var p := Pow2(8 * (3 - n));
      Pow2Add(8 * n, 8 * (3 - n));
      Pow2Add(8 * (n - 1), 8 * (3 - n));
      MulLess(x, Pow2(8 * n), p);
      MulLeq(Pow2(8 * (n - 1)), x, p);
    } else {
      var p := Pow2(8 * (n - 3));
      Pow2Add(24, 8 * (n - 3));
      Pow2Add(16, 8 * (n - 3));
      DivBetween(x, p, 0x1_0000, 0x100_0000);
    }
  }

  lemma DivBetween(x: nat, p: nat, low: nat, high: nat)
    requires p > 0 && low * p <= x < high * p
    ensures low <= x / p < high
  {
    var q := x / p;
    assert x == q * p + x % p;
    if q < low { MulLeq(q + 1, low, p); }
    if q >= high { MulLeq(high, q, p); }
  }

  /** The code's two assertions hold: the mantissa has 23 bits and the size eight. */
  lemma EncodeFits(x: nat, negative: bool)
    requires x < Bound()
    ensures EncodedWord(x) < 0x80_0000 && EncodedSize(x) <= 33 && Encode(x, negative) < BASE
    ensures EncodedWord(x) != 0 <==> x != 0
  {
    hide BitLength, Pow2;
    if x > 0 {
      EncodedShape(x);
    } else {
      EncodeZero();
    }
  }

  lemma EncodeZero()
    ensures EncodedWord(0) == 0 && EncodedSize(0) == 0 && BitLength(0) == 0
  {
  }

  /** The fields of an encoded word. */
  lemma EncodedFields(x: nat, negative: bool)
    requires x < Bound()
    ensures Encode(x, negative) < BASE
    ensures var c := Encode(x, negative);
      Size(c) == EncodedSize(x) && Mantissa(c) == EncodedWord(x) && (SignBit(c) <==> negative && x != 0)
  {
    hide EncodedWord, EncodedSize, Bound;
    EncodeFits(x, negative);
    var m, n := EncodedWord(x), EncodedSize(x);
    assert (m + n * 0x100_0000 + 0x80_0000) / 0x100_0000 == n;
  }

  /** Decoding an encoded number never flags an overflow, gives the sign back, and loses less than one
      part in two to the fifteenth. */
  lemma EncodeRoundTrip(x: nat, negative: bool)
    requires x < Bound()
    ensures Encode(x, negative) < BASE
    ensures var t := Decode(Encode(x, negative));
      && !t.overflow && (t.negative <==> negative && x != 0)
      && t.value <= x && (x > 0 ==> (x - t.value) * 0x8000 < x)
      && t.value == Representable(x)
  {
    hide Pow2, BitLength, EncodedWord, EncodedSize, Encode, Bound, Decode, Size, Mantissa, Kept, SignBit;
    EncodedFields(x, negative);
    var c := Encode(x, negative);
    if x == 0 { EncodeZero(); } else { EncodedShape(x); }
    DecodeFields(c, EncodedWord(x), EncodedSize(x));
    if x == 0 {
      EncodeZero();
      RepresentableZero();
    } else {
      EncodedShape(x);
      RepresentableLoss(x);
      RepresentableFits(x);
    }
  }

  /** Decoding by fields. */
  lemma DecodeFields(c: Word, m: nat, n: nat)
    requires Size(c) == n && Mantissa(c) == m && n <= 33 && (n == 33 ==> m <= 0xffff)
    ensures var t := Decode(c);
      && !t.overflow
      && (n <= 3 ==> t.value == m / Pow2(8 * (3 - n)) && (t.negative <==> t.value != 0 && SignBit(c)))
      && (n > 3 ==> t.value == Wrapped(Times(m, Pow2(8 * (n - 3)))) && (t.negative <==> m != 0 && SignBit(c)))
  {
    hide Pow2;
  }

  /** What is left of a number in the compact form. */
  ghost function Representable(x: nat): nat {
    if EncodedSize(x) <= 3 then x else Times(EncodedWord(x), Pow2(8 * (EncodedSize(x) - 3)))
  }

  lemma RepresentableZero()
    ensures Representable(0) == 0 && EncodedWord(0) == 0 && EncodedSize(0) == 0 && 0 / Pow2(24) == 0
  {
    hide Pow2;
    EncodeZero();
    DividedZero(Pow2(24));
  }

  lemma RepresentableLoss(x: nat)
    requires 0 < x < Bound()
    ensures Representable(x) <= x && (x - Representable(x)) * 0x8000 < x
  {
    hide Pow2, BitLength, EncodedWord, EncodedSize, Bound;
    EncodedShape(x);
    if EncodedSize(x) > 3 {
      var p := Pow2(8 * (EncodedSize(x) - 3));
      MulLeq(0x8000, EncodedWord(x), p);
    }
  }

  /** Decoding by fields gives what is left. */
  lemma RepresentableFits(x: nat)
    requires 0 < x < Bound()
    ensures EncodedSize(x) <= 3 ==> EncodedWord(x) / Pow2(8 * (3 - EncodedSize(x))) == Representable(x)
    ensures EncodedSize(x) > 3 ==> Wrapped(Times(EncodedWord(x), Pow2(8 * (EncodedSize(x) - 3)))) == Representable(x)
  {
    hide Pow2, BitLength, EncodedWord, EncodedSize, Bound;
    EncodedShape(x);
    RepresentableLoss(x);
    if EncodedSize(x) <= 3 {
      RemainderIs(EncodedWord(x), Pow2(8 * (3 - EncodedSize(x))), x, 0);
    } else {
      TimesOne(Bound());
      WrappedIs(Representable(x), 0, Representable(x));
    }
  }

  // ---------------------------------------------------------------- encoding again

  lemma ScaledLength(m: nat, e: nat)
    requires m > 0
    ensures m * Pow2(8 * e) > 0 && BitLength(m * Pow2(8 * e)) == BitLength(m) + 8 * e
  {
    hide Pow2, BitLength;
    BitLengthBounds(m);
    var l, p := BitLength(m), Pow2(8 * e);
    Pow2Add(l, 8 * e);
    Pow2Add(l - 1, 8 * e);
    MulLess(m, Pow2(l), p);
    MulLeq(Pow2(l - 1), m, p);
    MulLeq(1, m, p);
    BitLengthIs(m * p, l + 8 * e);
  }

  lemma MantissaLength(m: nat)
    requires 0x8000 <= m < 0x80_0000
    ensures 16 <= BitLength(m) <= 23 && (m < 0x1_0000 <==> BitLength(m) == 16)
  {
    hide Pow2, BitLength;
    var k := BitLength(m);
    assert Pow2(15) == 0x8000 && Pow2(16) == 0x1_0000 && Pow2(23) == 0x80_0000 by { Pow2Literals(); }
    BitLengthBounds(m);
    BitLengthAtMost(m, 23);
    if k < 16 { Pow2Monotone(k, 15); }
    if m < 0x1_0000 { BitLengthAtMost(m, 16); } else if k == 16 { assert false; }
  }

  lemma Pow2Literals()
    ensures Pow2(15) == 0x8000 && Pow2(16) == 0x1_0000 && Pow2(23) == 0x80_0000
  {
    Pow2Of32();
  }

  lemma ScaledDown(m: nat, e: nat, f: nat)
    requires f <= e
    ensures m * Pow2(8 * e) / Pow2(8 * f) == m * Pow2(8 * (e - f))
  {
    Pow2Add(8 * (e - f), 8 * f);
    var p, q := Pow2(8 * (e - f)), Pow2(8 * f);
    hide Pow2;
    assert m * (p * q) == (m * p) * q;
    RemainderIs(m * (p * q), q, m * p, 0);
  }

  lemma LeadingOf(v: nat, n: nat, w: nat)
    requires Bytes(v) == n >= 3 && v / Pow2(8 * (n - 3)) == w
    ensures LeadingBytes(v) == w
  {
    hide Pow2, BitLength, Bytes;
    NoBits(0);
  }

  /** A mantissa of 16 to 23 bits, scaled by a power of 256, encodes to itself. */
  lemma EncodedOf(m: nat, e: nat)
    requires 0x8000 <= m < 0x80_0000 && e > 0
    ensures m * Pow2(8 * e) > 0
    ensures EncodedWord(m * Pow2(8 * e)) == m && EncodedSize(m * Pow2(8 * e)) == e + 3
  {
    hide Pow2, BitLength, LeadingBytes;
    ScaledLength(m, e);
    MantissaLength(m);
    var v := m * Pow2(8 * e);
    NoBits(0);
    Pow2Of32();
    if BitLength(m) == 16 {
      ScaledDown(m, e, e - 1);
      LeadingOf(v, e + 2, m * 0x100);
    } else {
      ScaledDown(m, e, e);
      LeadingOf(v, e + 3, m);
    }
  }

  /** Encoding what an encoded number decodes to gives the same word. */
  lemma EncodeIsStable(x: nat, negative: bool)
    requires x < Bound()
    ensures Encode(x, negative) < BASE && Encode(Decode(Encode(x, negative)).value, negative) == Encode(x, negative)
  {
    hide Pow2, BitLength, EncodedWord, EncodedSize, Bound, Decode;
    EncodeRoundTrip(x, negative);
    if x > 0 && EncodedSize(x) > 3 {
      EncodedShape(x);
      EncodedOf(EncodedWord(x), EncodedSize(x) - 3);
    }
  }

  lemma ExponentBelow(v: nat, e: nat, f: nat)
    requires 0x8000 * Pow2(8 * e) <= v < 0x80_0000 * Pow2(8 * f)
    ensures e <= f
  {
    hide Pow2;
    Pow2Literals();
    Pow2Add(15, 8 * e);
    Pow2Add(23, 8 * f);
    if e > f { Pow2Monotone(23 + 8 * f, 15 + 8 * e); }
  }

  /** Whatever decodes without overflow is a mantissa times a power of 256. */
  lemma DecodedProduct(compact: Word) returns (m: nat, f: nat)
    requires !Decode(compact).overflow
    ensures m < 0x80_0000 && Decode(compact).value == m * Pow2(8 * f) < Bound()
  {
    hide Pow2, Bound, Decode;
    DecodeMeans(compact);
    var n := Size(compact);
    if n <= 3 {
      NoBits(0);
      m, f := RightShift(Mantissa(compact), 8 * (3 - n)), 0;
      ShrIsWord(Mantissa(compact), 8 * (3 - n));
      BoundAbove24();
    } else {
      m, f := Mantissa(compact), n - 3;
    }
  }

  lemma BoundAbove24()
    ensures Bound() > 0x100_0000
  {
    hide Pow2;
    Pow2Of32();
    Pow2Monotone(32, 256);
  }

  /** A target that decodes without overflow survives being encoded and decoded again exactly. */
  lemma DecodedSurvives(compact: Word)
    requires !Decode(compact).overflow
    ensures var v := Decode(compact).value;
      v < Bound() && Encode(v, false) < BASE && Decode(Encode(v, false)).value == v
  {
    hide Pow2, BitLength, EncodedWord, EncodedSize, Bound, Decode, Encode;
    var m, f := DecodedProduct(compact);
    var v := Decode(compact).value;
    EncodeRoundTrip(v, false);
    if v > 0 && EncodedSize(v) > 3 {
      EncodedShape(v);
      var e := EncodedSize(v) - 3;
      MulLeq(0x8000, EncodedWord(v), Pow2(8 * e));
      MulLess(m, 0x80_0000, Pow2(8 * f));
      ExponentBelow(v, e, f);
      NoRemainder(m, f, e);
    }
  }

  lemma NoRemainder(m: nat, f: nat, e: nat)
    requires e <= f
    ensures m * Pow2(8 * f) / Pow2(8 * e) * Pow2(8 * e) == m * Pow2(8 * f)
  {
    Pow2Add(8 * (f - e), 8 * e);
    var p, q := Pow2(8 * (f - e)), Pow2(8 * e);
    hide Pow2;
    assert m * (p * q) == (m * p) * q;
    RemainderIs(m * (p * q), q, m * p, 0);
  }

  // ---------------------------------------------------------------- the methods

  /** Sets the number to what the compact word decodes to. */
  method SetCompact(a: ArithUint256, compact: Word) returns (negative: bool, overflow: bool)
    requires a.Valid()
    modifies a.pn
    ensures Target(a.Value(), negative, overflow) == Decode(compact)
  {
    hide Pow2, Bound;
    var size, word: Word := compact / 0x100_0000, compact % 0x80_0000;
    if size <= 3 {
      word := Shr(word, 8 * (3 - size));
      a.AssignU64(word);
    } else {
      a.AssignU64(word);
      a.ShiftLeft(8 * (size - 3));
    }
    negative := word != 0 && compact / 0x80_0000 % 2 == 1;
    overflow := word != 0 && (size > 34 || (word > 0xff && size > 33) || (word > 0xffff && size > 32));
  }

  /** The leading bytes as the code computes them, in 64 and 32 bits. */
  method LeadingWord(a: ArithUint256, size: nat) returns (word: Word)
    requires a.Valid() && size == Bytes(a.Value())
    ensures word == LeadingBytes(a.Value())
  {
    hide Pow2, BitLength, Bound, LeadingBytes, Bytes;
    a.InRange();
    LeadingRange(a.Value());
    if size <= 3 {
      var low := a.GetLow64();
      SmallLeading(a.Value(), size);
      word := low * Pow2(8 * (3 - size)) % (BASE * BASE) % BASE;
    } else {
      var bn := new ArithUint256.Copy(a);
      bn.ShiftRight(8 * (size - 3));
      var low := bn.GetLow64();
      LargeLeading(a.Value());
      word := low % BASE;
    }
  }

  lemma SmallLeading(x: nat, size: nat)
    requires size == Bytes(x) <= 3
    ensures x < BASE * BASE && LeadingBytes(x) == x * Pow2(8 * (3 - size))
    ensures x * Pow2(8 * (3 - size)) % (BASE * BASE) % BASE == x * Pow2(8 * (3 - size))
  {
    hide Pow2, BitLength;
    LeadingRange(x);
    BitLengthBounds(x);
    Pow2Of32();
    Pow2Monotone(BitLength(x), 24);
    MulLeq(0, x, Pow2(8 * (3 - size)));
  }

  lemma LargeLeading(x: nat)
    requires Bytes(x) > 3
    ensures x / Pow2(8 * (Bytes(x) - 3)) % (BASE * BASE) % BASE == LeadingBytes(x)
  {
    hide Pow2, BitLength, Bytes;
    LeadingRange(x);
  }

  method GetCompact(a: ArithUint256, negative: bool) returns (compact: Word)
    requires a.Valid()
    ensures compact == Encode(a.Value(), negative)
  {
    hide Pow2, BitLength, Bound, LeadingBytes;
    a.InRange();
    EncodeFits(a.Value(), negative);
    var bits := a.Bits();
    var size := (bits + 7) / 8;
    var word := LeadingWord(a, size);
    LeadingRange(a.Value());
    if word / 0x80_0000 % 2 == 1 {
      word := word / 256;
      size := size + 1;
    }
    assert word < 0x80_0000;
    assert size < 256;
    OrFields(word, size);
    compact := Or(Or(word, size * 0x100_0000), if negative && word != 0 then 0x80_0000 else 0);
  }

  lemma LeadingRange(x: nat)
    ensures LeadingBytes(x) < 0x100_0000
  {
    hide Pow2;
    if x == 0 { EncodeZero(); } else { LeadingShape(x); }
  }

  /** The three fields of a compact word do not overlap. */
  lemma OrFields(m: nat, n: nat)
    requires m < 0x80_0000
    ensures Or(Or(m, n * 0x100_0000), 0) == m + n * 0x100_0000
    ensures Or(Or(m, n * 0x100_0000), 0x80_0000) == m + n * 0x100_0000 + 0x80_0000
  {
    hide Pow2, Or;
    Pow2Of32();
    Pow2Literals();
    OrIsSum(m, n, 24);
    OrSplit(m, n, 0x80_0000, 0, 24);
    OrIsSum(m, 1, 23);
    OrZero(n);
    OrCommutes(n, 0);
    OrZero(m + n * 0x100_0000);
    OrCommutes(m + n * 0x100_0000, 0);
  }

  // ---------------------------------------------------------------- block proof

  /** The work that a block's target stands for: the expected number of hashes to get below it. */
  ghost function Work(compact: Word): nat {
    var t := Decode(compact);
    if t.negative || t.overflow || t.value == 0 then 0 else DivideBy(Bound(), t.value + 1)
  }

  method GetBlockProof(compact: Word) returns (work: ArithUint256)
    ensures fresh(work) && work.Valid() && work.Value() == Work(compact)
  {
    hide Pow2, Bound, Decode, Wrapped;
    var target := new ArithUint256(0);
    var negative, overflow := SetCompact(target, compact);
    var none := target.EqualTo(0);
    if negative || overflow || none {
      work := new ArithUint256(0);
      return;
    }
    TargetBelowTop(compact);
    WorkFormula(target.Value());
    TimesOne(Bound());
    work := target.Complement();
    var one := new ArithUint256(1);
    WrappedIs(target.Value() + 1, 0, target.Value() + 1);
    target.Add(one);
    var ok, _ := work.Divide(target);
    assert ok;
    WrappedIs(work.Value() + 1, 0, work.Value() + 1);
    work.Add(one);
  }

  /** Adding one to a usable target does not wrap around. */
  lemma TargetBelowTop(compact: Word)
    requires !Decode(compact).overflow
    ensures Decode(compact).value + 1 < Bound()
  {
    hide Pow2, Decode;
    var m, f := DecodedProduct(compact);
    NoBits(0);
    BoundAbove24();
    assert Pow2(1) == 2 by { PowOfOne(); }
    if f > 0 {
      Pow2Add(1, 8 * f - 1);
      Pow2Add(1, 255);
      EvenGap(m, Pow2(8 * f - 1), Pow2(255));
    }
  }

  lemma PowOfOne()
    ensures Pow2(1) == 2
  {
  }

  lemma EvenGap(m: nat, p: nat, b: nat)
    requires m * (2 * p) < 2 * b
    ensures m * (2 * p) + 1 < 2 * b
  {
    assert m * (2 * p) == 2 * (m * p);
  }

  /** The quotient of two to the power of 256, computed without that number. */
  lemma WorkFormula(v: nat)
    requires 0 < v && v + 1 < Bound()
    ensures (Bound() - 1 - v) / (v + 1) + 1 == Bound() / (v + 1) < Bound()
  {
    hide Bound;
    var d, q := v + 1, (Bound() - 1 - v) / (v + 1);
    assert Bound() - d == q * d + (Bound() - d) % d;
    RemainderIs(Bound(), d, q + 1, (Bound() - d) % d);
    MulLeq(2, d, q + 1);
  }
}
