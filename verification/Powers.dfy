/** Powers of two, lengths in bits and the bitwise or of naturals. */
module Powers {
  import opened Basics

  function Pow2(n: nat): (p: nat)
    ensures p > 0
  {
    if n == 0 then 1 else 2 * Pow2(n - 1)
  }

  function DivideBy(x: nat, d: nat): nat
    requires d > 0
  {
    x / d
  }

  function RightShift(x: nat, n: nat): nat { DivideBy(x, Pow2(n)) }

  lemma {:induction false} Pow2Add(m: nat, n: nat)
    ensures Pow2(m + n) == Pow2(m) * Pow2(n)
  {
    if m > 0 {
      Pow2Add(m - 1, n);
      Twice(Pow2(m - 1), Pow2(n));
    }
  }

  lemma Twice(a: nat, b: nat)
    ensures 2 * (a * b) == (2 * a) * b
  {
  }

  lemma Doubled(a: nat, b: nat)
    ensures a * (2 * b) == 2 * (a * b) && a * b >= 0
  {
  }

  lemma {:induction false} Pow2Monotone(m: nat, n: nat)
    requires m <= n
    ensures Pow2(m) <= Pow2(n)
    decreases n - m
  {
    if m < n {
      Pow2Monotone(m + 1, n);
    }
  }

  lemma Pow2Of32()
    ensures Pow2(8) == 0x100 && Pow2(16) == 0x1_0000 && Pow2(24) == 0x100_0000 && Pow2(32) == 0x1_0000_0000
  {
    assert Pow2(8) == 0x100;
    Pow2Add(8, 8);
    Pow2Add(8, 16);
    Pow2Add(16, 16);
  }

  lemma MulLess(a: int, b: int, c: int)
    requires a < b && 0 < c
    ensures a * c < b * c
  {
    assert (b - a) * c > 0;
  }

  /** The remainder is the only value below the modulus that differs by a multiple of it. */
  lemma RemainderIs(x: int, m: nat, q: int, v: int)
    requires m > 0 && 0 <= v < m && x == q * m + v
    ensures x % m == v && x / m == q
  {
    var d := x / m;
    assert x == d * m + x % m;
    assert (q - d) * m == x % m - v;
    if q > d { MulLeq(1, q - d, m); } else if q < d { MulLeq(q - d, -1, m); }
  }

  // ---------------------------------------------------------------- length in bits

  /** The position of the highest bit set plus one, or zero. */
  function BitLength(x: nat): nat {
    if x == 0 then 0 else 1 + BitLength(x / 2)
  }

  lemma {:induction false} BitLengthBounds(x: nat)
    ensures x < Pow2(BitLength(x))
    ensures x > 0 ==> BitLength(x) > 0 && Pow2(BitLength(x) - 1) <= x
  {
    if x > 0 {
      BitLengthBounds(x / 2);
    }
  }

  lemma BitLengthIs(x: nat, n: nat)
    requires x < Pow2(n) && (n > 0 ==> Pow2(n - 1) <= x)
    ensures BitLength(x) == n
  {
    BitLengthBounds(x);
    var m := BitLength(x);
    if m < n {
      Pow2Monotone(m, n - 1);
    } else if n < m {
      Pow2Monotone(n, m - 1);
    }
  }

  lemma LengthOfZero()
    ensures BitLength(0) == 0
  {
  }

  lemma BitLengthAtMost(x: nat, n: nat)
    requires x < Pow2(n)
    ensures BitLength(x) <= n
  {
    hide Pow2, BitLength;
    BitLengthBounds(x);
    LengthOfZero();
    var m := BitLength(x);
    if m > n {
      Pow2Monotone(n, m - 1);
    }
  }

  // ---------------------------------------------------------------- bitwise or

  function Or(x: nat, y: nat): nat {
    if x == 0 && y == 0 then 0
    else 2 * Or(x / 2, y / 2) + (if x % 2 == 1 || y % 2 == 1 then 1 else 0)
  }

  predicate HasBit(x: nat, n: nat) { x / Pow2(n) % 2 == 1 }

  /** Of a number with at most n + 1 bits, the n-th bit tells whether it has as many. */
  lemma TopBit(x: nat, n: nat)
    requires x < Pow2(n + 1)
    ensures HasBit(x, n) <==> x >= Pow2(n)
  {
    TopHalf(x, Pow2(n));
  }

  lemma TopHalf(x: nat, p: nat)
    requires 0 < p && x < 2 * p
    ensures x / p % 2 == 1 <==> x >= p
  {
    if x >= p { RemainderIs(x, p, 1, x - p); } else { RemainderIs(x, p, 0, x); }
  }

  lemma {:induction false} OrZero(x: nat)
    ensures Or(0, x) == x
  {
    if x > 0 {
      OrZero(x / 2);
    }
  }

  lemma OrEven(x: nat, z: nat)
    ensures Or(x, 2 * z) == 2 * Or(x / 2, z) + x % 2
  {
  }

  /** The or of two numbers without common bits is their sum. */
  lemma {:induction false} OrIsSum(x: nat, y: nat, n: nat)
    requires x < Pow2(n)
    ensures Or(x, y * Pow2(n)) == x + y * Pow2(n)
    decreases n
  {
    hide Or;
    if n == 0 {
      OrZero(y);
    } else {
      OrIsSum(x / 2, y, n - 1);
      OrEven(x, y * Pow2(n - 1));
      assert y * (2 * Pow2(n - 1)) == 2 * (y * Pow2(n - 1));
    }
  }

  lemma {:induction false} OrCommutes(x: nat, y: nat)
    ensures Or(x, y) == Or(y, x)
    decreases x + y
  {
    if x > 0 || y > 0 {
      OrCommutes(x / 2, y / 2);
    }
  }

  lemma OrStep(x: nat, z: nat, i: nat, j: nat)
    requires i < 2 && j < 2
    ensures Or(2 * x + i, 2 * z + j) == 2 * Or(x, z) + (if i == 1 || j == 1 then 1 else 0)
  {
  }

  /** The low and the high bits are or-ed separately. */
  lemma {:induction false} OrSplit(x: nat, a: nat, z: nat, b: nat, n: nat)
    requires x < Pow2(n) && z < Pow2(n)
    ensures a * Pow2(n) >= 0 && b * Pow2(n) >= 0
    ensures Or(x + a * Pow2(n), z + b * Pow2(n)) == Or(x, z) + Or(a, b) * Pow2(n)
    decreases n
  {
    hide Or;
    MulLeq(0, a, Pow2(n));
    MulLeq(0, b, Pow2(n));
    if n == 0 {
      OrZero(0);
    } else {
      OrSplit(x / 2, a, z / 2, b, n - 1);
      var p := Pow2(n - 1);
      Doubled(a, p);
      Doubled(b, p);
      Doubled(Or(a, b), p);
      OrStep(x / 2 + a * p, z / 2 + b * p, x % 2, z % 2);
      OrStep(x / 2, z / 2, x % 2, z % 2);
    }
  }
}
