/** The order of the primitive element e, by which the powers below 1023 differ. */
module GaloisPowers {
  import opened Bech32Code
  import opened GaloisField

  lemma Squares()
    ensures Times(0x020, 0x020) == 0x137 && Times(0x137, 0x137) == 0x0ce && Times(0x0ce, 0x0ce) == 0x219
      && Times(0x219, 0x219) == 0x2a3
    ensures Times(0x2a3, 0x2a3) == 0x029
  {
  }

  lemma MoreSquares()
    ensures Times(0x029, 0x029) == 0x124 && Times(0x124, 0x124) == 0x0d1 && Times(0x0d1, 0x0d1) == 0x204
      && Times(0x204, 0x204) == 0x2ba
    ensures Times(0x2ba, 0x2ba) == 0x020
  {
  }

  lemma Products()
    ensures Times(0x0ce, 0x020) == 0x229 && Times(0x2a3, 0x229) == 0x3be && Times(0x124, 0x3be) == 0x193
      && Times(0x204, 0x193) == 0x16d
    ensures Times(0x193, 0x219) == 0x356
  {
  }

  lemma MoreProducts()
    ensures Times(0x029, 0x020) == 0x017 && Times(0x0d1, 0x2a3) == 0x063 && Times(0x16d, 0x063) == 0x123
      && Times(0x2ba, 0x123) == 0x1bd
  {
  }

  /** Some powers, by products of smaller ones. */
  lemma SomePowers()
    ensures Exp(1) == 0x020 && Exp(1024) == 0x020
    ensures Exp(33) == 0x017 && Exp(93) == 0x356 && Exp(341) == 0x16d && Exp(997) == 0x1bd
  {
    Squares();
    MoreSquares();
    Products();
    MoreProducts();
    FirstPower();
    hide Exp, Times;
    ExpAdd(1, 1);
    ExpAdd(2, 2);
    ExpAdd(4, 4);
    ExpAdd(8, 8);
    ExpAdd(16, 16);
    ExpAdd(32, 32);
    ExpAdd(64, 64);
    ExpAdd(128, 128);
    ExpAdd(256, 256);
    ExpAdd(512, 512);
    ExpAdd(4, 1);
    ExpAdd(16, 5);
    ExpAdd(64, 21);
    ExpAdd(256, 85);
    ExpAdd(85, 8);
    ExpAdd(32, 1);
    ExpAdd(128, 16);
    ExpAdd(341, 144);
    ExpAdd(512, 485);
  }

  lemma FirstPower()
    ensures Exp(0) == 1 && Exp(1) == 0x020
  {
  }


  lemma TimesOne(u: Element)
    ensures Times(u, Exp(0)) == u
  {
    hide Times, Low;
    FirstPower();
    TimesOneMap(u);
  }

  lemma TimesOneMap(u: Element)
    ensures Times(u, 1) == u
  {
  }

  /** No product of an element other than zero with e, or with these powers less one, is zero. */
  lemma NoZeroProducts(u: Element)
    ensures Times(u, 0x020) == 0 ==> u == 0
    ensures Times(u, 0x017) == u ==> u == 0
    ensures Times(u, 0x356) == u ==> u == 0
    ensures Times(u, 0x16d) == u ==> u == 0
  {
    FirstFactor(u);
    FixedBy33(u);
    FixedBy93(u);
    FixedBy341(u);
    hide Times;
  }

  lemma FirstFactor(u: Element)
    ensures Times(u, 0x020) == 0 ==> u == 0
  {
  }

  lemma FixedBy33(u: Element)
    ensures Times(u, 0x017) == u ==> u == 0
  {
  }

  lemma FixedBy93(u: Element)
    ensures Times(u, 0x356) == u ==> u == 0
  {
  }

  lemma FixedBy341(u: Element)
    ensures Times(u, 0x16d) == u ==> u == 0
  {
  }

  lemma TimesZero(c: bv32)
    ensures Times(0, c) == 0
  {
    hide Times, Add;
    TimesLinear(0, 0, c);
    AddLaws(0, 0);
    AddLaws(Times(0, c), Times(0, c));
  }

  /** Multiplying by a power loses nothing. */
  lemma {:induction false} ExpNotZero(u: Element, n: nat)
    requires Times(u, Exp(n)) == 0
    ensures u == 0
  {
    hide Times, Exp;
    if n == 0 {
      TimesOne(u);
    } else {
      TimesExp(u, n - 1, 1);
      SomePowers();
      NoZeroProducts(Times(u, Exp(n - 1)));
      ExpNotZero(u, n - 1);
    }
  }

  lemma ExpInjective(u: Element, v: Element, n: nat)
    requires Times(u, Exp(n)) == Times(v, Exp(n))
    ensures u == v
  {
    hide Times, Exp, Add;
    TimesLinear(u, v, Exp(n));
    AddLaws(Times(u, Exp(n)), Times(v, Exp(n)));
    ExpNotZero(Add(u, v), n);
    AddLaws(u, v);
  }

  // ---------------------------------------------------------------- the order

  predicate Fixed(u: Element, n: nat) { Times(u, Exp(n)) == u }

  lemma FixedSum(u: Element, m: nat, n: nat)
    requires Fixed(u, m)
    ensures Fixed(u, m + n) <==> Fixed(u, n)
  {
    hide Times, Exp;
    TimesExp(u, m, n);
  }

  lemma {:induction false} FixedMultiple(u: Element, n: nat, k: nat)
    requires Fixed(u, n)
    ensures n * k >= 0 && Fixed(u, n * k)
    decreases k
  {
    hide Times, Exp, Fixed;
    if k == 0 {
      FixedByOne(u);
    } else {
      FixedMultiple(u, n, k - 1);
      FixedSum(u, n, n * (k - 1));
      assert n + n * (k - 1) == n * k;
    }
  }

  lemma FixedByOne(u: Element)
    ensures Fixed(u, 0)
  {
    hide Times, Exp;
    TimesOne(u);
  }

  /** The power 1023 is one. */
  lemma FullCircle(u: Element)
    ensures Fixed(u, 1023)
  {
    hide Times, Exp;
    TimesExp(u, 1023, 1);
    SomePowers();
    ExpInjective(Times(u, Exp(1023)), u, 1);
  }

  predicate NoDivisor(p: nat, d: nat)
    requires d > 0
    decreases p - d
  {
    d >= p || (p % d != 0 && NoDivisor(p, d + 1))
  }

  lemma {:induction false} NotDivided(p: nat, d: nat, r: nat)
    requires 0 < d <= r < p && NoDivisor(p, d)
    ensures p % r != 0
    decreases r - d
  {
    if d < r {
      NotDivided(p, d + 1, r);
    }
  }

  /** What keeps u through n * p and n * r steps, for a prime p, keeps it through n steps. */
  lemma {:induction false} FixedByGcd(u: Element, n: nat, r: nat, p: nat)
    requires 0 < r < p && NoDivisor(p, 2) && n * r >= 0 && n * p >= 0 && Fixed(u, n * r) && Fixed(u, n * p)
    ensures Fixed(u, n)
    decreases r
  {
    hide Times, Exp, Fixed;
    if r > 1 {
      var q, s := p / r, p % r;
      NotDivided(p, 2, r);
      FixedMultiple(u, n * r, q);
      Remaining(n, p, q, r, s);
      FixedSum(u, n * r * q, n * s);
      FixedByGcd(u, n, s, p);
    }
  }

  lemma Remaining(n: nat, p: nat, q: nat, r: nat, s: nat)
    requires p == r * q + s
    ensures n * s >= 0 && n * r * q >= 0 && n * p == n * r * q + n * s
  {
  }

  /** If m is no multiple of the prime p, and n * p is 1023, then m steps keep u only if n steps do. */
  lemma FixedByPart(u: Element, m: nat, n: nat, p: nat, q: nat, r: nat)
    requires n * p == 1023 && 0 < r < p && NoDivisor(p, 2) && m == p * q + r && Fixed(u, m)
    ensures Fixed(u, n)
  {
    hide Times, Exp, Fixed, NoDivisor;
    FixedMultiple(u, m, n);
    FullCircle(u);
    FixedMultiple(u, 1023, q);
    Remaining(n, m, q, p, r);
    FixedSum(u, n * p * q, n * r);
    FixedByGcd(u, n, r, p);
  }

  lemma Primes()
    ensures NoDivisor(3, 2) && NoDivisor(11, 2) && NoDivisor(31, 2)
  {
    assert NoDivisor(31, 20);
    assert NoDivisor(31, 10);
  }

  /** Fewer than 1023 steps move every element but zero. */
  lemma OrderIsFull(u: Element, m: nat)
    requires 0 < m < 1023 && Fixed(u, m)
    ensures u == 0
  {
    hide Times, Exp, NoDivisor;
    Primes();
    SomePowers();
    NoZeroProducts(u);
    if m % 3 != 0 {
      FixedByPart(u, m, 341, 3, m / 3, m % 3);
    } else if m % 11 != 0 {
      FixedByPart(u, m, 93, 11, m / 11, m % 11);
    } else {
      assert m % 31 != 0;
      FixedByPart(u, m, 33, 31, m / 31, m % 31);
    }
  }

  lemma PowersDiffer(u: Element, m: nat, n: nat)
    requires m < n < m + 1023 && Times(u, Exp(m)) == Times(u, Exp(n))
    ensures u == 0
  {
    hide Times, Exp;
    TimesExp(u, n - m, m);
    ExpInjective(Times(u, Exp(n - m)), u, m);
    OrderIsFull(u, n - m);
  }
}
