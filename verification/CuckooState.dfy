/** The cuckoo cache as a value: a table with eight possible places for each element, lazy deletion
    flags, and epochs that age the entries.  The hash is any function to 32-bit words. */
module CuckooState {
  import opened Basics

  const WORD := 0x1_0000_0000
  type U32 = x: int | 0 <= x < WORD

  const HASHES := 8

  /** What does not change after setup. */
  datatype Config<!E> = Config(size: nat, hash: (E, nat) -> U32, depthLimit: nat, epochSize: nat)

  datatype Cache<E> = Cache(table: seq<E>, collected: seq<bool>, epoch: seq<bool>, counter: nat)

  function FastRange32(x: U32, n: nat): nat { x * n / WORD }

  lemma FastRangeBelow(x: U32, n: nat)
    requires n > 0
    ensures FastRange32(x, n) < n
  {
    var gap := WORD - 1 - x;
    assert gap * n >= 0;
    assert gap * n == WORD * n - n - x * n;
  }

  /** The first word that is reduced to `j` or more. */
  function RangeStart(j: nat, n: nat): nat
    requires n > 0
  {
    (j * WORD + n - 1) / n
  }

  /** The words that are reduced to one number are consecutive, and their number is 2^32 / n rounded down
      or up: every place is as likely as any other, up to one word. */
  lemma FastRangeFair(x: U32, n: nat, j: nat)
    requires n > 0
    ensures FastRange32(x, n) == j <==> RangeStart(j, n) <= x < RangeStart(j + 1, n)
    ensures WORD / n <= RangeStart(j + 1, n) - RangeStart(j, n) <= WORD / n + 1
  {
    RoundedUp(j * WORD, n, x);
    RoundedUp(j * WORD + WORD, n, x);
    RangeLength(j * WORD + n - 1, WORD, n);
    hide RangeStart;
    RangeStarts(j, n);
  }

  lemma RangeStarts(j: nat, n: nat)
    requires n > 0
    ensures RangeStart(j, n) == (j * WORD + n - 1) / n
    ensures RangeStart(j + 1, n) == (j * WORD + WORD + n - 1) / n
  {
  }

  lemma RoundedUp(a: nat, n: nat, x: nat)
    requires n > 0
    ensures (a + n - 1) / n <= x <==> a <= x * n
  {
    var q := (a + n - 1) / n;
    Quotient(a + n - 1, n);
    if q <= x {
      MulLeq(q, x, n);
    } else {
      MulLeq(x + 1, q, n);
      OneLess(x, n);
    }
  }

  lemma OneLess(x: nat, n: nat)
    ensures (x + 1) * n == x * n + n
  {
  }

  lemma Quotient(a: nat, n: nat)
    requires n > 0
    ensures a / n * n <= a < a / n * n + n
  {
  }

  lemma QuotientIs(a: nat, n: nat, q: nat)
    requires n > 0 && q * n <= a < q * n + n
    ensures a / n == q
  {
    Quotient(a, n);
    if a / n < q {
      MulLeq(a / n + 1, q, n);
      OneLess(a / n, n);
    } else if a / n > q {
      MulLeq(q + 1, a / n, n);
      OneLess(q, n);
    }
  }

  lemma RangeLength(a: nat, w: nat, n: nat)
    requires n > 0
    ensures w / n <= (a + w) / n - a / n <= w / n + 1
  {
    var p, q := a / n, w / n;
    Quotient(a, n);
    Quotient(w, n);
    Distributed(p, q, n);
    OneLess(p + q, n);
    QuotientIs(a + w, n, if a + w < p * n + q * n + n then p + q else p + q + 1);
  }

  lemma Distributed(p: nat, q: nat, n: nat)
    ensures (p + q) * n == p * n + q * n
  {
  }

  predicate Ready<E>(cfg: Config<E>) { cfg.size >= 2 && cfg.depthLimit >= 1 && cfg.epochSize >= 1 }

  /** The k-th place where an element may be. */
  function Loc<E>(cfg: Config<E>, e: E, k: nat): (i: nat)
    requires Ready(cfg)
    ensures i < cfg.size
  {
    FastRangeBelow(cfg.hash(e, k), cfg.size);
    FastRange32(cfg.hash(e, k), cfg.size)
  }

  /** It is the one whose words include the k-th hash of the element. */
  lemma LocIs<E>(cfg: Config<E>, e: E, k: nat)
    requires Ready(cfg)
    ensures var i := Loc(cfg, e, k); RangeStart(i, cfg.size) <= cfg.hash(e, k) < RangeStart(i + 1, cfg.size)
  {
    FastRangeFair(cfg.hash(e, k), cfg.size, Loc(cfg, e, k));
  }

  predicate Shaped<E>(cfg: Config<E>, c: Cache<E>) {
    Ready(cfg) && |c.table| == |c.collected| == |c.epoch| == cfg.size
  }

  // ---------------------------------------------------------------- setup

  /** 45% of the table, computed in 32-bit arithmetic. */
  function EpochSize(size: nat): nat {
    var share := 45 * size % WORD / 100;
    if share < 1 then 1 else share
  }

  // ---------------------------------------------------------------- ageing

  /** How many of the first `n` entries belong to the current epoch and are not erased. */
  function CountRecent(collected: seq<bool>, epoch: seq<bool>, n: nat): nat
    requires n <= |collected| == |epoch|
  {
    if n == 0 then 0
    else CountRecent(collected, epoch, n - 1) + (if epoch[n - 1] && !collected[n - 1] then 1 else 0)
  }

  function Recent<E>(c: Cache<E>): nat
    requires |c.collected| == |c.epoch|
  {
    CountRecent(c.collected, c.epoch, |c.epoch|)
  }

  /** The old epoch may be overwritten, and the current epoch becomes the old one. */
  function Aged<E>(cfg: Config<E>, c: Cache<E>): (d: Cache<E>)
    requires Shaped(cfg, c)
    ensures Shaped(cfg, d) && d.table == c.table
  {
    c.(collected := seq(cfg.size, i requires 0 <= i < cfg.size => c.collected[i] || !c.epoch[i]),
       epoch := seq(cfg.size, _ => false))
  }

  function EpochCheck<E>(cfg: Config<E>, c: Cache<E>): (d: Cache<E>)
    requires Shaped(cfg, c)
    ensures Shaped(cfg, d) && d.table == c.table
  {
    if c.counter != 0 then c.(counter := c.counter - 1)
    else if Recent(c) >= cfg.epochSize then
      Aged(cfg, c).(counter := cfg.epochSize)
    else
      c.(counter := Max(1, Max(cfg.epochSize / 16, cfg.epochSize - Recent(c))))
  }

  // ---------------------------------------------------------------- looking up and inserting

  /** The first of the places from the k-th on that holds the element; HASHES if none does. */
  function FindFrom<E(==)>(cfg: Config<E>, c: Cache<E>, e: E, k: nat): (r: nat)
    requires Shaped(cfg, c) && k <= HASHES
    ensures k <= r <= HASHES
    decreases HASHES - k
  {
    if k == HASHES || c.table[Loc(cfg, e, k)] == e then k else FindFrom(cfg, c, e, k + 1)
  }

  /** The first of the places from the k-th on that is open; HASHES if none is. */
  function OpenFrom<E>(cfg: Config<E>, c: Cache<E>, e: E, k: nat): (r: nat)
    requires Shaped(cfg, c) && k <= HASHES
    ensures k <= r <= HASHES
    decreases HASHES - k
  {
    if k == HASHES || c.collected[Loc(cfg, e, k)] then k else OpenFrom(cfg, c, e, k + 1)
  }

  /** Where a location is among the places of an element; HASHES if it is not one of them. */
  function PlaceOf<E>(cfg: Config<E>, e: E, loc: int, k: nat): (r: nat)
    requires Ready(cfg) && k <= HASHES
    ensures k <= r <= HASHES
    decreases HASHES - k
  {
    if k == HASHES || Loc(cfg, e, k) == loc then k else PlaceOf(cfg, e, loc, k + 1)
  }

  function Settle<E>(c: Cache<E>, e: E, i: nat, recent: bool): Cache<E>
    requires i < |c.table| == |c.collected| == |c.epoch|
  {
    c.(table := c.table[i := e], collected := c.collected[i := false], epoch := c.epoch[i := recent])
  }

  /** The element goes where another one is; the place keeps its collection flag. */
  function Swapped<E>(c: Cache<E>, e: E, i: nat, recent: bool): Cache<E>
    requires i < |c.table| == |c.epoch|
  {
    c.(table := c.table[i := e], epoch := c.epoch[i := recent])
  }

  /** The place to displace from next: the one after the place looked at last, wrapping around. */
  function NextLoc<E>(cfg: Config<E>, e: E, last: int): (i: nat)
    requires Ready(cfg)
    ensures i < cfg.size
  {
    Loc(cfg, e, (1 + PlaceOf(cfg, e, last, 0)) % HASHES)
  }

  /** The displacement loop with `depth` turns to go and element `e` in hand.  Returns the element that
      is dropped when the turns run out, if any. */
  function Displace<E>(cfg: Config<E>, c: Cache<E>, e: E, last: int, recent: bool, depth: nat): (Cache<E>, seq<E>)
    requires Shaped(cfg, c)
    decreases depth
  {
    if depth == 0 then (c, [e])
    else
      var k := OpenFrom(cfg, c, e, 0);
      if k < HASHES then (Settle(c, e, Loc(cfg, e, k), recent), [])
      else
        var i := NextLoc(cfg, e, last);
        Displace(cfg, Swapped(c, e, i, recent), c.table[i], i, c.epoch[i], depth - 1)
  }

  function Insert<E(==)>(cfg: Config<E>, c: Cache<E>, e: E): (Cache<E>, seq<E>)
    requires Shaped(cfg, c)
  {
    var d := EpochCheck(cfg, c);
    var k := FindFrom(cfg, d, e, 0);
    if k < HASHES then (Settle(d, e, Loc(cfg, e, k), true), [])
    else Displace(cfg, d, e, -1, true, cfg.depthLimit)
  }

  function Contains<E(==)>(cfg: Config<E>, c: Cache<E>, e: E): bool
    requires Shaped(cfg, c)
  {
    FindFrom(cfg, c, e, 0) < HASHES
  }

  /** A lookup that lets the found entry be erased. */
  function Erase<E(==)>(cfg: Config<E>, c: Cache<E>, e: E): Cache<E>
    requires Shaped(cfg, c)
  {
    var k := FindFrom(cfg, c, e, 0);
    if k < HASHES then c.(collected := c.collected[Loc(cfg, e, k) := true]) else c
  }
}
