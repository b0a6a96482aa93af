/** When the address manager takes up an address that it hears of, and what it then knows of it. */
module AddrManAdding {
  import opened Basics
  import opened Powers
  import opened AddrManState
  import opened AddrManInvariant
  import opened AddrManOps
  import opened AddrManEffects

  // ---------------------------------------------------------------- the random test

  lemma {:induction false} FactorIsPower(r: nat)
    ensures Factor(r) == Pow2(r)
  {
    if r > 0 {
      FactorIsPower(r - 1);
    }
  }

  /** With `r` references exactly one of 2^r successive numbers passes the test: it gets twice as hard with
      each reference. */
  lemma OneDrawPasses(r: nat, from: nat) returns (draw: nat)
    ensures from <= draw < from + Pow2(r) && draw % Factor(r) == 0
    ensures forall d: nat :: from <= d < from + Pow2(r) && d % Factor(r) == 0 ==> d == draw
  {
    FactorIsPower(r);
    draw := NextMultiple(from, Pow2(r));
    hide Pow2, Factor;
  }

  lemma NextMultiple(from: nat, n: nat) returns (m: nat)
    requires n > 0
    ensures from <= m < from + n && m % n == 0
    ensures forall d: nat :: from <= d < from + n && d % n == 0 ==> d == m
  {
    var q := (from + n - 1) / n;
    m := q * n;
    MultipleIs(q, n);
    assert q * n <= from + n - 1 < q * n + n;
    forall d: nat | from <= d < from + n && d % n == 0 ensures d == m {
      NextTo(d / n, q, n);
      assert d == d / n * n;
    }
  }

  lemma MultipleIs(q: nat, n: nat)
    requires n > 0
    ensures q * n % n == 0
  {
    var r := q * n / n;
    assert q * n == r * n + q * n % n;
    if r != q { NextTo(r, q, n); assert false; }
  }

  /** Different multiples are apart. */
  lemma NextTo(p: int, q: int, n: nat)
    requires n > 0
    ensures p < q ==> p * n + n <= q * n
    ensures p > q ==> q * n + n <= p * n
  {
    if p < q {
      MulLeq(p + 1, q, n);
    } else if p > q {
      MulLeq(q + 1, p, n);
    }
  }

  // ---------------------------------------------------------------- the slot

  /** Insert takes a slot that is free, or whose holder is another entry that is terrible, or has further
      references while the newcomer has none; and leaves everything alone if it does not take it, unless the
      entry has no reference at all. */
  lemma InsertDecides(h: Hashing, s: State, id: int, source: NetAddr, now: int)
    requires Core(h, s, {}, {id}) && id in s.info && !s.info[id].inTried
    ensures var (t, added) := Insert(h, s, id, source, now); var slot := h.HomeSlot(s.info[id].svc, source);
      && (slot in s.newTable ==> s.newTable[slot] in s.info)
      && (added <==>
            slot in s.newTable ==>
              && s.newTable[slot] != id
              && var there := s.info[s.newTable[slot]];
                 IsTerrible(there, now) || (there.refCount > 1 && s.info[id].refCount == 0))
      && (!added && s.info[id].refCount > 0 ==> t == s)
      && (!added && s.info[id].refCount <= 0 ==> id !in t.info)
      && (added ==> id in t.info && Recounted(s.info[id], t.info[id]) && t.info[id].refCount == s.info[id].refCount + 1)
  {
    hide Core, Bump, ClearNew, Delete, IndexOk, CanDelete, IsTerrible;
    var slot := h.HomeSlot(s.info[id].svc, source);
    CoreEntry(h, s, {}, {id}, id);
    CoreClear(h, s, {}, {id}, slot);
    if slot in s.newTable { CoreNewSlot(h, s, {}, {id}, slot); }
    InsertEntries(h, s, id, source, now);
    DeletedEntries(h, s, id);
    if slot in s.newTable && s.newTable[slot] == id {
      HeldIsCounted(h, s, id, slot);
    }
  }

  lemma HeldIsCounted(h: Hashing, s: State, id: int, slot: Slot)
    requires Core(h, s, {}, {id}) && slot in s.newTable && s.newTable[slot] == id
    ensures id in s.info && s.info[id].refCount > 0
  {
    CoreSlot(h, s, slot, {}, {id});
  }

  // ---------------------------------------------------------------- an address already known

  /** The time that an entry has after its address was announced again: it moves up if it is more than an
      hour behind, or a day for an address that was not online in the last day, not counting the penalty. */
  function TimeAfter(e: Info, a: Address, penalty: int, now: int): int {
    var allowance := penalty + if a.time > now - 24 * 3600 then 3600 else 24 * 3600;
    if a.time - e.time > allowance then Max(0, a.time - penalty) else e.time
  }

  /** A source that announces itself pays no penalty. */
  function Penalty(a: Address, source: NetAddr, timePenalty: int): int {
    if a.svc.net == source then 0 else timePenalty
  }

  /** The announcement is still news, the entry is not tried and has fewer than eight references, and the
      number drawn is a multiple of two to the power of their number. */
  ghost predicate MayGain(e: Info, a: Address, penalty: int, now: int, draw: nat) {
    && a.time > TimeAfter(e, a, penalty, now) && !e.inTried && 0 <= e.refCount < 8
    && draw % Factor(e.refCount) == 0
  }

  lemma RefreshedIs(e: Info, a: Address, penalty: int, now: int)
    ensures Refreshed(e, a, penalty, now)
         == e.(time := TimeAfter(e, a, penalty, now), services := e.services | a.services)
  {
  }

  /** The slot is free, or another entry holds it that is terrible. */
  ghost predicate Yields(s: State, id: int, slot: Slot, now: int) {
    slot in s.newTable ==>
      && s.newTable[slot] != id && s.newTable[slot] in s.info
      && IsTerrible(s.info[s.newTable[slot]], now)
  }

  /** What became of a known entry. */
  ghost predicate KnownResult(h: Hashing, s: State, t: State, id: int, a: Address, source: NetAddr, penalty: int,
                              now: int, draw: nat, added: bool)
    requires id in s.info
  {
    var e := s.info[id];
    var slot := h.HomeSlot(a.svc, source);
    && (added <==> MayGain(e, a, penalty, now, draw) && Yields(s, id, slot, now))
    && id in t.info
    && t.info[id] == e.(time := TimeAfter(e, a, penalty, now), services := e.services | a.services,
                        refCount := e.refCount + One(added), randomPos := t.info[id].randomPos)
    && (!added ==> t == s.(info := s.info[id := t.info[id]]) && t.info[id].randomPos == e.randomPos)
  }

  lemma StaysResult(h: Hashing, s: State, id: int, a: Address, source: NetAddr, penalty: int, now: int, draw: nat)
    requires id in s.info
    requires var slot := h.HomeSlot(a.svc, source); slot in s.newTable ==> s.newTable[slot] in s.info
    requires !(MayGain(s.info[id], a, penalty, now, draw) && Yields(s, id, h.HomeSlot(a.svc, source), now))
    ensures var t := SetInfo(s, id, Refreshed(s.info[id], a, penalty, now));
      KnownResult(h, s, t, id, a, source, penalty, now, draw, false)
  {
    hide MayGain, IsTerrible, TimeAfter, Refreshed;
    RefreshedIs(s.info[id], a, penalty, now);
  }

  lemma GainsResult(h: Hashing, s: State, t: State, id: int, a: Address, source: NetAddr, penalty: int, now: int,
                    draw: nat)
    requires id in s.info && id in t.info && MayGain(s.info[id], a, penalty, now, draw)
    requires Yields(s, id, h.HomeSlot(a.svc, source), now)
    requires var e := Refreshed(s.info[id], a, penalty, now);
      Recounted(e, t.info[id]) && t.info[id].refCount == e.refCount + 1
    ensures KnownResult(h, s, t, id, a, source, penalty, now, draw, true)
  {
    hide MayGain, IsTerrible, TimeAfter, Refreshed, Recounted;
    RefreshedIs(s.info[id], a, penalty, now);
    RecountedIs(Refreshed(s.info[id], a, penalty, now), t.info, id);
  }

  lemma KnownGains(h: Hashing, s: State, id: int, a: Address, source: NetAddr, penalty: int, now: int, draw: nat)
    requires Core(h, s, {}, {}) && id in s.info && s.info[id].svc == a.svc && MayGain(s.info[id], a, penalty, now, draw)
    ensures var u := SetInfo(s, id, Refreshed(s.info[id], a, penalty, now));
      && Core(h, u, {}, {id})
      && var (t, added) := Insert(h, u, id, source, now); KnownResult(h, s, t, id, a, source, penalty, now, draw, added)
  {
    hide Core, IsTerrible, TimeAfter, Refreshed, Insert, Factor, Recounted, KnownResult;
    var e := Refreshed(s.info[id], a, penalty, now);
    var u := SetInfo(s, id, e);
    RefreshedIs(s.info[id], a, penalty, now);
    CoreEntry(h, s, {}, {}, id);
    RefreshKeepsCore(h, s, id, a, penalty, now);
    LoosenCore(h, u, id);
    InsertDecides(h, u, id, source, now);
    hide MayGain;
    var (t, added) := Insert(h, u, id, source, now);
    if added {
      GainsResult(h, s, t, id, a, source, penalty, now, draw);
    } else {
      StaysResult(h, s, id, a, source, penalty, now, draw);
    }
  }

  lemma WantsMoreIs(e: Info, a: Address, penalty: int, now: int, draw: nat)
    requires e.refCount <= 8 && (e.inTried || e.refCount >= 0)
    ensures WantsMore(Refreshed(e, a, penalty, now), a, draw) <==> MayGain(e, a, penalty, now, draw)
  {
    RefreshedIs(e, a, penalty, now);
    hide Refreshed, TimeAfter, Factor;
  }

  /** A known address is taken up again exactly if it may gain a reference and its slot for this source is
      free or held by another entry that is terrible; time and services are updated in any case. */
  lemma AddKnownDecides(h: Hashing, s: State, a: Address, source: NetAddr, timePenalty: int, now: int, draw: nat)
    requires Core(h, s, {}, {}) && h.isRoutable(a.svc) && a.svc in s.addr
    ensures s.addr[a.svc] in s.info
    ensures var (t, added) := AddSingle(h, s, a, source, timePenalty, now, draw);
      KnownResult(h, s, t, s.addr[a.svc], a, source, Penalty(a, source, timePenalty), now, draw, added)
  {
    hide Core, Insert, Refreshed, WantsMore, MayGain, KnownResult;
    CoreAddress(h, s, {}, {}, a.svc);
    var id := s.addr[a.svc];
    var penalty := Penalty(a, source, timePenalty);
    CoreEntry(h, s, {}, {}, id);
    WantsMoreIs(s.info[id], a, penalty, now, draw);
    if MayGain(s.info[id], a, penalty, now, draw) {
      KnownGains(h, s, id, a, source, penalty, now, draw);
    } else {
      var slot := h.HomeSlot(a.svc, source);
      if slot in s.newTable { CoreNewSlot(h, s, {}, {}, slot); }
      StaysResult(h, s, id, a, source, penalty, now, draw);
    }
  }

  lemma RecountedIs(e: Info, infoT: Infos, id: int)
    ensures id in infoT && Recounted(e, infoT[id]) ==>
      infoT[id] == e.(randomPos := infoT[id].randomPos, refCount := infoT[id].refCount)
  {
  }

  // ---------------------------------------------------------------- a new address

  /** An unknown address is taken up exactly if the slot that its source gives it is free, or its holder is
      terrible or has another reference; otherwise it is forgotten at once.  It starts without attempts, with
      one reference, and a time that is never negative. */
  lemma AddUnknownDecides(h: Hashing, s: State, a: Address, source: NetAddr, timePenalty: int, now: int, draw: nat)
    requires Core(h, s, {}, {}) && h.isRoutable(a.svc) && a.svc !in s.addr
    ensures var (t, added) := AddSingle(h, s, a, source, timePenalty, now, draw);
      var penalty := Penalty(a, source, timePenalty); var slot := h.HomeSlot(a.svc, source); var id := s.idCount;
      && (slot in s.newTable ==> s.newTable[slot] in s.info)
      && (added <==>
            slot in s.newTable ==>
              var there := s.info[s.newTable[slot]]; IsTerrible(there, now) || there.refCount > 1)
      && (added ==>
            && id in t.info
            && t.info[id] == Info(a.svc, Max(0, a.time - penalty), a.services, source, 0, 0, 0, 0, 1, false,
                                  t.info[id].randomPos))
      && (!added ==> id !in t.info)
  {
    hide Core, Insert, Bump, Recounted, IsTerrible, Created;
    var penalty := Penalty(a, source, timePenalty);
    var u, id := Created(h, s, a, source, penalty), s.idCount;
    CreatedKeepsCore(h, s, a, source, penalty);
    CreatedEntry(h, s, a, source, penalty);
    CreatedIs(h, s, a, source, penalty);
    NewIdUnknown(h, s);
    InsertDecides(h, u, id, source, now);
    RecountedIs(u.info[id], Insert(h, u, id, source, now).0.info, id);
  }

  lemma CreatedIs(h: Hashing, s: State, a: Address, source: NetAddr, penalty: int)
    ensures var u, id := Created(h, s, a, source, penalty), s.idCount;
      && id in u.info
      && u.info[id] == Info(a.svc, Max(0, a.time - penalty), a.services, source, 0, 0, 0, 0, 0, false, |s.rnd|)
  {
    hide Bump;
  }
}
