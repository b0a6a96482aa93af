/** The operations of the address manager as functions on its state, with the proof that each keeps
    the invariant, and with it that every run does. */
module AddrManOps {
  import opened Basics
  import opened AddrManState
  import opened AddrManInvariant

  // ---------------------------------------------------------------- MakeTried

  /** The bucket that MakeTried's loop visits in its `n`-th turn. */
  function Visit(start: NewBucket, n: nat): NewBucket { (start + n) % NEW_BUCKETS }

  /** MakeTried's loop: visits the buckets from `start + n` on, wrapping around, and takes every
      reference to the entry out of the new table; stops early when the count reaches zero. */
  function Strip(h: Hashing, s: State, id: int, start: NewBucket, n: nat): State
    requires id in s.info && n <= NEW_BUCKETS
    decreases NEW_BUCKETS - n
  {
    if n == NEW_BUCKETS then s
    else
      var slot := h.NewSlot(s.info[id].svc, Visit(start, n));
      if slot in s.newTable && s.newTable[slot] == id then
        var t := DropSlot(s, slot);
        if t.info[id].refCount == 0 then t else Strip(h, t, id, start, n + 1)
      else Strip(h, s, id, start, n + 1)
  }

  lemma StripTurn(h: Hashing, s: State, t: State, id: int, start: NewBucket, n: nat)
    requires id in s.info && n < NEW_BUCKETS
    requires var slot := h.NewSlot(s.info[id].svc, Visit(start, n));
      t == if slot in s.newTable && s.newTable[slot] == id then DropSlot(s, slot) else s
    ensures id in t.info
    ensures t != s && t.info[id].refCount == 0 ==> Strip(h, s, id, start, n) == t
    ensures t == s || t.info[id].refCount != 0 ==> Strip(h, s, id, start, n) == Strip(h, t, id, start, n + 1)
  {
  }

  lemma StripEnds(h: Hashing, s: State, id: int, start: NewBucket)
    requires id in s.info
    ensures Strip(h, s, id, start, NEW_BUCKETS) == s
  {
  }

  ghost function Without(table: Table, id: int): Table {
    map t | t in table && table[t] != id :: table[t]
  }

  lemma WithoutDropped(table: Table, slot: Slot)
    requires slot in table
    ensures Without(table - {slot}, table[slot]) == Without(table, table[slot])
  {
  }

  /** The entry has lost all its references, and nothing else happened. */
  ghost predicate Stripped(s: State, t: State, id: int)
    requires id in s.info
  {
    && t.info == s.info[id := s.info[id].(refCount := 0)]
    && t == s.(info := t.info, newTable := Without(s.newTable, id))
  }

  lemma NothingToStrip(h: Hashing, s: State, id: int)
    requires Core(h, s, {}, {id}) && id in s.info && s.info[id].refCount == 0
    ensures Stripped(s, s, id)
  {
    hide IndexOk, TriedOk, NewSlotsOk, RefsOk, CountsOk, TimesOk, Held;
    CountIsHeld(h, s, id);
    UnreferencedNotHeld(h, s.info, s.newTable, id);
    assert Without(s.newTable, id) == s.newTable;
  }

  lemma StripOne(h: Hashing, s: State, slot: Slot, id: int)
    requires Core(h, s, {}, {id}) && slot in s.newTable && s.newTable[slot] == id && id in s.info
    ensures Core(h, DropSlot(s, slot), {}, {id})
    ensures forall u :: Stripped(DropSlot(s, slot), u, id) ==> Stripped(s, u, id)
  {
    hide Core;
    assert {id} + {id} == {id};
    DropSlotKeepsCore(h, s, slot, {}, {id});
    WithoutDropped(s.newTable, slot);
  }

  /** The loop removes exactly the references to the entry, and its count ends at zero. */
  lemma {:induction false} StripRemovesAll(h: Hashing, s: State, id: int, start: NewBucket, n: nat)
    requires Core(h, s, {}, {id}) && id in s.info && n <= NEW_BUCKETS
    requires forall m :: 0 <= m < n ==> !HeldAt(h, s.newTable, id, s.info[id].svc, Visit(start, m))
    ensures var t := Strip(h, s, id, start, n); Core(h, t, {}, {id}) && Stripped(s, t, id)
    decreases NEW_BUCKETS - n
  {
    hide Core, Stripped;
    if n == NEW_BUCKETS {
      NoneHeld(h, s.newTable, id, s.info[id].svc, start);
      CountIsHeld(h, s, id);
      NothingToStrip(h, s, id);
    } else {
      var slot := h.NewSlot(s.info[id].svc, Visit(start, n));
      if slot in s.newTable && s.newTable[slot] == id {
        var t := DropSlot(s, slot);
        StripOne(h, s, slot, id);
        if t.info[id].refCount == 0 {
          NothingToStrip(h, t, id);
        } else {
          StripRemovesAll(h, t, id, start, n + 1);
        }
      } else {
        StripRemovesAll(h, s, id, start, n + 1);
      }
    }
  }

  lemma CountIsHeld(h: Hashing, s: State, id: int)
    requires Core(h, s, {}, {id}) && id in s.info
    ensures s.info[id].refCount == |Held(h, s.newTable, id, s.info[id].svc)|
  {
  }

  lemma NoneHeld(h: Hashing, table: Table, id: int, svc: Service, start: NewBucket)
    requires forall m :: 0 <= m < NEW_BUCKETS ==> !HeldAt(h, table, id, svc, Visit(start, m))
    ensures |Held(h, table, id, svc)| == 0
  {
    forall b | 0 <= b < NEW_BUCKETS ensures !HeldAt(h, table, id, svc, b) {
      var m := (b - start) % NEW_BUCKETS;
      assert Visit(start, m) == b;
    }
    assert Held(h, table, id, svc) == {};
  }

  /** MakeTried's first half: the entry leaves the new table and its counters. */
  lemma TakeOutReady(h: Hashing, s: State, id: int)
    requires Core(h, s, {}, {}) && id in s.info && !s.info[id].inTried
    ensures var t := Strip(h, s, id, h.newBucket(s.info[id].svc, s.info[id].source), 0);
      && Core(h, t, {}, {id}) && Stripped(s, t, id)
      && Core(h, CountNew(h, t, id, -1), {id}, {})
  {
    hide Core;
    LoosenCore(h, s, id);
    hide Strip, Stripped;
    var start := h.newBucket(s.info[id].svc, s.info[id].source);
    StripRemovesAll(h, s, id, start, 0);
    StrippedOut(h, s, Strip(h, s, id, start, 0), id);
  }

  lemma StrippedOut(h: Hashing, s: State, t: State, id: int)
    requires id in s.info && !s.info[id].inTried && Stripped(s, t, id) && Core(h, t, {}, {id})
    ensures Core(h, CountNew(h, t, id, -1), {id}, {})
  {
    hide Core;
    UncountNewKeepsCore(h, t, id, {}, {id});
    var none: set<int> := {};
    assert none + {id} == {id} && {id} - {id} == none;
  }

  lemma LoosenCore(h: Hashing, s: State, id: int)
    requires Core(h, s, {}, {}) && id in s.info && !s.info[id].inTried
    ensures Core(h, s, {}, {id})
  {
    var none: set<int> := {};
    assert none + none == none && {id} + none == {id};
    RefsWeaken(h, s.info, s.newTable, {}, {id});
  }

  ghost function TakeOut(h: Hashing, s: State, id: int): (t: State)
    requires Core(h, s, {}, {}) && id in s.info && !s.info[id].inTried
    ensures Core(h, t, {id}, {}) && id in t.info && t.info[id].refCount == 0
  {
    TakeOutReady(h, s, id);
    CountNew(h, Strip(h, s, id, h.newBucket(s.info[id].svc, s.info[id].source), 0), id, -1)
  }

  // ---------------------------------------------------------------- eviction from the tried table

  /** While `id` waits outside both tables, the entry in a tried slot goes back to the slot of the
      new table that its source gives it; whatever was there loses that reference. */
  lemma EvictDemoted(h: Hashing, s: State, slot: Slot, id: int)
    requires Core(h, s, {id}, {}) && s.info[id].refCount == 0 && slot in s.triedTable
    ensures var ev := s.triedTable[slot];
      && ev in s.info && ev != id && s.info[ev].inTried && s.info[ev].refCount == 0
      && Core(h, Demote(h, s, slot), {id, ev}, {})
  {
    hide Core;
    CoreTriedSlot(h, s, {id}, {}, slot);
    hide Demote;
    DemoteKeepsCore(h, s, slot, {id}, {});
    assert {id} + {s.triedTable[slot]} == {id, s.triedTable[slot]};
  }

  lemma UnreferencedHoldNothing(h: Hashing, s: State, limbo: set<int>, loose: set<int>, id: int, slot: Slot)
    requires Core(h, s, limbo, loose) && id in s.info && s.info[id].refCount == 0 && slot in s.newTable
    ensures s.newTable[slot] != id && s.newTable[slot] in s.info
  {
    CoreNewSlot(h, s, limbo, loose, slot);
  }

  lemma EvictReady(h: Hashing, s: State, slot: Slot, id: int)
    requires Core(h, s, {id}, {}) && s.info[id].refCount == 0 && slot in s.triedTable
    ensures var ev := s.triedTable[slot];
      && ev in s.info && ev != id
      && var t := Demote(h, s, slot);
         var home := h.HomeSlot(s.info[ev].svc, s.info[ev].source);
      && CanClear(t, home)
      && Core(h, ClearNew(h, t, home), {id, ev}, {})
  {
    hide Core;
    EvictDemoted(h, s, slot, id);
    var ev, t := s.triedTable[slot], Demote(h, s, slot);
    var home := h.HomeSlot(s.info[ev].svc, s.info[ev].source);
    assert t.newTable == s.newTable;
    CoreLimbo(h, s, {id}, {}, id);
    if home in s.newTable {
      UnreferencedHoldNothing(h, s, {id}, {}, id, home);
      UnreferencedHoldNothing(h, s, {id}, {}, ev, home);
    }
    hide ClearNew, CanClear, Demote;
    ClearNewKeepsCore(h, t, home, {id, ev}, {});
  }

  ghost function Reenter(h: Hashing, s: State, id: int, home: Slot): State
    requires id in s.info
  {
    CountNew(h, SetInfo(s, id, s.info[id].(refCount := 1)).(newTable := s.newTable[home := id]), id, 1)
  }

  ghost function Evict(h: Hashing, s: State, slot: Slot, id: int): (u: State)
    requires Core(h, s, {id}, {}) && s.info[id].refCount == 0 && slot in s.triedTable
  {
    EvictReady(h, s, slot, id);
    var ev := s.triedTable[slot];
    var home := h.HomeSlot(s.info[ev].svc, s.info[ev].source);
    ClearedStill(h, s, slot, id);
    Reenter(h, ClearNew(h, Demote(h, s, slot), home), ev, home)
  }

  /** Clearing the home slot leaves the two waiting entries alone. */
  lemma ClearedStill(h: Hashing, s: State, slot: Slot, id: int)
    requires Core(h, s, {id}, {}) && s.info[id].refCount == 0 && slot in s.triedTable
    ensures s.triedTable[slot] in s.info
    ensures var ev := s.triedTable[slot]; var t := Demote(h, s, slot);
      var home := h.HomeSlot(s.info[ev].svc, s.info[ev].source);
      && CanClear(t, home)
      && var u := ClearNew(h, t, home);
      && id in u.info && ev in u.info
      && Moved(s.info[id], u.info[id]) && Moved(t.info[ev], u.info[ev])
      && u.newTable == s.newTable - {home} && SameElsewhere(t, u)
      && (home !in s.newTable ==> u == t)
      && (home in s.newTable ==> ClearedOf(t.info, u.info, s.newTable[home]))
  {
    hide Core;
    EvictDemoted(h, s, slot, id);
    var ev := s.triedTable[slot]; var t := Demote(h, s, slot);
    var home := h.HomeSlot(s.info[ev].svc, s.info[ev].source);
    CoreLimbo(h, s, {id}, {}, id);
    assert t.newTable == s.newTable && t.info[id] == s.info[id];
    if home in s.newTable {
      UnreferencedHoldNothing(h, s, {id}, {}, id, home);
      UnreferencedHoldNothing(h, s, {id}, {}, ev, home);
    }
    CoreClear(h, t, {id, ev}, {}, home);
    hide Demote, ClearNew, CanClear, SameElsewhere;
  }

  lemma EvictKeepsCore(h: Hashing, s: State, slot: Slot, id: int)
    requires Core(h, s, {id}, {}) && s.info[id].refCount == 0 && slot in s.triedTable
    ensures Core(h, Evict(h, s, slot, id), {id}, {})
  {
    hide Core;
    EvictDemoted(h, s, slot, id);
    EvictReady(h, s, slot, id);
    ClearedStill(h, s, slot, id);
    var ev := s.triedTable[slot];
    var home := h.HomeSlot(s.info[ev].svc, s.info[ev].source);
    var t := Demote(h, s, slot);
    var u := ClearNew(h, t, home);
    assert t.info[ev].refCount == 0 && !t.info[ev].inTried;
    assert t.info[ev].svc == s.info[ev].svc;
    hide Demote, ClearNew, CanClear;
    ReenterKeepsCore(h, u, ev, home, id);
    hide Reenter;
  }

  lemma ReenterKeepsCore(h: Hashing, u: State, ev: int, home: Slot, id: int)
    requires Core(h, u, {id, ev}, {}) && ev in u.info && ev != id
    requires u.info[ev].refCount == 0 && !u.info[ev].inTried
    requires 0 <= home.bucket < NEW_BUCKETS && home == h.NewSlot(u.info[ev].svc, home.bucket) && home !in u.newTable
    ensures Core(h, Reenter(h, u, ev, home), {id}, {})
  {
    hide Core;
    PlaceNewKeepsCore(h, u, ev, home, {id, ev}, {});
    var v := PlaceNew(u, ev, home);
    var none: set<int> := {};
    assert none - {ev} == none && {id, ev} - {ev} == {id};
    CountNewKeepsCore(h, v, ev, {id, ev}, {});
  }

  // ---------------------------------------------------------------- MakeTried

  predicate MayPromote(s: State, id: int) {
    id in s.info && !s.info[id].inTried && s.info[id].lastSuccess != 0
  }

  ghost function MakeRoom(h: Hashing, s: State, id: int): (v: State)
    requires Core(h, s, {id}, {}) && id in s.info && s.info[id].refCount == 0
    ensures id in v.info
  {
    var slot := h.TriedSlot(s.info[id].svc);
    if slot in s.triedTable then
      ClearedStill(h, s, slot, id);
      Evict(h, s, slot, id)
    else s
  }

  /** Moves an entry from the new table to its slot of the tried table. */
  ghost function MakeTried(h: Hashing, s: State, id: int): State
    requires Core(h, s, {}, {}) && MayPromote(s, id)
  {
    Promote(h, MakeRoom(h, TakeOut(h, s, id), id), id)
  }

  predicate SameWaiting(s: State, t: State) {
    t.collisions == s.collisions && t.idCount == s.idCount && t.lastGood == s.lastGood
  }

  /** What eviction did to the entries: the evicted one is new with one reference, the waiting one is
      untouched, others at most lost a reference, and only the holder of the home slot may be gone. */
  ghost predicate EvictedInfo(info: Infos, infoV: Infos, ev: int, id: int, home: Slot, table: Table) {
    && ev in info && ev in infoV && Moved(info[ev].(inTried := false, refCount := 1), infoV[ev])
    && id in info && id in infoV && Moved(info[id], infoV[id])
    && (forall x :: x in infoV ==> x in info && infoV[x].svc == info[x].svc)
    && (forall x :: x in infoV && x != ev ==> Recounted(info[x], infoV[x]))
    && (forall x :: x in info && x !in infoV ==> home in table && x == table[home])
  }

  lemma ReenterEffect(h: Hashing, u: State, ev: int, home: Slot)
    requires ev in u.info
    ensures var v := Reenter(h, u, ev, home);
      && v.newTable == u.newTable[home := ev] && v.triedTable == u.triedTable && SameWaiting(u, v)
      && v.info == u.info[ev := u.info[ev].(refCount := 1)]
  {
    hide Bump;
  }

  lemma DemoteEffect(h: Hashing, s: State, slot: Slot)
    requires slot in s.triedTable && s.triedTable[slot] in s.info
    ensures var ev := s.triedTable[slot]; var t := Demote(h, s, slot);
      && t.newTable == s.newTable && t.triedTable == s.triedTable - {slot} && SameWaiting(s, t)
      && t.info == s.info[ev := s.info[ev].(inTried := false)]
  {
    hide Bump;
  }

  lemma EvictInfoSteps(info: Infos, infoU: Infos, ev: int, id: int, home: Slot, table: Table)
    requires ev in info && id in info && ev != id && ev in infoU && id in infoU
    requires var infoT := info[ev := info[ev].(inTried := false)];
      && Moved(info[id], infoU[id]) && Moved(infoT[ev], infoU[ev])
      && (home !in table ==> infoU == infoT)
      && (home in table ==> ClearedOf(infoT, infoU, table[home]))
    ensures EvictedInfo(info, infoU[ev := infoU[ev].(refCount := 1)], ev, id, home, table)
  {
  }

  lemma EvictEffect(h: Hashing, s: State, slot: Slot, id: int)
    requires Core(h, s, {id}, {}) && id in s.info && s.info[id].refCount == 0 && slot in s.triedTable
    ensures s.triedTable[slot] in s.info
    ensures var ev := s.triedTable[slot]; var v := Evict(h, s, slot, id);
      var home := h.HomeSlot(s.info[ev].svc, s.info[ev].source);
      && v.newTable == s.newTable[home := ev] && v.triedTable == s.triedTable - {slot} && SameWaiting(s, v)
      && EvictedInfo(s.info, v.info, ev, id, home, s.newTable)
  {
    hide Core;
    EvictDemoted(h, s, slot, id);
    ClearedStill(h, s, slot, id);
    DemoteEffect(h, s, slot);
    var ev, t := s.triedTable[slot], Demote(h, s, slot);
    var home := h.HomeSlot(s.info[ev].svc, s.info[ev].source);
    var u := ClearNew(h, t, home);
    hide Demote, ClearNew, CanClear, ClearedOf, Moved;
    ReenterEffect(h, u, ev, home);
    EvictInfoSteps(s.info, u.info, ev, id, home, s.newTable);
    assert (s.newTable - {home})[home := ev] == s.newTable[home := ev];
    hide Reenter, EvictedInfo;
  }

  lemma MakeTriedKeepsCore(h: Hashing, s: State, id: int)
    requires Core(h, s, {}, {}) && MayPromote(s, id)
    ensures Core(h, MakeTried(h, s, id), {}, {})
  {
    hide Core;
    TakeOutReady(h, s, id);
    var u := TakeOut(h, s, id);
    var slot := h.TriedSlot(s.info[id].svc);
    if slot in u.triedTable {
      EvictKeepsCore(h, u, slot, id);
      EvictEffect(h, u, slot, id);
    }
    var v := MakeRoom(h, u, id);
    assert v.info[id].svc == s.info[id].svc && v.info[id].lastSuccess != 0 && v.info[id].refCount == 0;
    assert slot !in v.triedTable;
    hide TakeOut, MakeRoom, Promote, Evict;
    PromoteKeepsCore(h, v, id, {id}, {});
    var none: set<int> := {};
    assert none - {id} == none && {id} - {id} == none;
  }

  /** Nothing had to make room: only the entry itself changed. */
  ghost predicate MovedAlone(s: State, t: State, id: int) {
    && t.newTable == Without(s.newTable, id)
    && (forall x :: x in s.info ==> x in t.info && (x != id ==> t.info[x] == s.info[x]))
  }

  /** The entry `ev` made room: it is new again with exactly one reference, in its home slot; of all
      other entries only the holder of that slot can have lost anything, and only it can be gone. */
  ghost predicate MadeRoom(s: State, t: State, id: int, ev: int, home: Slot) {
    && t.newTable == Without(s.newTable, id)[home := ev]
    && ev in s.info && ev in t.info && Moved(s.info[ev].(inTried := false, refCount := 1), t.info[ev])
    && (forall x :: x in t.info && x != ev && x != id ==> x in s.info && Recounted(s.info[x], t.info[x]))
    && (forall x :: x in s.info && x !in t.info ==> home in s.newTable && x == s.newTable[home] && x != id)
  }

  /** Everything MakeTried does. */
  lemma MakeTriedAlone(h: Hashing, s: State, id: int)
    requires Core(h, s, {}, {}) && MayPromote(s, id) && h.TriedSlot(s.info[id].svc) !in s.triedTable
    ensures var t := MakeTried(h, s, id);
      && t.triedTable == s.triedTable[h.TriedSlot(s.info[id].svc) := id] && SameWaiting(s, t)
      && id in t.info && Moved(s.info[id].(refCount := 0, inTried := true), t.info[id])
      && (forall x :: x in t.info ==> x in s.info && t.info[x].svc == s.info[x].svc)
      && MovedAlone(s, t, id)
  {
    hide Core, Bump, Evict, Strip;
    TakeOutReady(h, s, id);
  }

  lemma MakeTriedEvicts(h: Hashing, s: State, id: int)
    requires Core(h, s, {}, {}) && MayPromote(s, id) && h.TriedSlot(s.info[id].svc) in s.triedTable
    ensures var t := MakeTried(h, s, id); var slot := h.TriedSlot(s.info[id].svc);
      && t.triedTable == s.triedTable[slot := id] && SameWaiting(s, t)
      && id in t.info && Moved(s.info[id].(refCount := 0, inTried := true), t.info[id])
      && (forall x :: x in t.info ==> x in s.info && t.info[x].svc == s.info[x].svc)
      && s.triedTable[slot] in s.info
      && var ev := s.triedTable[slot];
         MadeRoom(s, t, id, ev, h.HomeSlot(s.info[ev].svc, s.info[ev].source))
  {
    hide Core, Bump, Evict, Strip;
    TakeOutReady(h, s, id);
    var u := TakeOut(h, s, id);
    var slot := h.TriedSlot(s.info[id].svc);
    EvictEffect(h, u, slot, id);
    CoreTriedSlot(h, s, {}, {}, slot);
    PromoteAfterEviction(h, s, u, Evict(h, u, slot, id), id, s.triedTable[slot]);
    hide MadeRoom, EvictedInfo, Without;
  }

  lemma MakeTriedEffect(h: Hashing, s: State, id: int)
    requires Core(h, s, {}, {}) && MayPromote(s, id)
    ensures var t := MakeTried(h, s, id); var slot := h.TriedSlot(s.info[id].svc);
      && t.triedTable == s.triedTable[slot := id] && SameWaiting(s, t)
      && id in t.info && Moved(s.info[id].(refCount := 0, inTried := true), t.info[id])
      && (forall x :: x in t.info ==> x in s.info && t.info[x].svc == s.info[x].svc)
      && (slot !in s.triedTable ==> MovedAlone(s, t, id))
      && (slot in s.triedTable ==>
            && s.triedTable[slot] in s.info
            && var ev := s.triedTable[slot];
               MadeRoom(s, t, id, ev, h.HomeSlot(s.info[ev].svc, s.info[ev].source)))
  {
    hide Core, MakeTried, MadeRoom, MovedAlone;
    if h.TriedSlot(s.info[id].svc) in s.triedTable {
      MakeTriedEvicts(h, s, id);
    } else {
      MakeTriedAlone(h, s, id);
    }
  }

  lemma PromoteAfterEviction(h: Hashing, s: State, u: State, v: State, id: int, ev: int)
    requires id in s.info && ev in s.info && ev != id
    requires u.info == s.info[id := s.info[id].(refCount := 0)] && u.newTable == Without(s.newTable, id)
    requires var home := h.HomeSlot(s.info[ev].svc, s.info[ev].source);
      EvictedInfo(u.info, v.info, ev, id, home, u.newTable) && v.newTable == u.newTable[home := ev]
    ensures MadeRoom(s, Promote(h, v, id), id, ev, h.HomeSlot(s.info[ev].svc, s.info[ev].source))
    ensures Moved(s.info[id].(refCount := 0), v.info[id])
    ensures forall x :: x in v.info ==> x in s.info && v.info[x].svc == s.info[x].svc
  {
    hide Bump;
  }

  // ---------------------------------------------------------------- AddSingle

  function Refreshed(e: Info, a: Address, penalty: int, now: int): Info {
    var currentlyOnline := now - a.time < 24 * 3600;
    var interval := if currentlyOnline then 3600 else 24 * 3600;
    var time := if e.time < a.time - interval - penalty then Max(0, a.time - penalty) else e.time;
    e.(time := time, services := e.services | a.services)
  }

  /** How many numbers the random test has to choose from: twice as many with each reference. */
  function Factor(refCount: int): (n: nat)
    ensures n > 0
  {
    if refCount <= 0 then 1 else 2 * Factor(refCount - 1)
  }

  /** Whether an address already known may gain another reference; `draw` is the random number, which has
      to be zero among the numbers to choose from. */
  predicate WantsMore(e: Info, a: Address, draw: nat) {
    && a.time > e.time
    && !e.inTried
    && e.refCount != NEW_BUCKETS_PER_ADDRESS
    && draw % Factor(e.refCount) == 0
  }

  predicate MayOverwrite(there: Info, e: Info, now: int) {
    IsTerrible(there, now) || (there.refCount > 1 && e.refCount == 0)
  }

  lemma RefreshKeepsCore(h: Hashing, s: State, id: int, a: Address, penalty: int, now: int)
    requires Core(h, s, {}, {}) && id in s.info
    ensures Core(h, SetInfo(s, id, Refreshed(s.info[id], a, penalty, now)), {}, {})
  {
    hide Core;
    CoreEntry(h, s, {}, {}, id);
    SetInfoKeepsCore(h, s, id, Refreshed(s.info[id], a, penalty, now), {}, {});
  }

  lemma CreatedKeepsCore(h: Hashing, s: State, a: Address, source: NetAddr, penalty: int)
    requires Core(h, s, {}, {}) && a.svc !in s.addr
    ensures Core(h, Created(h, s, a, source, penalty), {}, {s.idCount})
  {
    hide Core;
    CreateKeepsCore(h, s, a, source);
    var t := Create(h, s, a, source);
    SetInfoKeepsCore(h, t, s.idCount, t.info[s.idCount].(time := Max(0, a.time - penalty)), {}, {s.idCount});
  }

  /** AddSingle's second half: one more reference for an entry, in the slot its source gives it. */
  ghost function Insert(h: Hashing, s: State, id: int, source: NetAddr, now: int): (State, bool)
    requires Core(h, s, {}, {id}) && id in s.info
  {
    var slot := h.HomeSlot(s.info[id].svc, source);
    CoreClear(h, s, {}, {id}, slot);
    if slot !in s.newTable then (PlaceNew(s, id, slot), true)
    else if s.newTable[slot] == id then (s, false)
    else
      CoreNewSlot(h, s, {}, {id}, slot);
      if MayOverwrite(s.info[s.newTable[slot]], s.info[id], now) then
        (PlaceNew(ClearNew(h, s, slot), id, slot), true)
      else if s.info[id].refCount == 0 then
        CoreDeletable(h, s, {}, {id}, id);
        (Delete(h, s, id), false)
      else (s, false)
  }

  lemma TightenCore(h: Hashing, s: State, id: int)
    requires Core(h, s, {}, {id}) && (id in s.info ==> s.info[id].refCount >= 1)
    ensures Core(h, s, {}, {})
  {
    var none: set<int> := {};
    assert {id} + none == {id} && {id} - {id} == none && none + none == none;
    RefsTighten(h, s.info, s.newTable, id, {id});
  }

  /** Ids are not given out twice, addresses stay with their ids, tried slots stay taken. */
  ghost predicate Later(s: State, t: State) {
    && t.idCount >= s.idCount && t.collisions == s.collisions
    && (forall x :: x in t.info && x < s.idCount ==> x in s.info && t.info[x].svc == s.info[x].svc)
    && (forall slot :: slot in s.triedTable ==> slot in t.triedTable)
  }

  lemma SameIsLater(s: State)
    ensures Later(s, s)
  {
  }

  lemma LaterThen(s: State, t: State, u: State)
    requires Later(s, t) && Later(t, u)
    ensures Later(s, u)
  {
  }

  lemma PlaceLater(s: State, id: int, slot: Slot)
    requires id in s.info
    ensures Later(s, PlaceNew(s, id, slot))
  {
  }

  lemma ClearLater(h: Hashing, s: State, slot: Slot, limbo: set<int>, loose: set<int>)
    requires Core(h, s, limbo, loose)
    ensures CanClear(s, slot) && Later(s, ClearNew(h, s, slot))
  {
    hide Core, ClearNew;
    CoreClear(h, s, limbo, loose, slot);
  }

  lemma DeleteLater(h: Hashing, s: State, id: int, limbo: set<int>, loose: set<int>)
    requires Core(h, s, limbo, loose) && id in s.info
    ensures CanDelete(s, id) && Later(s, Delete(h, s, id))
  {
    hide Core, Delete, Bump, IndexOk;
    CoreDeletable(h, s, limbo, loose, id);
  }

  lemma InsertKeepsCore(h: Hashing, s: State, id: int, source: NetAddr, now: int)
    requires Core(h, s, {}, {id}) && id in s.info && !s.info[id].inTried
    requires s.info[id].refCount < NEW_BUCKETS_PER_ADDRESS
    ensures Core(h, Insert(h, s, id, source, now).0, {}, {}) && Later(s, Insert(h, s, id, source, now).0)
  {
    hide Core, Bump, ClearNew, Delete, PlaceNew, Later;
    var slot := h.HomeSlot(s.info[id].svc, source);
    var none: set<int> := {};
    assert {id} - {id} == none;
    SameIsLater(s);
    if slot !in s.newTable {
      PlaceNewKeepsCore(h, s, id, slot, {}, {id});
      PlaceLater(s, id, slot);
    } else {
      CoreNewSlot(h, s, {}, {id}, slot);
      CoreEntry(h, s, {}, {id}, id);
      if s.newTable[slot] == id {
        TightenCore(h, s, id);
      } else if MayOverwrite(s.info[s.newTable[slot]], s.info[id], now) {
        ClearNewKeepsCore(h, s, slot, {}, {id});
        CoreClear(h, s, {}, {id}, slot);
        assert Moved(s.info[id], ClearNew(h, s, slot).info[id]);
        PlaceNewKeepsCore(h, ClearNew(h, s, slot), id, slot, {}, {id});
        ClearLater(h, s, slot, {}, {id});
        PlaceLater(ClearNew(h, s, slot), id, slot);
        LaterThen(s, ClearNew(h, s, slot), PlaceNew(ClearNew(h, s, slot), id, slot));
      } else if s.info[id].refCount == 0 {
        DeleteLater(h, s, id, {}, {id});
        DeleteKeepsCore(h, s, id, {}, {id});
      } else {
        TightenCore(h, s, id);
      }
    }
  }

  ghost function AddSingle(h: Hashing, s: State, a: Address, source: NetAddr, timePenalty: int, now: int,
                           draw: nat): (State, bool)
    requires Core(h, s, {}, {})
  {
    if !h.isRoutable(a.svc) then (s, false)
    else
      var penalty := if a.svc.net == source then 0 else timePenalty;
      if a.svc in s.addr then
        CoreAddress(h, s, {}, {}, a.svc);
        var id := s.addr[a.svc];
        var e := Refreshed(s.info[id], a, penalty, now);
        var t := SetInfo(s, id, e);
        RefreshKeepsCore(h, s, id, a, penalty, now);
        if WantsMore(e, a, draw) then
          LoosenCore(h, t, id);
          Insert(h, t, id, source, now)
        else (t, false)
      else
        var id := s.idCount;
        CreatedKeepsCore(h, s, a, source, penalty);
        Insert(h, Created(h, s, a, source, penalty), id, source, now)
  }

  function Created(h: Hashing, s: State, a: Address, source: NetAddr, penalty: int): State {
    var t := Create(h, s, a, source);
    SetInfo(t, s.idCount, t.info[s.idCount].(time := Max(0, a.time - penalty)))
  }

  lemma AddSingleKeepsCore(h: Hashing, s: State, a: Address, source: NetAddr, timePenalty: int, now: int, draw: nat)
    requires Core(h, s, {}, {})
    ensures var t := AddSingle(h, s, a, source, timePenalty, now, draw).0; Core(h, t, {}, {}) && Later(s, t)
  {
    hide Core, Insert, Bump, Later;
    LaterSame(s);
    if h.isRoutable(a.svc) {
      var penalty := if a.svc.net == source then 0 else timePenalty;
      if a.svc in s.addr {
        var id := s.addr[a.svc];
        CoreAddress(h, s, {}, {}, a.svc);
        RefreshKeepsCore(h, s, id, a, penalty, now);
        var e := Refreshed(s.info[id], a, penalty, now);
        var t := SetInfo(s, id, e);
        RefreshLater(s, id, e);
        if WantsMore(e, a, draw) {
          CoreEntry(h, t, {}, {}, id);
          LoosenCore(h, t, id);
          InsertKeepsCore(h, t, id, source, now);
          LaterTwice(s, t, Insert(h, t, id, source, now).0);
        }
      } else {
        var t := Created(h, s, a, source, penalty);
        CreatedKeepsCore(h, s, a, source, penalty);
        CreatedLater(h, s, a, source, penalty);
        InsertKeepsCore(h, t, s.idCount, source, now);
        LaterTwice(s, t, Insert(h, t, s.idCount, source, now).0);
      }
    }
  }

  lemma LaterSame(s: State)
    ensures Later(s, s)
  {
  }

  lemma LaterTwice(s: State, t: State, u: State)
    requires Later(s, t) && Later(t, u)
    ensures Later(s, u)
  {
  }

  lemma RefreshLater(s: State, id: int, e: Info)
    requires id in s.info && e.svc == s.info[id].svc
    ensures Later(s, SetInfo(s, id, e))
  {
  }

  lemma CreatedLater(h: Hashing, s: State, a: Address, source: NetAddr, penalty: int)
    ensures Later(s, Created(h, s, a, source, penalty))
  {
    hide Bump;
  }

  // ---------------------------------------------------------------- Good

  function Greeted(e: Info, time: int): Info {
    e.(lastSuccess := time, lastTry := time, attempts := 0)
  }

  lemma GreetKeepsCore(h: Hashing, s: State, id: int, time: int)
    requires Core(h, s, {}, {}) && id in s.info && time > 0
    ensures Core(h, SetInfo(s, id, Greeted(s.info[id], time)), {}, {})
  {
    hide Core;
    SetInfoKeepsCore(h, s, id, Greeted(s.info[id], time), {}, {});
  }

  /** Records a successful connection and moves the address to the tried table, unless that would
      evict an entry and `testBeforeEvict` asks for that entry to be tested first. */
  ghost function Good(h: Hashing, s: State, svc: Service, testBeforeEvict: bool, time: int): (State, bool)
    requires Core(h, s, {}, {}) && time > 0
  {
    if svc !in s.addr then (s.(lastGood := time), false)
    else
      CoreAddress(h, s, {}, {}, svc);
      var id := s.addr[svc];
      var t := SetInfo(s, id, Greeted(s.info[id], time)).(lastGood := time);
      var slot := h.TriedSlot(svc);
      if t.info[id].inTried || t.info[id].refCount <= 0 then (t, false)
      else if testBeforeEvict && slot in t.triedTable then
        (if |t.collisions| < SET_TRIED_COLLISION_SIZE then t.(collisions := t.collisions + {id}) else t, false)
      else
        GoodReady(h, s, id, time);
        (MakeTried(h, t, id), true)
  }

  lemma GoodReady(h: Hashing, s: State, id: int, time: int)
    requires Core(h, s, {}, {}) && id in s.info && time > 0
    ensures Core(h, SetInfo(s, id, Greeted(s.info[id], time)).(lastGood := time), {}, {})
  {
    GreetKeepsCore(h, s, id, time);
    hide IndexOk, TriedOk, NewSlotsOk, RefsOk, CountsOk, TimesOk;
  }

  lemma CollisionsLater(h: Hashing, s: State, t: State)
    requires CollisionsOk(h, s) && Later(s, t)
    ensures CollisionsOk(h, t)
  {
  }

  lemma GoodKeepsInv(h: Hashing, s: State, svc: Service, testBeforeEvict: bool, time: int)
    requires Inv(h, s) && time > 0
    ensures Inv(h, Good(h, s, svc, testBeforeEvict, time).0)
    ensures Good(h, s, svc, testBeforeEvict, time).0.idCount == s.idCount
    ensures !testBeforeEvict ==> Good(h, s, svc, testBeforeEvict, time).0.collisions == s.collisions
  {
    hide Core, MakeTried;
    if svc !in s.addr {
      LastGoodIrrelevant(h, s, time);
    } else {
      CoreAddress(h, s, {}, {}, svc);
      var id := s.addr[svc];
      GoodReady(h, s, id, time);
      CoreEntry(h, s, {}, {}, id);
      var t := SetInfo(s, id, Greeted(s.info[id], time)).(lastGood := time);
      var slot := h.TriedSlot(svc);
      CollisionsLater(h, s, t);
      if t.info[id].inTried || t.info[id].refCount <= 0 {
      } else if testBeforeEvict && slot in t.triedTable {
        CoreCollisions(h, t, t.collisions + {id});
      } else {
        MakeTriedKeepsCore(h, t, id);
        MakeTriedEffect(h, t, id);
        hide MovedAlone, MadeRoom;
        CollisionsLater(h, t, MakeTried(h, t, id));
      }
    }
  }

  lemma LastGoodIrrelevant(h: Hashing, s: State, time: int)
    requires Inv(h, s)
    ensures Inv(h, s.(lastGood := time))
  {
    hide IndexOk, TriedOk, NewSlotsOk, RefsOk, CountsOk, TimesOk;
  }

  lemma CoreCollisions(h: Hashing, s: State, c: set<int>)
    requires Core(h, s, {}, {})
    ensures Core(h, s.(collisions := c), {}, {})
  {
    hide IndexOk, TriedOk, NewSlotsOk, RefsOk, CountsOk, TimesOk;
  }

  // ---------------------------------------------------------------- collisions

  ghost predicate TriedKnown(s: State) {
    forall slot :: slot in s.triedTable ==> s.triedTable[slot] in s.info
  }

  lemma CoreTriedKnown(h: Hashing, s: State)
    requires Core(h, s, {}, {})
    ensures TriedKnown(s)
  {
  }

  datatype Verdict = Keep | Forget | Move

  /** What to do about one waiting collision; `now` is the clock while it is handled. */
  ghost function Judge(h: Hashing, s: State, id: int, now: int): Verdict
    requires TriedKnown(s)
  {
    if id !in s.info || !h.isValid(s.info[id].svc) then Forget
    else
      var slot := h.TriedSlot(s.info[id].svc);
      if slot !in s.triedTable then Move
      else
        var there := s.info[s.triedTable[slot]];
        if now - there.lastSuccess < REPLACEMENT then Forget
        else if now - there.lastTry < REPLACEMENT then
          if now - there.lastTry > 60 then Move else Keep
        else if now - s.info[id].lastSuccess > TEST_WINDOW then Move
        else Keep
  }

  ghost function ResolveOne(h: Hashing, s: State, id: int, now: int): State
    requires Core(h, s, {}, {}) && now > 0
  {
    CoreTriedKnown(h, s);
    match Judge(h, s, id, now)
    case Keep => s
    case Forget => s.(collisions := s.collisions - {id})
    case Move =>
      var t := Good(h, s, s.info[id].svc, false, now).0;
      t.(collisions := t.collisions - {id})
  }

  lemma ResolveOneKeepsInv(h: Hashing, s: State, id: int, now: int)
    requires Inv(h, s) && now > 0 && id in s.collisions
    ensures Inv(h, ResolveOne(h, s, id, now))
  {
    hide Core, Good;
    CoreTriedKnown(h, s);
    match Judge(h, s, id, now)
    case Keep =>
    case Forget =>
      CoreCollisions(h, s, s.collisions - {id});
    case Move =>
      var t := Good(h, s, s.info[id].svc, false, now).0;
      GoodKeepsInv(h, s, s.info[id].svc, false, now);
      CoreCollisions(h, t, t.collisions - {id});
  }

  /** Handles the waiting collisions with ids from `k` up, in ascending order, each at its own time. */
  ghost function Resolve(h: Hashing, s: State, k: nat, clock: int -> int): State
    requires Inv(h, s) && forall id :: clock(id) > 0
    decreases s.idCount - k
  {
    if k >= s.idCount then s
    else if k in s.collisions then
      ResolveOneKeepsInv(h, s, k, clock(k));
      ResolveOneIdCount(h, s, k, clock(k));
      Resolve(h, ResolveOne(h, s, k, clock(k)), k + 1, clock)
    else Resolve(h, s, k + 1, clock)
  }

  lemma ResolveOneIdCount(h: Hashing, s: State, id: int, now: int)
    requires Inv(h, s) && now > 0
    ensures ResolveOne(h, s, id, now).idCount == s.idCount
  {
    hide Core, MakeTried;
    CoreTriedKnown(h, s);
    if Judge(h, s, id, now).Move? {
      GoodKeepsInv(h, s, s.info[id].svc, false, now);
    }
  }

  lemma {:induction false} ResolveKeepsInv(h: Hashing, s: State, k: nat, clock: int -> int)
    requires Inv(h, s) && forall id :: clock(id) > 0
    ensures Inv(h, Resolve(h, s, k, clock)) && Resolve(h, s, k, clock).idCount == s.idCount
    decreases s.idCount - k
  {
    hide Core, ResolveOne;
    if k >= s.idCount {
    } else if k in s.collisions {
      ResolveOneKeepsInv(h, s, k, clock(k));
      ResolveOneIdCount(h, s, k, clock(k));
      ResolveKeepsInv(h, ResolveOne(h, s, k, clock(k)), k + 1, clock);
    } else {
      ResolveKeepsInv(h, s, k + 1, clock);
    }
  }

  /** Looks at one waiting collision: forgets it if its id is gone, and otherwise names the entry
      that sits in the slot it wants. */
  ghost function SelectTriedCollision(h: Hashing, s: State, id: int): (State, int)
    requires id in s.collisions
  {
    if id !in s.info then (s.(collisions := s.collisions - {id}), -1)
    else
      var slot := h.TriedSlot(s.info[id].svc);
      (s, if slot in s.triedTable then s.triedTable[slot] else -1)
  }

  /** The look-up never meets an empty slot, so it never reads (and creates) an entry for id -1. */
  lemma SelectTriedCollisionFinds(h: Hashing, s: State, id: int)
    requires Inv(h, s) && id in s.collisions
    ensures var (t, found) := SelectTriedCollision(h, s, id);
      && Inv(h, t) && t.info == s.info
      && (id !in s.info ==> t == s.(collisions := s.collisions - {id}) && found == -1)
      && (id in s.info ==> t == s && found in s.info && s.info[found].inTried
                           && h.TriedSlot(s.info[found].svc) == h.TriedSlot(s.info[id].svc))
  {
    hide Core;
    if id in s.info {
      CoreTriedSlot(h, s, {}, {}, h.TriedSlot(s.info[id].svc));
    } else {
      CoreCollisions(h, s, s.collisions - {id});
    }
  }

  // ---------------------------------------------------------------- statistics

  function Attempted(s: State, e: Info, countFailure: bool, time: int): Info {
    var f := e.(lastTry := time);
    if countFailure && e.lastCountAttempt < s.lastGood then
      f.(lastCountAttempt := time, attempts := e.attempts + 1)
    else f
  }

  predicate Known(s: State, svc: Service) {
    svc in s.addr ==> s.addr[svc] in s.info
  }

  function OnEntry(s: State, svc: Service, change: Info -> Info): State
    requires Known(s, svc)
  {
    if svc in s.addr then SetInfo(s, s.addr[svc], change(s.info[s.addr[svc]])) else s
  }

  function Attempt(s: State, svc: Service, countFailure: bool, time: int): State
    requires Known(s, svc)
  {
    OnEntry(s, svc, (e: Info) => Attempted(s, e, countFailure, time))
  }

  function Connected(s: State, svc: Service, time: int): State
    requires Known(s, svc)
  {
    OnEntry(s, svc, (e: Info) => if time - e.time > 20 * 60 then e.(time := time) else e)
  }

  function SetServices(s: State, svc: Service, services: bv64): State
    requires Known(s, svc)
  {
    OnEntry(s, svc, (e: Info) => e.(services := services))
  }

  predicate KeepsRole(e: Info, f: Info) {
    SameRole(e, f) && f.lastSuccess == e.lastSuccess && (e.lastTry >= 0 ==> f.lastTry >= 0)
  }

  lemma OnEntryKeepsInv(h: Hashing, s: State, svc: Service, change: Info -> Info)
    requires Inv(h, s)
    requires forall e :: KeepsRole(e, change(e))
    ensures Known(s, svc) && Inv(h, OnEntry(s, svc, change))
  {
    hide Core;
    if svc in s.addr {
      var id := s.addr[svc];
      CoreAddress(h, s, {}, {}, svc);
      CoreEntry(h, s, {}, {}, id);
      assert KeepsRole(s.info[id], change(s.info[id]));
      SetInfoKeepsCore(h, s, id, change(s.info[id]), {}, {});
      CollisionsLater(h, s, OnEntry(s, svc, change));
    }
  }

  // ---------------------------------------------------------------- GetAddr

  datatype Filter = AnyNetwork | Only(net: Network)

  predicate Shareable(h: Hashing, e: Info, filter: Filter, now: int) {
    (filter.Only? ==> h.netClass(e.svc) == filter.net) && !IsTerrible(e, now)
  }

  function ShareLimit(size: nat, maxAddresses: nat, maxPct: nat): nat {
    var part := if maxPct != 0 then maxPct * size / 100 else size;
    if maxAddresses != 0 && maxAddresses < part then maxAddresses else part
  }

  predicate VectorKnown(s: State) { forall i :: 0 <= i < |s.rnd| ==> s.rnd[i] in s.info }

  function Pick(picks: nat -> nat, n: nat, size: nat): (at: nat)
    requires n < size
    ensures n <= at < size
  {
    n + picks(n) % (size - n)
  }

  /** GetAddr's loop from position `n` on: shuffles the random-order vector as it goes and collects
      shareable entries until it has `limit` of them.  `picks(n)` is the number drawn in turn `n`. */
  function Collect(h: Hashing, s: State, n: nat, limit: nat, picks: nat -> nat, filter: Filter, now: int,
                   acc: seq<int>): (State, seq<int>)
    requires n <= |s.rnd| && VectorKnown(s)
    decreases |s.rnd| - n
  {
    if n == |s.rnd| || |acc| >= limit then (s, acc)
    else
      var t := SwapRandom(s, n, Pick(picks, n, |s.rnd|));
      var id := t.rnd[n];
      Collect(h, t, n + 1, limit, picks, filter, now, if Shareable(h, t.info[id], filter, now) then acc + [id] else acc)
  }

  /** What GetAddr hands out so far: known, shareable and pairwise different entries. */
  ghost predicate Gathered(h: Hashing, s: State, filter: Filter, now: int, acc: seq<int>) {
    && (forall i, j :: 0 <= i < j < |acc| ==> acc[i] != acc[j])
    && (forall x :: x in acc ==> x in s.info && Shareable(h, s.info[x], filter, now))
  }

  lemma GatheredMoved(h: Hashing, s: State, t: State, filter: Filter, now: int, acc: seq<int>)
    requires Gathered(h, s, filter, now, acc) && AllMoved(s.info, t.info)
    ensures Gathered(h, t, filter, now, acc)
  {
    forall x | x in acc ensures x in t.info && Shareable(h, t.info[x], filter, now) {
      assert Moved(s.info[x], t.info[x]);
    }
  }

  lemma MovedTwice(a: Infos, b: Infos, c: Infos)
    requires AllMoved(a, b) && AllMoved(b, c)
    ensures AllMoved(a, c)
  {
    forall x | x in a ensures Moved(a[x], c[x]) {
      assert Moved(a[x], b[x]) && Moved(b[x], c[x]);
    }
  }

  /** One turn of GetAddr's loop. */
  lemma SwapShape(s: State, i: int, j: int)
    requires CanSwap(s, i, j)
    ensures var t := SwapRandom(s, i, j);
      t.rnd == s.rnd[i := s.rnd[j]][j := s.rnd[i]] && t == s.(info := t.info, rnd := t.rnd)
        && t.info.Keys == s.info.Keys
  {
    hide WithPosition;
  }

  lemma SwappedPrefix(rnd: seq<int>, n: nat, at: nat)
    requires n <= at < |rnd| && forall i, j :: 0 <= i < j < |rnd| ==> rnd[i] != rnd[j]
    ensures var rndT := rnd[n := rnd[at]][at := rnd[n]]; rndT[..n] == rnd[..n] && rndT[n] !in rnd[..n]
  {
  }

  lemma MovedIsLater(s: State, t: State)
    requires t == s.(info := t.info, rnd := t.rnd) && AllMoved(s.info, t.info)
    ensures Later(s, t)
  {
    hide AllMoved;
    MovedServices(s.info, t.info);
  }

  lemma CollectTurn(h: Hashing, s: State, n: nat, at: nat)
    requires Inv(h, s) && n <= at < |s.rnd|
    ensures CanSwap(s, n, at)
    ensures var t := SwapRandom(s, n, at);
      && Inv(h, t) && AllMoved(s.info, t.info) && |t.rnd| == |s.rnd| && VectorKnown(t)
      && t.rnd[..n] == s.rnd[..n] && t.rnd[n] !in s.rnd[..n]
  {
    hide Core, SwapRandom, AllMoved, CollisionsOk, Later;
    SwapRandomKeepsCore(h, s, n, at, {}, {});
    var t := SwapRandom(s, n, at);
    SwapShape(s, n, at);
    MovedIsLater(s, t);
    CollisionsLater(h, s, t);
    CoreVector(h, s);
    CoreVector(h, t);
    SwappedPrefix(s.rnd, n, at);
  }

  lemma CoreVector(h: Hashing, s: State)
    requires Core(h, s, {}, {})
    ensures VectorKnown(s) && forall i, j :: 0 <= i < j < |s.rnd| ==> s.rnd[i] != s.rnd[j]
  {
    forall i, j | 0 <= i < j < |s.rnd| ensures s.rnd[i] != s.rnd[j] {
      PositionAt(s.info, s.addr, s.rnd, s.idCount, i);
      PositionAt(s.info, s.addr, s.rnd, s.idCount, j);
    }
  }

  ghost predicate GatheredBefore(h: Hashing, s: State, n: nat, filter: Filter, now: int, acc: seq<int>)
    requires n <= |s.rnd|
  {
    Gathered(h, s, filter, now, acc) && forall x :: x in acc ==> x in s.rnd[..n]
  }

  lemma GatherTurn(h: Hashing, s: State, t: State, n: nat, filter: Filter, now: int, acc: seq<int>)
    requires n < |s.rnd| == |t.rnd| && GatheredBefore(h, s, n, filter, now, acc) && AllMoved(s.info, t.info)
    requires t.rnd[..n] == s.rnd[..n] && t.rnd[n] in t.info && t.rnd[n] !in s.rnd[..n]
    ensures GatheredBefore(h, t, n + 1, filter, now, acc)
    ensures Shareable(h, t.info[t.rnd[n]], filter, now) ==> GatheredBefore(h, t, n + 1, filter, now, acc + [t.rnd[n]])
  {
    hide Shareable;
    GatheredMoved(h, s, t, filter, now, acc);
    assert t.rnd[..n + 1] == t.rnd[..n] + [t.rnd[n]];
  }

  /** GetAddr hands out at most `limit` different, shareable entries and only reorders the vector. */
  lemma {:induction false} CollectKeepsInv(h: Hashing, s: State, n: nat, limit: nat, picks: nat -> nat, filter: Filter,
                                           now: int, acc: seq<int>)
    requires Inv(h, s) && VectorKnown(s) && n <= |s.rnd| && |acc| <= limit
    requires GatheredBefore(h, s, n, filter, now, acc)
    ensures var (t, found) := Collect(h, s, n, limit, picks, filter, now, acc);
      Inv(h, t) && AllMoved(s.info, t.info) && Gathered(h, t, filter, now, found) && |found| <= limit
    decreases |s.rnd| - n
  {
    hide Inv, Shareable, GatheredBefore, Gathered, AllMoved, Pick;
    if n == |s.rnd| || |acc| >= limit {
      GatheredAtEnd(h, s, n, filter, now, acc);
    } else {
      var at := Pick(picks, n, |s.rnd|);
      CollectTurn(h, s, n, at);
      var t := SwapRandom(s, n, at);
      hide SwapRandom;
      GatherTurn(h, s, t, n, filter, now, acc);
      var id := t.rnd[n];
      var next := if Shareable(h, t.info[id], filter, now) then acc + [id] else acc;
      CollectKeepsInv(h, t, n + 1, limit, picks, filter, now, next);
      MovedTwice(s.info, t.info, Collect(h, t, n + 1, limit, picks, filter, now, next).0.info);
    }
  }

  lemma GatheredAtEnd(h: Hashing, s: State, n: nat, filter: Filter, now: int, acc: seq<int>)
    requires n <= |s.rnd| && GatheredBefore(h, s, n, filter, now, acc)
    ensures Gathered(h, s, filter, now, acc) && AllMoved(s.info, s.info)
  {
  }

  // ---------------------------------------------------------------- every operation

  datatype Op =
    | DoAdd(a: Address, source: NetAddr, timePenalty: int, now: int, draw: nat)
    | DoGood(svc: Service, time: int)
    | DoAttempt(svc: Service, countFailure: bool, time: int)
    | DoConnected(svc: Service, time: int)
    | DoSetServices(svc: Service, services: bv64)
    | DoResolve(clock: int -> int)
    | DoSelect(id: int)
    | DoGetAddr(maxAddresses: nat, maxPct: nat, picks: nat -> nat, filter: Filter, now: int)

  /** Clock readings are positive, and a random choice of a waiting collision chooses a waiting one. */
  ghost predicate Legal(s: State, op: Op) {
    match op
    case DoGood(_, time) => time > 0
    case DoAttempt(_, _, time) => time >= 0
    case DoResolve(clock) => forall id :: clock(id) > 0
    case DoSelect(id) => id in s.collisions
    case _ => true
  }

  ghost function GetAddr(h: Hashing, s: State, maxAddresses: nat, maxPct: nat, picks: nat -> nat, filter: Filter,
                         now: int): (State, seq<int>)
    requires Core(h, s, {}, {})
  {
    CoreVector(h, s);
    Collect(h, s, 0, ShareLimit(|s.rnd|, maxAddresses, maxPct), picks, filter, now, [])
  }

  ghost function Perform(h: Hashing, s: State, op: Op): State
    requires Inv(h, s) && Legal(s, op)
  {
    match op
    case DoAdd(a, source, timePenalty, now, draw) => AddSingle(h, s, a, source, timePenalty, now, draw).0
    case DoGood(svc, time) => Good(h, s, svc, true, time).0
    case DoAttempt(svc, countFailure, time) => CoreKnown(h, s, svc); Attempt(s, svc, countFailure, time)
    case DoConnected(svc, time) => CoreKnown(h, s, svc); Connected(s, svc, time)
    case DoSetServices(svc, services) => CoreKnown(h, s, svc); SetServices(s, svc, services)
    case DoResolve(clock) => Resolve(h, s, 0, clock)
    case DoSelect(id) => SelectTriedCollision(h, s, id).0
    case DoGetAddr(maxAddresses, maxPct, picks, filter, now) =>
      GetAddr(h, s, maxAddresses, maxPct, picks, filter, now).0
  }

  lemma CoreKnown(h: Hashing, s: State, svc: Service)
    requires Core(h, s, {}, {})
    ensures Known(s, svc)
  {
    hide Core;
    if svc in s.addr {
      CoreAddress(h, s, {}, {}, svc);
    }
  }

  lemma PerformKeepsInv(h: Hashing, s: State, op: Op)
    requires Inv(h, s) && Legal(s, op)
    ensures Inv(h, Perform(h, s, op))
  {
    hide Core, CollisionsOk;
    match op
    case DoAdd(a, source, timePenalty, now, draw) =>
      AddSingleKeepsCore(h, s, a, source, timePenalty, now, draw);
      CollisionsLater(h, s, AddSingle(h, s, a, source, timePenalty, now, draw).0);
    case DoGood(svc, time) => GoodKeepsInv(h, s, svc, true, time);
    case DoAttempt(svc, countFailure, time) =>
      OnEntryKeepsInv(h, s, svc, (e: Info) => Attempted(s, e, countFailure, time));
    case DoConnected(svc, time) =>
      OnEntryKeepsInv(h, s, svc, (e: Info) => if time - e.time > 20 * 60 then e.(time := time) else e);
    case DoSetServices(svc, services) =>
      OnEntryKeepsInv(h, s, svc, (e: Info) => e.(services := services));
    case DoResolve(clock) => ResolveKeepsInv(h, s, 0, clock);
    case DoSelect(id) => SelectTriedCollisionFinds(h, s, id);
    case DoGetAddr(maxAddresses, maxPct, picks, filter, now) =>
      CoreVector(h, s);
      CollectKeepsInv(h, s, 0, ShareLimit(|s.rnd|, maxAddresses, maxPct), picks, filter, now, []);
  }

  lemma EmptyInv(h: Hashing)
    requires !h.keyIsNull
    ensures Inv(h, EMPTY)
  {
    assert Ids(EMPTY.info, {}, AsNew) == {} && Ids(EMPTY.info, {}, AsTried) == {};
    forall net ensures CountFor(EMPTY.counts, net) == TrueCounts(h, EMPTY.info, {}, net) {
      assert IdsOn(h, EMPTY.info, {}, AsNew, net) == {} && IdsOn(h, EMPTY.info, {}, AsTried, net) == {};
    }
  }
}
