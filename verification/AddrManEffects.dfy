/** What adding, confirming and resolving do to the tables and entries of the address manager, in terms of
    the state before. */
module AddrManEffects {
  import opened AddrManState
  import opened AddrManInvariant
  import opened AddrManOps

  /** Nothing outside the new table, and of the entries only their references and places. */
  ghost predicate OnlyNewTable(s: State, t: State) {
    t.triedTable == s.triedTable && t.nTried == s.nTried && t.collisions == s.collisions && t.lastGood == s.lastGood
  }

  /** At most the entry that held the slot is gone, and only if that was its last reference; at most the
      entry `id` came to be. */
  ghost predicate OneMayGo(s: State, t: State, slot: Slot, id: int, added: bool) {
    && (forall x :: x in s.info && x !in t.info ==>
          added && slot in s.newTable && x == s.newTable[slot] && s.info[x].refCount == 1)
    && (forall x :: x in t.info && x !in s.info ==> added && x == id)
    && (forall x :: x in t.info && x in s.info && x != id ==> Recounted(s.info[x], t.info[x]))
  }

  lemma InsertElsewhere(h: Hashing, s: State, id: int, source: NetAddr, now: int)
    requires Core(h, s, {}, {id}) && id in s.info
    ensures var t := Insert(h, s, id, source, now).0; OnlyNewTable(s, t) && t.idCount == s.idCount
  {
    hide Core, Bump, ClearNew, Delete, IndexOk, AllMoved, ClearedOf;
    CoreClear(h, s, {}, {id}, h.HomeSlot(s.info[id].svc, source));
    CoreDeletable(h, s, {}, {id}, id);
  }

  lemma InsertTable(h: Hashing, s: State, id: int, source: NetAddr, now: int)
    requires Core(h, s, {}, {id}) && id in s.info && !s.info[id].inTried
    ensures var (t, added) := Insert(h, s, id, source, now); var slot := h.HomeSlot(s.info[id].svc, source);
      && t.newTable == (if added then s.newTable[slot := id] else s.newTable)
      && (added ==> !(slot in s.newTable && s.newTable[slot] == id))
      && (!added ==> slot in s.newTable)
  {
    hide Core, Bump, ClearNew, Delete, IndexOk, ClearedOf, AllMoved;
    var slot := h.HomeSlot(s.info[id].svc, source);
    CoreClear(h, s, {}, {id}, slot);
    CoreDeletable(h, s, {}, {id}, id);
    assert (s.newTable - {slot})[slot := id] == s.newTable[slot := id];
  }

  /** The slot's holder loses a reference, and with its last one goes; the newcomer gets one. */
  lemma OverwriteEntries(h: Hashing, s: State, id: int, slot: Slot)
    requires Core(h, s, {}, {id}) && id in s.info && slot in s.newTable && s.newTable[slot] != id
    ensures CanClear(s, slot) && id in ClearNew(h, s, slot).info
    ensures var t := PlaceNew(ClearNew(h, s, slot), id, slot);
      && t.info[id].refCount == s.info[id].refCount + 1
      && (forall x :: x in t.info ==> x in s.info && Recounted(s.info[x], t.info[x]))
      && (forall x :: x in s.info && x !in t.info ==> x == s.newTable[slot] && s.info[x].refCount == 1)
  {
    hide Core, ClearNew, Bump, CanClear;
    CoreClear(h, s, {}, {id}, slot);
    CoreNewSlot(h, s, {}, {id}, slot);
    ClearNewKeepsCore(h, s, slot, {}, {id});
  }

  lemma DeletedEntries(h: Hashing, s: State, id: int)
    requires Core(h, s, {}, {id}) && id in s.info
    ensures CanDelete(s, id)
    ensures var t := Delete(h, s, id);
      id !in t.info && forall x :: x in t.info ==> x in s.info && Recounted(s.info[x], t.info[x])
    ensures forall x :: x in s.info && x !in Delete(h, s, id).info ==> x == id
  {
    hide Core, Delete, Bump, IndexOk, CanDelete;
    CoreDeletable(h, s, {}, {id}, id);
  }

  lemma InsertEntries(h: Hashing, s: State, id: int, source: NetAddr, now: int)
    requires Core(h, s, {}, {id}) && id in s.info && !s.info[id].inTried
    ensures var (t, added) := Insert(h, s, id, source, now); var slot := h.HomeSlot(s.info[id].svc, source);
      && (added ==> id in t.info && t.info[id].refCount == s.info[id].refCount + 1)
      && (!added ==> slot in s.newTable && (id in t.info <==> s.newTable[slot] == id || s.info[id].refCount > 0))
      && (forall x :: x in t.info ==> x in s.info && Recounted(s.info[x], t.info[x]))
      && (forall x :: x in s.info && x !in t.info ==>
            if added then slot in s.newTable && x == s.newTable[slot] && s.info[x].refCount == 1 else x == id)
  {
    hide Core, Bump, ClearNew, Delete, IndexOk, CanDelete;
    var slot := h.HomeSlot(s.info[id].svc, source);
    CoreEntry(h, s, {}, {id}, id);
    DeletedEntries(h, s, id);
    if slot in s.newTable && s.newTable[slot] != id {
      OverwriteEntries(h, s, id, slot);
    }
  }

  lemma InsertEffect(h: Hashing, s: State, id: int, source: NetAddr, now: int)
    requires Core(h, s, {}, {id}) && id in s.info && !s.info[id].inTried
    ensures var (t, added) := Insert(h, s, id, source, now); var slot := h.HomeSlot(s.info[id].svc, source);
      && OnlyNewTable(s, t) && t.idCount == s.idCount
      && t.newTable == (if added then s.newTable[slot := id] else s.newTable)
      && (added ==> !(slot in s.newTable && s.newTable[slot] == id))
      && (added ==> id in t.info && t.info[id].refCount == s.info[id].refCount + 1)
      && (!added ==> slot in s.newTable && (id in t.info <==> s.newTable[slot] == id || s.info[id].refCount > 0))
      && (forall x :: x in t.info ==> x in s.info && Recounted(s.info[x], t.info[x]))
      && (forall x :: x in s.info && x !in t.info ==>
            if added then slot in s.newTable && x == s.newTable[slot] && s.info[x].refCount == 1 else x == id)
  {
    hide Core, Insert, OnlyNewTable;
    InsertElsewhere(h, s, id, source, now);
    InsertTable(h, s, id, source, now);
    InsertEntries(h, s, id, source, now);
  }

  /** The address keeps its id, and its entry has one more reference. */
  ghost predicate OneMoreReference(s: State, t: State, svc: Service)
    requires svc in s.addr && svc in t.addr
  {
    && s.addr[svc] == t.addr[svc] && s.addr[svc] in s.info && s.addr[svc] in t.info
    && t.info[t.addr[svc]].refCount == s.info[s.addr[svc]].refCount + 1
  }

  /** Either the address is put into the slot, which was not its own before, and one reference of whatever
      was there is dropped; or no table changes and no entry comes or goes. */
  ghost predicate AddResult(s: State, t: State, svc: Service, slot: Slot, added: bool) {
    && OnlyNewTable(s, t)
    && (added ==>
          && svc in t.addr && t.newTable == s.newTable[slot := t.addr[svc]] && t.newTable != s.newTable
          && OneMayGo(s, t, slot, t.addr[svc], true) && (svc in s.addr ==> OneMoreReference(s, t, svc)))
    && (!added ==> t.newTable == s.newTable && t.info.Keys == s.info.Keys)
  }

  lemma AddSingleEffect(h: Hashing, s: State, a: Address, source: NetAddr, timePenalty: int, now: int, draw: nat)
    requires Core(h, s, {}, {})
    ensures var (t, added) := AddSingle(h, s, a, source, timePenalty, now, draw);
      && AddResult(s, t, a.svc, h.HomeSlot(a.svc, source), added)
      && (!h.isRoutable(a.svc) ==> t == s && !added)
  {
    hide Core, Insert, Bump, Refreshed, AddResult, WantsMore;
    NothingAdded(s, s, a.svc, h.HomeSlot(a.svc, source));
    if h.isRoutable(a.svc) {
      var penalty := if a.svc.net == source then 0 else timePenalty;
      if a.svc in s.addr {
        AddKnownEffect(h, s, a, source, penalty, now, draw);
        var id := s.addr[a.svc];
        NothingAdded(s, SetInfo(s, id, Refreshed(s.info[id], a, penalty, now)), a.svc, h.HomeSlot(a.svc, source));
      } else {
        AddUnknownEffect(h, s, a, source, penalty, now);
      }
    }
  }

  lemma NothingAdded(s: State, t: State, svc: Service, slot: Slot)
    requires OnlyNewTable(s, t) && t.newTable == s.newTable && t.info.Keys == s.info.Keys
    ensures AddResult(s, t, svc, slot, false)
  {
  }

  lemma NamedBy(h: Hashing, t: State, svc: Service, id: int)
    requires Core(h, t, {}, {}) && id in t.info && t.info[id].svc == svc
    ensures svc in t.addr && t.addr[svc] == id
  {
    CoreEntry(h, t, {}, {}, id);
  }

  lemma AddKnownEffect(h: Hashing, s: State, a: Address, source: NetAddr, penalty: int, now: int, draw: nat)
    requires Core(h, s, {}, {}) && a.svc in s.addr
    ensures s.addr[a.svc] in s.info && s.info[s.addr[a.svc]].svc == a.svc
    ensures var id := s.addr[a.svc]; var e := Refreshed(s.info[id], a, penalty, now); var u := SetInfo(s, id, e);
      WantsMore(e, a, draw) ==>
        Core(h, u, {}, {id})
        && var (t, added) := Insert(h, u, id, source, now); AddResult(s, t, a.svc, h.HomeSlot(a.svc, source), added)
  {
    hide Core, Insert;
    CoreAddress(h, s, {}, {}, a.svc);
    var id := s.addr[a.svc];
    RefreshKeepsCore(h, s, id, a, penalty, now);
    var e := Refreshed(s.info[id], a, penalty, now);
    var u := SetInfo(s, id, e);
    if WantsMore(e, a, draw) {
      CoreEntry(h, u, {}, {}, id);
      LoosenCore(h, u, id);
      InsertEffect(h, u, id, source, now);
      InsertKeepsCore(h, u, id, source, now);
      var (t, added) := Insert(h, u, id, source, now);
      if added { NamedBy(h, t, a.svc, id); } else { SameKeys(s.info, t.info); }
    }
  }

  lemma SameKeys(info: Infos, infoT: Infos)
    requires forall x :: x in infoT <==> x in info
    ensures infoT.Keys == info.Keys
  {
    forall x: int ensures x in infoT.Keys <==> x in info.Keys { assert x in infoT <==> x in info; }
    assert infoT.Keys == info.Keys;
  }

  lemma AddUnknownEffect(h: Hashing, s: State, a: Address, source: NetAddr, penalty: int, now: int)
    requires Core(h, s, {}, {}) && a.svc !in s.addr
    ensures var u, id := Created(h, s, a, source, penalty), s.idCount;
      && Core(h, u, {}, {id}) && id in u.info
      && var (t, added) := Insert(h, u, id, source, now); AddResult(s, t, a.svc, h.HomeSlot(a.svc, source), added)
  {
    hide Core, Insert, Bump, Created;
    CreatedKeepsCore(h, s, a, source, penalty);
    CreatedEntry(h, s, a, source, penalty);
    var u, id := Created(h, s, a, source, penalty), s.idCount;
    InsertEffect(h, u, id, source, now);
    InsertKeepsCore(h, u, id, source, now);
    NewIdUnknown(h, s);
    var (t, added) := Insert(h, u, id, source, now);
    if added { NamedBy(h, t, a.svc, id); } else { SameKeys(s.info, t.info); }
  }

  lemma CreatedEntry(h: Hashing, s: State, a: Address, source: NetAddr, penalty: int)
    ensures var u, id := Created(h, s, a, source, penalty), s.idCount;
      && id in u.info && u.info[id].svc == a.svc && !u.info[id].inTried && u.info[id].refCount == 0
      && u.newTable == s.newTable && OnlyNewTable(s, u)
      && u.info == s.info[id := u.info[id]]
  {
    hide Bump;
  }

  lemma NewIdUnknown(h: Hashing, s: State)
    requires Core(h, s, {}, {})
    ensures s.idCount !in s.info
    ensures forall slot :: slot in s.newTable ==> s.newTable[slot] in s.info
  {
    FreshId(s.info, s.addr, s.rnd, s.idCount);
  }

  /** Whether confirming an address has to wait for the entry in its tried slot to be tested. */
  ghost predicate MustWait(h: Hashing, s: State, svc: Service, testBeforeEvict: bool) {
    testBeforeEvict && h.TriedSlot(svc) in s.triedTable
  }

  /** The entry of an address that was confirmed: the success is recorded, the rest is as before. */
  function Confirmed(e: Info, time: int): Info { e.(lastSuccess := time, lastTry := time, attempts := 0) }

  /** The entry moved to its tried slot; if that was taken, its holder is new again. */
  ghost predicate MovedToTried(h: Hashing, s: State, t: State, id: int, time: int)
    requires id in s.info
  {
    var slot := h.TriedSlot(s.info[id].svc);
    && t.triedTable == s.triedTable[slot := id]
    && id in t.info && Moved(Confirmed(s.info[id], time).(refCount := 0, inTried := true), t.info[id])
    && (slot !in s.triedTable ==> MovedAlone(s, t, id))
    && (slot in s.triedTable ==>
          && s.triedTable[slot] in s.info
          && var ev := s.triedTable[slot];
             MadeRoom(s, t, id, ev, h.HomeSlot(s.info[ev].svc, s.info[ev].source)))
  }

  lemma MovedFromConfirmed(h: Hashing, s: State, u: State, t: State, id: int, time: int)
    requires id in s.info && u.info == s.info[id := Confirmed(s.info[id], time)]
    requires u.newTable == s.newTable && u.triedTable == s.triedTable
    requires var slot := h.TriedSlot(s.info[id].svc);
      && t.triedTable == s.triedTable[slot := id]
      && id in t.info && Moved(u.info[id].(refCount := 0, inTried := true), t.info[id])
      && (slot !in s.triedTable ==> MovedAlone(u, t, id))
      && (slot in s.triedTable ==>
            && s.triedTable[slot] in s.info && s.triedTable[slot] != id
            && var ev := s.triedTable[slot];
               MadeRoom(u, t, id, ev, h.HomeSlot(s.info[ev].svc, s.info[ev].source)))
    ensures MovedToTried(h, s, t, id, time)
  {
  }

  lemma GoodMoves(h: Hashing, s: State, svc: Service, testBeforeEvict: bool, time: int)
    requires Core(h, s, {}, {}) && time > 0 && svc in s.addr
    ensures s.addr[svc] in s.info && s.info[s.addr[svc]].svc == svc
    ensures var id, e := s.addr[svc], s.info[s.addr[svc]]; var (t, moved) := Good(h, s, svc, testBeforeEvict, time);
      !e.inTried && !MustWait(h, s, svc, testBeforeEvict) ==>
        moved && MovedToTried(h, s, t, id, time) && t.collisions == s.collisions && t.lastGood == time
  {
    hide Core, MakeTried, MovedToTried;
    CoreAddress(h, s, {}, {}, svc);
    var id := s.addr[svc];
    if !s.info[id].inTried && !MustWait(h, s, svc, testBeforeEvict) {
      GoodReady(h, s, id, time);
      CoreEntry(h, s, {}, {}, id);
      var slot := h.TriedSlot(svc);
      if slot in s.triedTable { CoreTriedSlot(h, s, {}, {}, slot); }
      var u := SetInfo(s, id, Greeted(s.info[id], time)).(lastGood := time);
      MakeTriedEffect(h, u, id);
      hide MovedAlone, MadeRoom;
      MovedFromConfirmed(h, s, u, MakeTried(h, u, id), id, time);
    }
  }

  /** Confirming an address records the success, and moves the address to its tried slot exactly when it is
      known, not yet tried, and does not have to wait; then it joins the waiting ids if there is room. */
  lemma GoodEffect(h: Hashing, s: State, svc: Service, testBeforeEvict: bool, time: int)
    requires Core(h, s, {}, {}) && time > 0
    ensures svc in s.addr ==> s.addr[svc] in s.info
    ensures var (t, moved) := Good(h, s, svc, testBeforeEvict, time);
      && (svc !in s.addr ==> !moved && t == s.(lastGood := time))
      && (svc in s.addr ==>
            var id, e := s.addr[svc], s.info[s.addr[svc]];
            && (moved <==> !e.inTried && !MustWait(h, s, svc, testBeforeEvict))
            && (moved ==> MovedToTried(h, s, t, id, time) && t.lastGood == time && t.collisions == s.collisions)
            && (!moved ==>
                  t == s.(info := s.info[id := Confirmed(e, time)], lastGood := time,
                          collisions := s.collisions +
                            if !e.inTried && |s.collisions| < SET_TRIED_COLLISION_SIZE then {id} else {})))
  {
    hide Core, MakeTried, TriedKnown, MovedToTried;
    if svc in s.addr {
      GoodMoves(h, s, svc, testBeforeEvict, time);
      CoreEntry(h, s, {}, {}, s.addr[svc]);
    }
  }

  // ---------------------------------------------------------------- resolving collisions

  /** The entry in the slot had no success for four hours; and either it was tried within these, more than a
      minute ago, or it was not, and the waiting entry's last success is more than forty minutes ago. */
  predicate HadItsChance(holder: Info, waiting: Info, now: int) {
    && holder.lastSuccess <= now - 4 * 3600
    && if holder.lastTry > now - 4 * 3600 then holder.lastTry < now - 60 else waiting.lastSuccess < now - 40 * 60
  }

  predicate CanBeTried(h: Hashing, s: State, id: int) { id in s.info && h.isValid(s.info[id].svc) }

  /** A waiting entry is to be moved: its slot is free now, or the one who holds it had its chance. */
  ghost predicate ToBeMoved(h: Hashing, s: State, id: int, now: int)
    requires TriedKnown(s)
  {
    && CanBeTried(h, s, id)
    && var slot := h.TriedSlot(s.info[id].svc);
       slot in s.triedTable ==> HadItsChance(s.info[s.triedTable[slot]], s.info[id], now)
  }

  /** A waiting entry is to be given up: it is gone or invalid, or the one who holds its slot succeeded within
      four hours. */
  ghost predicate ToBeGivenUp(h: Hashing, s: State, id: int, now: int)
    requires TriedKnown(s)
  {
    || !CanBeTried(h, s, id)
    || var slot := h.TriedSlot(s.info[id].svc);
       slot in s.triedTable && s.info[s.triedTable[slot]].lastSuccess > now - 4 * 3600
  }

  lemma JudgeMeans(h: Hashing, s: State, id: int, now: int)
    requires TriedKnown(s)
    ensures Judge(h, s, id, now) == Move <==> ToBeMoved(h, s, id, now)
    ensures Judge(h, s, id, now) == Forget <==> ToBeGivenUp(h, s, id, now)
  {
  }

  /** A waiting id is moved to its tried slot, given up without any other change, or goes on waiting. */
  lemma ResolveOneEffect(h: Hashing, s: State, id: int, now: int)
    requires Core(h, s, {}, {}) && now > 0
    ensures TriedKnown(s)
    ensures !(ToBeMoved(h, s, id, now) && ToBeGivenUp(h, s, id, now))
    ensures var t := ResolveOne(h, s, id, now);
      && (ToBeMoved(h, s, id, now) ==>
            && t.collisions == s.collisions - {id} && id in t.info && t.info[id].inTried
            && (if s.info[id].inTried
                then t == s.(info := s.info[id := Confirmed(s.info[id], now)], lastGood := now,
                             collisions := t.collisions)
                else MovedToTried(h, s, t, id, now)))
      && (ToBeGivenUp(h, s, id, now) ==> t == s.(collisions := s.collisions - {id}))
      && (!ToBeMoved(h, s, id, now) && !ToBeGivenUp(h, s, id, now) ==> t == s)
  {
    hide Core, MakeTried, Good, Judge, MovedAlone, MadeRoom;
    CoreTriedKnown(h, s);
    JudgeMeans(h, s, id, now);
    if Judge(h, s, id, now).Move? {
      CoreEntry(h, s, {}, {}, id);
      GoodEffect(h, s, s.info[id].svc, false, now);
      var t := Good(h, s, s.info[id].svc, false, now).0;
      if !s.info[id].inTried {
        MovedWaiting(h, s, t, t.collisions - {id}, id, now);
      }
    }
  }

  lemma MovedWaiting(h: Hashing, s: State, t: State, waiting: set<int>, id: int, time: int)
    requires id in s.info && MovedToTried(h, s, t, id, time)
    ensures MovedToTried(h, s, t.(collisions := waiting), id, time)
  {
  }

  ghost predicate Ascending(ids: seq<int>) { forall i, j :: 0 <= i < j < |ids| ==> ids[i] < ids[j] }

  /** The ids are those that wait from `k` up. */
  ghost predicate WaitingFrom(collisions: set<int>, k: int, ids: seq<int>) {
    Ascending(ids) && forall x :: x in ids <==> x in collisions && x >= k
  }

  ghost predicate AllWait(ids: seq<int>, collisions: set<int>) { forall x :: x in ids ==> x in collisions }

  /** Handles these waiting ids one after the other. */
  ghost function ResolveEach(h: Hashing, s: State, ids: seq<int>, clock: int -> int): State
    requires Inv(h, s) && (forall id :: clock(id) > 0)
    requires Ascending(ids) && AllWait(ids, s.collisions)
    decreases |ids|
  {
    if ids == [] then s
    else
      var id: int := ids[0];
      OthersWait(h, s, ids, clock(id));
      ResolveEach(h, ResolveOne(h, s, id, clock(id)), ids[1..], clock)
  }

  lemma OthersWait(h: Hashing, s: State, ids: seq<int>, now: int)
    requires Inv(h, s) && now > 0 && ids != [] && Ascending(ids) && AllWait(ids, s.collisions)
    ensures var t := ResolveOne(h, s, ids[0], now);
      && Inv(h, t) && t.idCount == s.idCount
      && (t.collisions == s.collisions || t.collisions == s.collisions - {ids[0]})
      && Ascending(ids[1..]) && AllWait(ids[1..], t.collisions)
  {
    hide Core, CollisionsOk, ResolveOne, ToBeMoved, ToBeGivenUp;
    assert ids[0] in ids;
    ResolveOneEffect(h, s, ids[0], now);
    ResolveOneKeepsInv(h, s, ids[0], now);
    ResolveOneIdCount(h, s, ids[0], now);
    forall x | x in ids[1..] ensures x in ids && x > ids[0] { }
  }

  lemma NextWaiting(collisions: set<int>, collisionsT: set<int>, k: int, ids: seq<int>)
    requires WaitingFrom(collisions, k, ids)
    requires collisionsT == collisions || collisionsT == collisions - {k}
    ensures k in collisions ==> ids != [] && ids[0] == k && WaitingFrom(collisionsT, k + 1, ids[1..])
    ensures k !in collisions ==> WaitingFrom(collisions, k + 1, ids)
  {
    if k in collisions {
      assert k in ids;
      var i :| 0 <= i < |ids| && ids[i] == k;
      assert ids[0] in ids;
      assert i == 0;
      forall x ensures x in ids[1..] <==> x in ids && x != k { }
    }
  }

  /** The pass handles all waiting collisions, each once and in ascending order, whatever the earlier ones
      did to the tables. */
  lemma {:induction false} ResolveIsEach(h: Hashing, s: State, k: nat, ids: seq<int>, clock: int -> int)
    requires Inv(h, s) && (forall id :: clock(id) > 0) && WaitingFrom(s.collisions, k, ids)
    ensures Ascending(ids) && AllWait(ids, s.collisions)
    ensures Resolve(h, s, k, clock) == ResolveEach(h, s, ids, clock)
    decreases s.idCount - k
  {
    hide Core, CollisionsOk, ResolveOne, WaitingFrom, Ascending, AllWait;
    WaitingShape(s.collisions, k, ids);
    NextWaiting(s.collisions, s.collisions, k, ids);
    if k >= s.idCount {
      NoneWaits(h, s, k, ids);
    } else if k in s.collisions {
      var t := ResolveOne(h, s, k, clock(k));
      OthersWait(h, s, ids, clock(k));
      NextWaiting(s.collisions, t.collisions, k, ids);
      ResolveIsEach(h, t, k + 1, ids[1..], clock);
    } else {
      ResolveIsEach(h, s, k + 1, ids, clock);
    }
  }

  lemma WaitingShape(collisions: set<int>, k: int, ids: seq<int>)
    requires WaitingFrom(collisions, k, ids)
    ensures Ascending(ids) && AllWait(ids, collisions)
  {
  }

  lemma NoneWaits(h: Hashing, s: State, k: int, ids: seq<int>)
    requires Inv(h, s) && WaitingFrom(s.collisions, k, ids) && k >= s.idCount
    ensures ids == []
  {
    hide Core;
    if ids != [] {
      var x := FirstOf(ids);
      assert false;
    }
  }

  lemma FirstOf(ids: seq<int>) returns (x: int)
    requires ids != []
    ensures x in ids
  {
    x := ids[0];
  }


  // ---------------------------------------------------------------- statistics of one entry

  ghost predicate OnlyEntry(info: Infos, infoT: Infos, id: int) {
    infoT.Keys == info.Keys && id in info && forall x :: x in info && x != id ==> infoT[x] == info[x]
  }

  /** How an attempt at `time` is recorded, and whether it counts as one more failure. */
  predicate Recorded(e: Info, f: Info, time: int, counts: bool) {
    f == e.(lastTry := time, attempts := e.attempts + One(counts),
            lastCountAttempt := if counts then time else e.lastCountAttempt)
  }

  lemma AttemptEffect(h: Hashing, s: State, svc: Service, countFailure: bool, time: int)
    requires Known(s, svc)
    ensures var t := Attempt(s, svc, countFailure, time);
      && (svc !in s.addr ==> t == s)
      && (svc in s.addr ==>
            var id := s.addr[svc];
            && OnlyEntry(s.info, t.info, id)
            && Recorded(s.info[id], t.info[id], time, countFailure && s.info[id].lastCountAttempt < s.lastGood))
      && (Inv(h, s) && time >= 0 ==> Inv(h, t))
  {
    hide Inv;
    if Inv(h, s) && time >= 0 {
      OnEntryKeepsInv(h, s, svc, (e: Info) => Attempted(s, e, countFailure, time));
    }
  }

  lemma ConnectedEffect(h: Hashing, s: State, svc: Service, time: int)
    requires Known(s, svc)
    ensures var t := Connected(s, svc, time);
      && (svc !in s.addr ==> t == s)
      && (svc in s.addr ==>
            var id := s.addr[svc]; var was := s.info[id].time;
            && OnlyEntry(s.info, t.info, id)
            && t.info[id] == s.info[id].(time := if was < time - 20 * 60 then time else was))
      && (Inv(h, s) ==> Inv(h, t))
  {
    hide Inv;
    if Inv(h, s) {
      OnEntryKeepsInv(h, s, svc, (e: Info) => if time - e.time > 20 * 60 then e.(time := time) else e);
    }
  }

  lemma SetServicesEffect(h: Hashing, s: State, svc: Service, services: bv64)
    requires Known(s, svc)
    ensures var t := SetServices(s, svc, services);
      && (svc !in s.addr ==> t == s)
      && (svc in s.addr ==>
            var id := s.addr[svc];
            OnlyEntry(s.info, t.info, id) && t.info[id] == s.info[id].(services := services))
      && (Inv(h, s) ==> Inv(h, t))
  {
    hide Inv;
    if Inv(h, s) {
      OnEntryKeepsInv(h, s, svc, (e: Info) => e.(services := services));
    }
  }

  /** However often attempts fail, they count as one failure until somebody succeeds again: after a first
      attempt no earlier than the last success, further ones leave the number of failures as it is. */
  lemma {:induction false} FailuresCountOnce(s: State, svc: Service, times: seq<int>)
    requires Known(s, svc) && svc in s.addr
    requires forall i :: 0 <= i < |times| ==> times[i] >= s.lastGood
    ensures var t := Attempts(s, svc, times);
      && Known(t, svc) && t.addr == s.addr && t.lastGood == s.lastGood
      && var e, f := s.info[s.addr[svc]], t.info[s.addr[svc]];
        && f.attempts == e.attempts + One(times != [] && e.lastCountAttempt < s.lastGood)
        && (times != [] ==> f.lastTry == times[|times| - 1] && f.lastCountAttempt >= s.lastGood)
        && (times == [] ==> f == e)
  {
    if times != [] {
      FailuresCountOnce(s, svc, times[..|times| - 1]);
    }
  }

  /** Failing attempts at these times, one after the other. */
  function Attempts(s: State, svc: Service, times: seq<int>): (t: State)
    requires Known(s, svc)
    ensures Known(t, svc) && t.addr == s.addr && t.info.Keys == s.info.Keys
  {
    if times == [] then s else Attempt(Attempts(s, svc, times[..|times| - 1]), svc, true, times[|times| - 1])
  }
}
