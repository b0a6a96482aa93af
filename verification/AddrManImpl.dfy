/** The address manager as an object that is updated in place.  Every method is proved to turn the
    object's state value (`Abs()`) into the one the matching function of AddrManOps gives. */
module AddrManImpl {
  import opened Basics
  import opened AddrManState
  import opened AddrManInvariant
  import opened BucketTable
  import Ops = AddrManOps
  import Check = AddrManCheck
  import Disk = AddrManStream
  import Trip = AddrManRoundTrip
  import Runs = AddrManRuns
  import Effects = AddrManEffects
  import Sharing = AddrManSharing

  /** How reading a stream ends. */
  datatype LoadResult = Ok | CorruptData | BadVersion | OutOfData | CheckFailed(code: int)

  predicate SameResult(r: LoadResult, outcome: Disk.Outcome) {
    match outcome
    case Loaded(_) => r == Ok
    case Corrupt => r == CorruptData
    case UnsupportedVersion => r == BadVersion
    case EndOfData => r == OutOfData
    case Inconsistent(_) => r.CheckFailed? && r.code != 0
  }

  class AddrManImpl {
    var h: Hashing
    const vvNew: array2<int>
    const vvTried: array2<int>
    var mapInfo: map<int, Info>
    var mapAddr: map<Service, int>
    var vRandom: seq<int>
    var nIdCount: int
    var nNew: int
    var nTried: int
    var m_network_counts: map<Network, Counts>
    var m_tried_collisions: set<int>
    var m_last_good: int

    ghost predicate Shaped() {
      && vvNew.Length0 == NEW_BUCKETS && vvNew.Length1 == BUCKET_SIZE
      && vvTried.Length0 == TRIED_BUCKETS && vvTried.Length1 == BUCKET_SIZE
      && vvNew != vvTried
    }

    ghost function Abs(): State
      reads this, vvNew, vvTried
    {
      State(mapInfo, mapAddr, vRandom, TableOf(vvNew), TableOf(vvTried),
            nNew, nTried, m_network_counts, m_tried_collisions, nIdCount, m_last_good)
    }

    constructor (h: Hashing)
      ensures this.h == h && Shaped() && fresh(vvNew) && fresh(vvTried)
      ensures Abs() == EMPTY
    {
      this.h := h;
      vvNew := new int[NEW_BUCKETS, BUCKET_SIZE]((b, p) => EMPTY_CELL);
      vvTried := new int[TRIED_BUCKETS, BUCKET_SIZE]((b, p) => EMPTY_CELL);
      mapInfo, mapAddr, vRandom, nIdCount := map[], map[], [], 0;
      nNew, nTried, m_network_counts, m_tried_collisions, m_last_good := 0, 0, map[], {}, 1;
      new;
      assert TableOf(vvNew) == map[] && TableOf(vvTried) == map[];
    }

    method Find(svc: Service) returns (found: bool, id: int)
      requires Ops.Known(Abs(), svc)
      ensures found <==> svc in mapAddr
      ensures found ==> id == mapAddr[svc] && id in mapInfo
    {
      hide TableOf;
      if svc in mapAddr { return true, mapAddr[svc]; }
      found, id := false, -1;
    }

    method Create(a: Address, source: NetAddr) returns (id: int)
      requires Shaped()
      modifies this
      ensures h == old(h)
      ensures Abs() == AddrManState.Create(h, old(Abs()), a, source) && id == old(nIdCount)
    {
      hide TableOf;
      id := nIdCount;
      nIdCount := nIdCount + 1;
      mapInfo := mapInfo[id := Info(a.svc, a.time, a.services, source, 0, 0, 0, 0, 0, false, |vRandom|)];
      mapAddr := mapAddr[a.svc := id];
      vRandom := vRandom + [id];
      nNew := nNew + 1;
      m_network_counts := Bump(m_network_counts, h.network(a.svc), 1, 0);
    }

    method SwapRandom(i: int, j: int)
      requires CanSwap(Abs(), i, j)
      modifies this`mapInfo, this`vRandom
      ensures Abs() == AddrManState.SwapRandom(old(Abs()), i, j)
    {
      hide TableOf;
      if i == j { return; }
      var id1, id2 := vRandom[i], vRandom[j];
      mapInfo := mapInfo[id1 := mapInfo[id1].(randomPos := j)];
      mapInfo := mapInfo[id2 := mapInfo[id2].(randomPos := i)];
      vRandom := vRandom[i := id2];
      vRandom := vRandom[j := id1];
    }

    method Delete(id: int)
      requires Shaped() && CanDelete(Abs(), id)
      requires !mapInfo[id].inTried && mapInfo[id].refCount == 0
      modifies this
      ensures h == old(h)
      ensures Abs() == AddrManState.Delete(h, old(Abs()), id)
    {
      hide Bump, TableOf, AddrManState.SwapRandom;
      Ops.SwapShape(Abs(), mapInfo[id].randomPos, |vRandom| - 1);
      SwapRandom(mapInfo[id].randomPos, |vRandom| - 1);
      m_network_counts := Bump(m_network_counts, h.network(mapInfo[id].svc), -1, 0);
      vRandom := vRandom[..|vRandom| - 1];
      mapAddr := mapAddr - {mapInfo[id].svc};
      mapInfo := mapInfo - {id};
      nNew := nNew - 1;
    }

    method ClearNew(slot: Slot)
      requires Shaped() && 0 <= slot.bucket < NEW_BUCKETS && 0 <= slot.pos < BUCKET_SIZE
      requires CanClear(Abs(), slot)
      requires slot in Abs().newTable ==>
        !mapInfo[Abs().newTable[slot]].inTried && mapInfo[Abs().newTable[slot]].refCount > 0
      modifies this, vvNew
      ensures h == old(h)
      ensures Abs() == AddrManState.ClearNew(h, old(Abs()), slot)
    {
      hide TableOf;
      CellIs(vvNew, slot.bucket, slot.pos);
      var id := vvNew[slot.bucket, slot.pos];
      if id != EMPTY_CELL {
        DropReference(slot);
        if mapInfo[id].refCount == 0 {
          Delete(id);
        }
      }
    }

    method DropReference(slot: Slot)
      requires Shaped() && 0 <= slot.bucket < NEW_BUCKETS && 0 <= slot.pos < BUCKET_SIZE
      requires slot in Abs().newTable && Abs().newTable[slot] in mapInfo
      modifies this`mapInfo, vvNew
      ensures Abs() == DropSlot(old(Abs()), slot)
    {
      hide TableOf;
      CellIs(vvNew, slot.bucket, slot.pos);
      var id := vvNew[slot.bucket, slot.pos];
      mapInfo := mapInfo[id := mapInfo[id].(refCount := mapInfo[id].refCount - 1)];
      SetCell(vvNew, slot.bucket, slot.pos, EMPTY_CELL);
    }

    method CountNewBy(id: int, d: int)
      requires id in mapInfo
      modifies this`nNew, this`m_network_counts
      ensures Abs() == CountNew(h, old(Abs()), id, d)
    {
      hide TableOf;
      nNew := nNew + d;
      m_network_counts := Bump(m_network_counts, h.network(mapInfo[id].svc), d, 0);
    }

    /** Moves an entry from the new table to the tried table. */
    method MakeTried(id: int)
      requires Shaped() && Core(h, Abs(), {}, {}) && Ops.MayPromote(Abs(), id) && id != EMPTY_CELL
      modifies this, vvNew, vvTried
      ensures h == old(h)
      ensures Abs() == Ops.MakeTried(h, old(Abs()), id)
    {
      hide Core, TableOf;
      ghost var was := Abs();
      LeaveNew(id);
      ghost var out := Abs();
      var slot := h.TriedSlot(mapInfo[id].svc);
      CellIs(vvTried, slot.bucket, slot.pos);
      if vvTried[slot.bucket, slot.pos] != EMPTY_CELL {
        EvictFrom(slot, id);
        Ops.EvictEffect(h, out, slot, id);
      }
      assert Abs() == Ops.MakeRoom(h, out, id);
      hide Ops.MakeRoom, Ops.TakeOut;
      EnterTried(id, slot);
    }

    /** MakeTried's first half: the entry leaves the new table and its counters. */
    method LeaveNew(id: int)
      requires Shaped() && Core(h, Abs(), {}, {}) && id in mapInfo && !mapInfo[id].inTried && id != EMPTY_CELL
      modifies this, vvNew
      ensures h == old(h)
      ensures Abs() == Ops.TakeOut(h, old(Abs()), id)
      ensures mapInfo.Keys == old(mapInfo.Keys) && mapInfo[id] == old(mapInfo[id]).(refCount := 0)
    {
      hide Core, Ops.Strip, Bump, TableOf;
      ghost var was := Abs();
      Ops.TakeOutReady(h, was, id);
      RemoveReferences(id, h.newBucket(mapInfo[id].svc, mapInfo[id].source));
      CountNewBy(id, -1);
    }

    method EnterTried(id: int, slot: Slot)
      requires Shaped() && id in mapInfo && slot == h.TriedSlot(mapInfo[id].svc) && id != EMPTY_CELL
      modifies this, vvTried
      ensures h == old(h)
      ensures Abs() == Promote(h, old(Abs()), id)
    {
      hide TableOf;
      SetCell(vvTried, slot.bucket, slot.pos, id);
      nTried := nTried + 1;
      mapInfo := mapInfo[id := mapInfo[id].(inTried := true)];
      m_network_counts := Bump(m_network_counts, h.network(mapInfo[id].svc), 0, 1);
    }

    /** MakeTried's loop over the buckets of the new table. */
    method RemoveReferences(id: int, startBucket: NewBucket)
      requires Shaped() && id in mapInfo && id != EMPTY_CELL
      modifies this`mapInfo, vvNew
      ensures Abs() == Ops.Strip(h, old(Abs()), id, startBucket, 0)
    {
      hide Ops.Strip, DropSlot, TableOf;
      ghost var goal := Ops.Strip(h, Abs(), id, startBucket, 0);
      for n := 0 to NEW_BUCKETS
        invariant id in mapInfo
        invariant Ops.Strip(h, Abs(), id, startBucket, n) == goal
      {
        ghost var was := Abs();
        var done := RemoveReference(id, h.NewSlot(mapInfo[id].svc, Ops.Visit(startBucket, n)));
        Ops.StripTurn(h, was, Abs(), id, startBucket, n);
        if done { return; }
      }
      Ops.StripEnds(h, Abs(), id, startBucket);
    }

    /** Empties a slot if it holds the entry; says whether that was its last reference. */
    method RemoveReference(id: int, slot: Slot) returns (done: bool)
      requires Shaped() && id in mapInfo && id != EMPTY_CELL
      requires 0 <= slot.bucket < NEW_BUCKETS && 0 <= slot.pos < BUCKET_SIZE
      modifies this`mapInfo, vvNew
      ensures id in mapInfo
      ensures var was := old(Abs());
        if slot in was.newTable && was.newTable[slot] == id
        then Abs() == DropSlot(was, slot) && Abs() != was && done == (mapInfo[id].refCount == 0)
        else Abs() == was && !done
    {
      hide TableOf;
      CellIs(vvNew, slot.bucket, slot.pos);
      done := false;
      if vvNew[slot.bucket, slot.pos] == id {
        DropReference(slot);
        assert slot !in Abs().newTable;
        done := mapInfo[id].refCount == 0;
      }
    }

    /** MakeTried's eviction: the entry in a tried slot goes back to the new table. */
    method EvictFrom(slot: Slot, ghost id: int)
      requires Shaped() && 0 <= slot.bucket < TRIED_BUCKETS && 0 <= slot.pos < BUCKET_SIZE
      requires Core(h, Abs(), {id}, {}) && id in mapInfo && mapInfo[id].refCount == 0 && slot in Abs().triedTable
      modifies this, vvNew, vvTried
      ensures h == old(h)
      ensures Abs() == Ops.Evict(h, old(Abs()), slot, id)
    {
      hide Core, TableOf;
      ghost var was := Abs();
      CellIs(vvTried, slot.bucket, slot.pos);
      var idEvict := vvTried[slot.bucket, slot.pos];
      Ops.EvictDemoted(h, was, slot, id);
      Ops.ClearedStill(h, was, slot, id);
      CoreEntry(h, was, {id}, {}, idEvict);
      LeaveTried(slot);
      var home := h.HomeSlot(mapInfo[idEvict].svc, mapInfo[idEvict].source);
      ghost var demoted := Abs();
      if home in demoted.newTable {
        CoreNewSlot(h, demoted, {id, idEvict}, {}, home);
      }
      hide Demote;
      ClearNew(home);
      hide AddrManState.ClearNew;
      EnterNewAgain(idEvict, home);
    }

    method LeaveTried(slot: Slot)
      requires Shaped() && 0 <= slot.bucket < TRIED_BUCKETS && 0 <= slot.pos < BUCKET_SIZE
      requires slot in Abs().triedTable && Abs().triedTable[slot] in mapInfo
      modifies this, vvTried
      ensures h == old(h)
      ensures Abs() == Demote(h, old(Abs()), slot)
    {
      hide TableOf;
      CellIs(vvTried, slot.bucket, slot.pos);
      var id := vvTried[slot.bucket, slot.pos];
      mapInfo := mapInfo[id := mapInfo[id].(inTried := false)];
      SetCell(vvTried, slot.bucket, slot.pos, EMPTY_CELL);
      nTried := nTried - 1;
      m_network_counts := Bump(m_network_counts, h.network(mapInfo[id].svc), 0, -1);
    }

    method EnterNewAgain(id: int, home: Slot)
      requires Shaped() && 0 <= home.bucket < NEW_BUCKETS && 0 <= home.pos < BUCKET_SIZE
      requires id in mapInfo && id != EMPTY_CELL
      modifies this, vvNew
      ensures h == old(h)
      ensures Abs() == Ops.Reenter(h, old(Abs()), id, home)
    {
      hide TableOf;
      mapInfo := mapInfo[id := mapInfo[id].(refCount := 1)];
      SetCell(vvNew, home.bucket, home.pos, id);
      CountNewBy(id, 1);
    }

    // -------------------------------------------------------------- the operations

    /** Tries to add one address; `now` is the clock and `draw` the random number. */
    method AddSingle(a: Address, source: NetAddr, timePenalty: int, now: int, draw: nat) returns (added: bool)
      requires Shaped() && Core(h, Abs(), {}, {})
      modifies this, vvNew
      ensures h == old(h)
      ensures (Abs(), added) == Ops.AddSingle(h, old(Abs()), a, source, timePenalty, now, draw)
    {
      hide Core, TableOf;
      if !h.isRoutable(a.svc) { return false; }
      ghost var was := Abs();
      Ops.CoreKnown(h, was, a.svc);
      CoreIds(h, was, {}, {});
      var found, id := Find(a.svc);
      var penalty := if a.svc.net == source then 0 else timePenalty;
      if found {
        CoreAddress(h, was, {}, {}, a.svc);
        mapInfo := mapInfo[id := Ops.Refreshed(mapInfo[id], a, penalty, now)];
        Ops.RefreshKeepsCore(h, was, id, a, penalty, now);
        if !Ops.WantsMore(mapInfo[id], a, draw) { return false; }
        Ops.LoosenCore(h, Abs(), id);
      } else {
        id := Create(a, source);
        Ops.CreatedKeepsCore(h, was, a, source, penalty);
        mapInfo := mapInfo[id := mapInfo[id].(time := Max(0, a.time - penalty))];
        assert Abs() == Ops.Created(h, was, a, source, penalty);
      }
      hide Ops.Insert;
      added := Insert(id, source, now);
    }

    /** AddSingle's second half. */
    method Insert(id: int, source: NetAddr, now: int) returns (added: bool)
      requires Shaped() && Core(h, Abs(), {}, {id}) && id in mapInfo && id != EMPTY_CELL
      requires !mapInfo[id].inTried
      modifies this, vvNew
      ensures h == old(h)
      ensures (Abs(), added) == Ops.Insert(h, old(Abs()), id, source, now)
    {
      hide Core, TableOf;
      ghost var was := Abs();
      var slot := h.HomeSlot(mapInfo[id].svc, source);
      CellIs(vvNew, slot.bucket, slot.pos);
      CoreClear(h, was, {}, {id}, slot);
      var there := vvNew[slot.bucket, slot.pos];
      added := there == EMPTY_CELL;
      if there != id {
        if !added {
          CoreNewSlot(h, was, {}, {id}, slot);
          added := Ops.MayOverwrite(mapInfo[there], mapInfo[id], now);
        }
        if added {
          ClearNew(slot);
          hide AddrManState.ClearNew;
          mapInfo := mapInfo[id := mapInfo[id].(refCount := mapInfo[id].refCount + 1)];
          SetCell(vvNew, slot.bucket, slot.pos, id);
        } else if mapInfo[id].refCount == 0 {
          CoreDeletable(h, was, {}, {id}, id);
          Delete(id);
        }
      }
    }

    method Good(svc: Service, testBeforeEvict: bool, time: int) returns (moved: bool)
      requires Shaped() && Core(h, Abs(), {}, {}) && time > 0
      modifies this, vvNew, vvTried
      ensures h == old(h)
      ensures (Abs(), moved) == Ops.Good(h, old(Abs()), svc, testBeforeEvict, time)
    {
      hide Core, TableOf;
      ghost var was := Abs();
      Ops.CoreKnown(h, was, svc);
      CoreIds(h, was, {}, {});
      m_last_good := time;
      var found, id := Find(svc);
      if !found { return false; }
      CoreAddress(h, was, {}, {}, svc);
      mapInfo := mapInfo[id := Ops.Greeted(mapInfo[id], time)];
      assert Abs() == SetInfo(was, id, Ops.Greeted(was.info[id], time)).(lastGood := time);
      Ops.GoodReady(h, was, id, time);
      if mapInfo[id].inTried || mapInfo[id].refCount <= 0 { return false; }
      var slot := h.TriedSlot(mapInfo[id].svc);
      CellIs(vvTried, slot.bucket, slot.pos);
      if testBeforeEvict && vvTried[slot.bucket, slot.pos] != EMPTY_CELL {
        if |m_tried_collisions| < SET_TRIED_COLLISION_SIZE {
          m_tried_collisions := m_tried_collisions + {id};
        }
        moved := false;
      } else {
        hide Ops.MakeTried;
        MakeTried(id);
        moved := true;
      }
    }

    /** Records an attempt to connect.  A failure counts only if none was counted since the last success
        of any entry. */
    method Attempt(svc: Service, countFailure: bool, time: int)
      requires Ops.Known(Abs(), svc)
      modifies this`mapInfo
      ensures Abs() == Ops.Attempt(old(Abs()), svc, countFailure, time)
      ensures svc !in mapAddr ==> mapInfo == old(mapInfo)
      ensures svc in mapAddr ==>
        var id := mapAddr[svc]; var e := old(mapInfo[id]);
        && Effects.OnlyEntry(old(mapInfo), mapInfo, id)
        && Effects.Recorded(e, mapInfo[id], time, countFailure && e.lastCountAttempt < m_last_good)
      ensures old(Inv(h, Abs())) && time >= 0 ==> Inv(h, Abs())
    {
      hide Inv, TableOf;
      ghost var was := Abs();
      var found, id := Find(svc);
      if found {
        var e := mapInfo[id].(lastTry := time);
        if countFailure && e.lastCountAttempt < m_last_good {
          e := e.(lastCountAttempt := time, attempts := e.attempts + 1);
        }
        mapInfo := mapInfo[id := e];
      }
      assert Abs() == Ops.Attempt(was, svc, countFailure, time);
      hide Ops.Attempt, Effects.OnlyEntry, Effects.Recorded;
      Effects.AttemptEffect(h, was, svc, countFailure, time);
    }

    /** Records that a connection is up: the entry's time moves up if it is more than twenty minutes
        behind. */
    method Connected(svc: Service, time: int)
      requires Ops.Known(Abs(), svc)
      modifies this`mapInfo
      ensures Abs() == Ops.Connected(old(Abs()), svc, time)
      ensures svc !in mapAddr ==> mapInfo == old(mapInfo)
      ensures svc in mapAddr ==>
        var id := mapAddr[svc]; var e := old(mapInfo[id]);
        && Effects.OnlyEntry(old(mapInfo), mapInfo, id)
        && mapInfo[id] == e.(time := if e.time < time - 20 * 60 then time else e.time)
      ensures old(Inv(h, Abs())) ==> Inv(h, Abs())
    {
      hide Inv, TableOf;
      ghost var was := Abs();
      var found, id := Find(svc);
      if found {
        if time - mapInfo[id].time > 20 * 60 {
          mapInfo := mapInfo[id := mapInfo[id].(time := time)];
        } else {
          assert mapInfo[id := mapInfo[id]] == mapInfo;
        }
      }
      assert Abs() == Ops.Connected(was, svc, time);
      hide Ops.Connected, Effects.OnlyEntry;
      Effects.ConnectedEffect(h, was, svc, time);
    }

    /** Replaces the services of an entry. */
    method SetServices(svc: Service, services: bv64)
      requires Ops.Known(Abs(), svc)
      modifies this`mapInfo
      ensures Abs() == Ops.SetServices(old(Abs()), svc, services)
      ensures svc !in mapAddr ==> mapInfo == old(mapInfo)
      ensures svc in mapAddr ==>
        var id := mapAddr[svc];
        && Effects.OnlyEntry(old(mapInfo), mapInfo, id)
        && mapInfo[id] == old(mapInfo[id]).(services := services)
      ensures old(Inv(h, Abs())) ==> Inv(h, Abs())
    {
      hide Inv, TableOf;
      ghost var was := Abs();
      var found, id := Find(svc);
      if found {
        mapInfo := mapInfo[id := mapInfo[id].(services := services)];
      }
      assert Abs() == Ops.SetServices(was, svc, services);
      hide Ops.SetServices, Effects.OnlyEntry;
      Effects.SetServicesEffect(h, was, svc, services);
    }

    /** Visits the waiting collisions in ascending order of id; `clock(id)` is the time while one is
        handled. */
    method ResolveCollisions(clock: int -> int)
      requires Shaped() && Inv(h, Abs()) && forall id :: clock(id) > 0
      modifies this, vvNew, vvTried
      ensures h == old(h)
      ensures Abs() == Ops.Resolve(h, old(Abs()), 0, clock)
    {
      hide Core, CollisionsOk, Ops.ResolveOne, TableOf;
      ghost var goal := Ops.Resolve(h, Abs(), 0, clock);
      var last := nIdCount;
      CoreIds(h, Abs(), {}, {});
      for k := 0 to last
        invariant h == old(h) && Inv(h, Abs()) && nIdCount == last
        invariant Ops.Resolve(h, Abs(), k, clock) == goal
      {
        if k in m_tried_collisions {
          Ops.ResolveOneKeepsInv(h, Abs(), k, clock(k));
          Ops.ResolveOneIdCount(h, Abs(), k, clock(k));
          ResolveCollision(k, clock(k));
        }
      }
    }

    method ResolveCollision(id: int, now: int)
      requires Shaped() && Inv(h, Abs()) && now > 0
      modifies this, vvNew, vvTried
      ensures h == old(h)
      ensures Abs() == Ops.ResolveOne(h, old(Abs()), id, now)
    {
      hide Core, CollisionsOk, TableOf, Ops.Good;
      Ops.CoreTriedKnown(h, Abs());
      var eraseCollision := false;
      if id !in mapInfo || !h.isValid(mapInfo[id].svc) {
        eraseCollision := true;
      } else {
        var slot := h.TriedSlot(mapInfo[id].svc);
        CellIs(vvTried, slot.bucket, slot.pos);
        var idOld := vvTried[slot.bucket, slot.pos];
        var move := false;
        if idOld != EMPTY_CELL {
          var infoOld := mapInfo[idOld];
          if now - infoOld.lastSuccess < REPLACEMENT {
            eraseCollision := true;
          } else if now - infoOld.lastTry < REPLACEMENT {
            move := now - infoOld.lastTry > 60;
          } else {
            move := now - mapInfo[id].lastSuccess > TEST_WINDOW;
          }
        } else {
          move := true;
        }
        if move {
          var moved := Good(mapInfo[id].svc, false, now);
          eraseCollision := true;
        }
      }
      if eraseCollision {
        m_tried_collisions := m_tried_collisions - {id};
      }
    }

    /** Picks one of the waiting collisions; answers with the id in the tried slot it waits for, or
        with the empty cell when nothing waits or the picked id is gone. */
    method SelectTriedCollision(pick: int) returns (id: int)
      requires Shaped() && Inv(h, Abs())
      requires m_tried_collisions != {} ==> pick in m_tried_collisions
      modifies this`m_tried_collisions
      ensures old(m_tried_collisions) == {} ==> Abs() == old(Abs()) && id == EMPTY_CELL
      ensures old(m_tried_collisions) != {} ==> (Abs(), id) == Ops.SelectTriedCollision(h, old(Abs()), pick)
      ensures id != EMPTY_CELL ==> id in mapInfo && mapInfo[id].inTried
    {
      hide Core, TableOf;
      if m_tried_collisions == {} { return EMPTY_CELL; }
      Ops.SelectTriedCollisionFinds(h, Abs(), pick);
      if pick !in mapInfo {
        m_tried_collisions := m_tried_collisions - {pick};
        return EMPTY_CELL;
      }
      var slot := h.TriedSlot(mapInfo[pick].svc);
      CellIs(vvTried, slot.bucket, slot.pos);
      id := vvTried[slot.bucket, slot.pos];
    }

    method GetAddr(maxAddresses: nat, maxPct: nat, picks: nat -> nat, filter: Ops.Filter,
                   now: int) returns (ids: seq<int>)
      requires Shaped() && Inv(h, Abs())
      modifies this`mapInfo, this`vRandom
      ensures (Abs(), ids) == Ops.GetAddr(h, old(Abs()), maxAddresses, maxPct, picks, filter, now)
      ensures Sharing.HandedOut(h, old(Abs()), filter, now, maxAddresses, maxPct, ids) && Inv(h, Abs())
    {
      hide Core, CollisionsOk, AddrManState.SwapRandom, Ops.Pick, Ops.Shareable, TableOf, Sharing.HandedOut,
           Sharing.SharedIds;
      Sharing.GetAddrEffect(h, Abs(), maxAddresses, maxPct, picks, filter, now);
      Ops.CoreVector(h, Abs());
      var size := |vRandom|;
      var limit := Ops.ShareLimit(size, maxAddresses, maxPct);
      ghost var goal := Ops.Collect(h, Abs(), 0, limit, picks, filter, now, []);
      ids := [];
      var n := 0;
      while n < size && |ids| < limit
        invariant n <= size == |vRandom|
        invariant Inv(h, Abs()) && Ops.VectorKnown(Abs())
        invariant Ops.Collect(h, Abs(), n, limit, picks, filter, now, ids) == goal
      {
        Ops.CollectTurn(h, Abs(), n, Ops.Pick(picks, n, size));
        SwapRandom(n, Ops.Pick(picks, n, size));
        if Ops.Shareable(h, mapInfo[vRandom[n]], filter, now) {
          ids := ids + [vRandom[n]];
        }
        n := n + 1;
      }
    }

    // -------------------------------------------------------------- the consistency check

    /** Returns 0 exactly for the states that `Consistent` describes; every state in which the
        structures agree is one of them. */
    method CheckAddrman() returns (code: int)
      requires Shaped()
      ensures code == 0 <==> Check.Consistent(h, Abs())
      ensures Inv(h, Abs()) ==> code == 0
    {
      hide TableOf, Inv, TriedOk, NewSlotsOk, Ids, Check.RefsExact, Check.CountersPass, Check.IsRecount,
           Check.Consistent;
      ghost var s := Abs();
      Check.ConsistentParts(h, s);
      if Inv(h, s) { Check.InvIsConsistent(h, s); }
      if |vRandom| != nTried + nNew { return -7; }
      var r;
      code, r := Check.CheckEntries(h, mapInfo, mapAddr, vRandom);
      if code != 0 { return; }
      Check.RecountParts(h, mapInfo, r);
      Check.RecountSizes(h, mapInfo, r);
      if |r.setTried| != nTried { return -9; }
      if |r.mapNew| != nNew { return -10; }
      var setTried, mapNew;
      code, setTried := Check.CheckTried(h, mapInfo, vvTried, r.setTried);
      if code != 0 { return; }
      code, mapNew := Check.CheckNew(h, mapInfo, vvNew, r.mapNew);
      if code != 0 { return; }
      if setTried != {} { return -13; }
      if mapNew != map[] { return -15; }
      if h.keyIsNull { return -16; }
      code := Check.CheckCounts(m_network_counts, r.local);
      Check.CountersMatch(h, s, r);
    }

    // -------------------------------------------------------------- writing and reading

    /** The entries with references, in the order of the walk, and the index that each id gets. */
    method WriteNew(order: seq<int>) returns (entries: seq<Disk.Saved>, mapUnkIds: map<int, int>)
      requires Core(h, Abs(), {}, {}) && Disk.IsOrder(order, mapInfo)
      ensures entries == Disk.SaveAll(mapInfo, Disk.NewIds(Abs(), order))
      ensures Trip.IndexesKnown(mapUnkIds, Disk.NewIds(Abs(), order))
    {
      hide Core, TableOf;
      entries, mapUnkIds := [], map[];
      var nIds := 0;
      for i := 0 to |order|
        invariant Trip.NewWritten(mapInfo, order, i, entries, mapUnkIds) && nIds == |entries|
      {
        var id := order[i];
        Trip.NewWriteStep(h, Abs(), order, i, entries, mapUnkIds);
        mapUnkIds := mapUnkIds[id := nIds];
        if mapInfo[id].refCount != 0 {
          assert nIds != nNew;
          entries := entries + [Disk.Save(mapInfo[id])];
          nIds := nIds + 1;
        }
      }
      assert order[..|order|] == order;
    }

    method WriteTried(order: seq<int>) returns (entries: seq<Disk.Saved>)
      requires Core(h, Abs(), {}, {}) && Disk.IsOrder(order, mapInfo)
      ensures entries == Disk.SaveAll(mapInfo, Disk.TriedIds(Abs(), order))
    {
      hide Core, TableOf;
      entries := [];
      var nIds := 0;
      for i := 0 to |order|
        invariant Trip.TriedWritten(mapInfo, order, i, entries) && nIds == |entries|
      {
        var id := order[i];
        Trip.TriedWriteStep(h, Abs(), order, i, entries);
        if mapInfo[id].inTried {
          assert nIds != nTried;
          entries := entries + [Disk.Save(mapInfo[id])];
          nIds := nIds + 1;
        }
      }
      assert order[..|order|] == order;
    }

    /** The indexes of the entries in one bucket of the new table. */
    method WriteBucket(bucket: NewBucket, mapUnkIds: map<int, int>, ghost order: seq<int>) returns (indexes: seq<int>)
      requires Shaped() && Core(h, Abs(), {}, {}) && Disk.IsOrder(order, mapInfo)
      requires Trip.IndexesKnown(mapUnkIds, Disk.NewIds(Abs(), order))
      ensures indexes == Disk.BucketOf(Abs().newTable, bucket, Disk.NewIds(Abs(), order))
    {
      hide Core, Disk.NewIds, Disk.SlotsFrom, Disk.IsOrder, Disk.BucketOf, Trip.BucketFrom, Trip.IndexesKnown, TableOf;
      Trip.BucketStarts(Abs().newTable, bucket, Disk.NewIds(Abs(), order));
      ghost var table, ids := Abs().newTable, Disk.NewIds(Abs(), order);
      indexes := [];
      for i := 0 to BUCKET_SIZE
        invariant indexes + Trip.BucketFrom(table, bucket, i, ids) == Disk.BucketOf(table, bucket, ids)
      {
        Trip.BucketStep(table, bucket, i, ids);
        CellIs(vvNew, bucket, i);
        if vvNew[bucket, i] != EMPTY_CELL {
          Trip.KnownIndex(h, Abs(), order, mapUnkIds, Slot(bucket, i));
          indexes := indexes + [mapUnkIds[vvNew[bucket, i]]];
        }
      }
    }

    /** Writes everything that is not reconstructed.  `order` is the order of the walk over the entries. */
    method Serialize(order: seq<int>, key: nat, asmap: nat) returns (m: Disk.Stream)
      requires Shaped() && Core(h, Abs(), {}, {}) && Disk.IsOrder(order, mapInfo)
      ensures m == Disk.Serialize(Abs(), order, key, asmap)
    {
      hide Core, Disk.NewIds, Disk.TriedIds, Disk.BucketOf, TableOf;
      var newEntries, mapUnkIds := WriteNew(order);
      var triedEntries := WriteTried(order);
      var buckets: seq<seq<int>> := [];
      for bucket := 0 to NEW_BUCKETS
        invariant buckets == Disk.Buckets(Abs().newTable, Disk.NewIds(Abs(), order))[..bucket]
      {
        var indexes := WriteBucket(bucket, mapUnkIds, order);
        buckets := buckets + [indexes];
      }
      m := Disk.Stream(Disk.FILE_FORMAT, Disk.INCOMPATIBILITY_BASE + Disk.LOWEST_COMPATIBLE, key, nNew, nTried,
                       Disk.FlipBit30(NEW_BUCKETS), newEntries, triedEntries, buckets, asmap);
    }

    /** Enters the addresses of the new table. */
    method ReadNew(entries: seq<Disk.Saved>)
      requires nIdCount == 0
      modifies this`mapInfo, this`mapAddr, this`vRandom, this`m_network_counts, this`nIdCount
      ensures Abs() == Disk.LoadAllNew(h, old(Abs()), entries) && nIdCount == |entries|
    {
      hide Bump, TableOf, Disk.LoadAllNew;
      Disk.LoadNoNew(h, Abs(), entries);
      for n := 0 to |entries|
        invariant nIdCount == 0
        invariant Abs().(idCount := n) == Disk.LoadAllNew(h, old(Abs()), entries[..n])
      {
        Disk.LoadOneNew(h, old(Abs()), entries, n);
        var v := entries[n];
        mapInfo := mapInfo[n := Disk.Load(v, |vRandom|)];
        mapAddr := mapAddr[v.svc := n];
        vRandom := vRandom + [n];
        m_network_counts := Bump(m_network_counts, h.network(v.svc), 1, 0);
      }
      assert entries[..|entries|] == entries;
      nIdCount := |entries|;
    }

    method EnterTriedAddress(v: Disk.Saved)
      requires Shaped() && nIdCount >= 0 && h.isValid(v.svc) && h.TriedSlot(v.svc) !in Abs().triedTable
      modifies this`mapInfo, this`mapAddr, this`vRandom, this`m_network_counts, this`nIdCount, vvTried
      ensures nIdCount == old(nIdCount) + 1
      ensures Abs() == Disk.LoadTried(h, old(Abs()), v)
    {
      hide Bump, TableOf, Disk.Load, Disk.LoadTried;
      Disk.LoadTriedEntered(h, Abs(), v, Disk.Load(v, |vRandom|).(inTried := true));
      var slot := h.TriedSlot(v.svc);
      mapInfo := mapInfo[nIdCount := Disk.Load(v, |vRandom|).(inTried := true)];
      vRandom := vRandom + [nIdCount];
      mapAddr := mapAddr[v.svc := nIdCount];
      SetCell(vvTried, slot.bucket, slot.pos, nIdCount);
      nIdCount := nIdCount + 1;
      m_network_counts := Bump(m_network_counts, h.network(v.svc), 0, 1);
    }

    /** Enters the tried addresses; invalid ones and ones whose slot is taken are lost. */
    method ReadTried(entries: seq<Disk.Saved>)
      requires Shaped() && nIdCount >= 0
      modifies this`mapInfo, this`mapAddr, this`vRandom, this`m_network_counts, this`nIdCount, this`nTried, vvTried
      ensures Abs() == Disk.LoadAllTried(h, old(Abs()), entries)
    {
      hide Bump, TableOf, Disk.LoadAllTried, Disk.LoadTried;
      Disk.LoadNoTried(h, Abs(), entries);
      var nLost := 0;
      for n := 0 to |entries|
        invariant nIdCount >= 0
        invariant Abs().(nTried := nTried - nLost) == Disk.LoadAllTried(h, old(Abs()), entries[..n])
      {
        Disk.LoadOneTried(h, old(Abs()), entries, n);
        var v := entries[n];
        var slot := h.TriedSlot(v.svc);
        CellIs(vvTried, slot.bucket, slot.pos);
        if h.isValid(v.svc) && vvTried[slot.bucket, slot.pos] == EMPTY_CELL {
          Disk.LoadTriedCounts(h, Abs(), v, nTried - nLost);
          EnterTriedAddress(v);
        } else {
          Disk.LoadTriedLost(h, Abs().(nTried := nTried - nLost), v);
          nLost := nLost + 1;
        }
      }
      assert entries[..|entries|] == entries;
      nTried := nTried - nLost;
    }

    /** Gives one entry a reference, if there is room for it. */
    method PlaceReference(entry: Disk.BucketEntry, restore: bool)
      requires Shaped() && entry.index in mapInfo && entry.index != EMPTY_CELL
        && (restore ==> entry.bucket < NEW_BUCKETS)
      modifies this`mapInfo, vvNew
      ensures Abs() == Disk.PlaceEntry(h, old(Abs()), restore, entry)
    {
      hide TableOf;
      var e := mapInfo[entry.index];
      if !h.isValid(e.svc) || e.refCount >= NEW_BUCKETS_PER_ADDRESS { return; }
      if restore {
        var slot := h.NewSlot(e.svc, entry.bucket);
        CellIs(vvNew, slot.bucket, slot.pos);
        if vvNew[slot.bucket, slot.pos] == EMPTY_CELL {
          EnterReference(entry.index, slot);
          return;
        }
      }
      var home := h.HomeSlot(e.svc, e.source);
      CellIs(vvNew, home.bucket, home.pos);
      if vvNew[home.bucket, home.pos] == EMPTY_CELL {
        EnterReference(entry.index, home);
      }
    }

    method EnterReference(id: int, slot: Slot)
      requires Shaped() && id in mapInfo && id != EMPTY_CELL && 0 <= slot.bucket < NEW_BUCKETS
        && 0 <= slot.pos < BUCKET_SIZE
      modifies this`mapInfo, vvNew
      ensures Abs() == PlaceNew(old(Abs()), id, slot)
    {
      hide TableOf;
      SetCell(vvNew, slot.bucket, slot.pos, id);
      mapInfo := mapInfo[id := mapInfo[id].(refCount := mapInfo[id].refCount + 1)];
    }

    /** The bucket entries of a stream that name an address of the new table. */
    method ReadBuckets(buckets: seq<seq<int>>, nNew: int) returns (entries: seq<Disk.BucketEntry>)
      ensures entries == Disk.AllEntries(buckets, |buckets|, nNew)
    {
      entries := [];
      for bucket := 0 to |buckets|
        invariant entries == Disk.AllEntries(buckets, bucket, nNew)
      {
        ghost var before := entries;
        var indexes := buckets[bucket];
        assert indexes[..0] == [];
        for n := 0 to |indexes|
          invariant entries == before + Disk.EntriesOf(indexes[..n], bucket, nNew)
        {
          assert indexes[..n + 1][..n] == indexes[..n];
          if indexes[n] >= 0 && indexes[n] < nNew {
            entries := entries + [Disk.BucketEntry(bucket, indexes[n])];
          }
        }
        assert indexes[..|indexes|] == indexes;
      }
    }

    method PlaceReferences(entries: seq<Disk.BucketEntry>, restore: bool)
      requires Shaped() && Disk.Indexed(entries, mapInfo) && EMPTY_CELL !in mapInfo
      requires restore ==> forall k :: 0 <= k < |entries| ==> entries[k].bucket < NEW_BUCKETS
      modifies this`mapInfo, vvNew
      ensures Abs() == Disk.PlaceAll(h, old(Abs()), restore, entries)
    {
      hide Disk.PlaceEntry, TableOf;
      assert entries[..0] == [];
      for k := 0 to |entries|
        invariant mapInfo.Keys == old(mapInfo.Keys)
        invariant Disk.Indexed(entries[..k], old(mapInfo))
        invariant Abs() == Disk.PlaceAll(h, old(Abs()), restore, entries[..k])
      {
        assert entries[..k + 1][..k] == entries[..k] && entries[k].index in mapInfo;
        PlaceReference(entries[k], restore);
      }
      assert entries[..|entries|] == entries;
    }

    /** Deletes the entries that got neither a reference nor a tried slot. */
    method PruneUnused(order: seq<int>)
      requires Shaped() && Disk.Readable(Abs())
      modifies this
      ensures h == old(h)
      ensures Abs() == Disk.Prune(h, old(Abs()), order)
    {
      hide Disk.Readable, AddrManState.Delete, TableOf;
      assert order[..0] == [];
      for k := 0 to |order|
        invariant h == old(h) && Disk.Readable(Abs())
        invariant Abs() == Disk.Prune(h, old(Abs()), order[..k])
      {
        assert order[..k + 1][..k] == order[..k];
        var id := order[k];
        if id in mapInfo && !mapInfo[id].inTried && mapInfo[id].refCount == 0 {
          Disk.DeleteKeepsReadable(h, Abs(), id);
          Delete(id);
        }
      }
      assert order[..|order|] == order;
    }

    /** Reads a stream into an object that is still empty, with the hash functions for the key in the
        stream.  When the stream is refused the object is of no use. */
    method Unserialize(hashing: nat -> Hashing, m: Disk.Stream, asmap: nat, order: seq<int>) returns (r: LoadResult)
      requires Shaped() && Abs() == EMPTY
      modifies this, vvNew, vvTried
      ensures var outcome := Disk.Unserialize(hashing, m, asmap, order);
        && SameResult(r, outcome)
        && (outcome.Loaded? || outcome.Inconsistent? ==> Abs() == outcome.state && h == hashing(m.key))
      ensures r == Ok ==> Inv(h, Abs())
    {
      hide Check.Consistent, Disk.AllEntries, Disk.Prune, Disk.PlaceAll, Disk.LoadAllNew, Disk.LoadAllTried,
           Disk.Readable,
           Inv, TableOf;
      Runs.AcceptedAgrees(hashing(m.key), m, asmap, order);
      if m.compat < Disk.INCOMPATIBILITY_BASE { return CorruptData; }
      if m.compat - Disk.INCOMPATIBILITY_BASE > Disk.FILE_FORMAT { return BadVersion; }
      h := hashing(m.key);
      nNew, nTried := m.nNew, m.nTried;
      if nNew > NEW_BUCKETS * BUCKET_SIZE || nNew < 0 { return CorruptData; }
      if nTried > TRIED_BUCKETS * BUCKET_SIZE || nTried < 0 { return CorruptData; }
      if !Disk.Complete(m) { return OutOfData; }
      ReadRecords(m, asmap, order);
      var code := CheckAddrman();
      r := if code == 0 then Ok else CheckFailed(code);
    }

    /** Reads the addresses and their references, and drops the entries that got none. */
    method ReadRecords(m: Disk.Stream, asmap: nat, order: seq<int>)
      requires Shaped() && Abs() == EMPTY.(nNew := m.nNew, nTried := m.nTried)
      requires m.nNew >= 0 && Disk.Complete(m)
      modifies this, vvNew, vvTried
      ensures h == old(h)
      ensures Abs() == Disk.Records(h, m, asmap, order)
    {
      hide Disk.AllEntries, Disk.Prune, Disk.PlaceAll, Disk.LoadAllNew, Disk.LoadAllTried, Disk.Readable, TableOf;
      ReadNew(m.newEntries);
      ReadTried(m.triedEntries);
      Disk.AddressesFacts(h, m);
      assert Abs() == Disk.Addresses(h, m);
      var entries := ReadBuckets(m.buckets, m.nNew);
      var restore := Disk.Restorable(m, asmap);
      Disk.EntriesFacts(h, m, |m.buckets|);
      Disk.PlaceKeepsReadable(h, Abs(), restore, entries);
      PlaceReferences(entries, restore);
      PruneUnused(order);
    }
  }
}
