/** What inserting, ageing and erasing do to the live entries of a cuckoo cache, over every run. */
module CuckooTheorems {
  import opened Basics
  import opened CuckooState

  /** The elements that are not marked for erasure. */
  ghost function Live<E>(c: Cache<E>): iset<E>
    requires |c.table| == |c.collected|
  {
    iset i | 0 <= i < |c.table| && !c.collected[i] :: c.table[i]
  }

  /** Every live entry is at one of its own eight places. */
  ghost predicate Placed<E>(cfg: Config<E>, c: Cache<E>)
    requires Shaped(cfg, c)
  {
    forall i :: 0 <= i < cfg.size && !c.collected[i] ==> IsPlace(cfg, c.table[i], i)
  }

  ghost predicate IsPlace<E>(cfg: Config<E>, e: E, i: nat)
    requires Ready(cfg)
  {
    exists k: nat :: k < HASHES && Loc(cfg, e, k) == i
  }

  // ---------------------------------------------------------------- lookups

  lemma {:induction false} FindFinds<E>(cfg: Config<E>, c: Cache<E>, e: E, k: nat)
    requires Shaped(cfg, c) && k <= HASHES
    ensures var r := FindFrom(cfg, c, e, k);
      && (r < HASHES ==> c.table[Loc(cfg, e, r)] == e)
      && (forall j: nat :: k <= j < r ==> c.table[Loc(cfg, e, j)] != e)
    decreases HASHES - k
  {
    if k < HASHES {
      FindFinds(cfg, c, e, k + 1);
    }
  }

  lemma {:induction false} OpenFinds<E>(cfg: Config<E>, c: Cache<E>, e: E, k: nat)
    requires Shaped(cfg, c) && k <= HASHES
    ensures var r := OpenFrom(cfg, c, e, k);
      && (r < HASHES ==> c.collected[Loc(cfg, e, r)])
      && (forall j: nat :: k <= j < r ==> !c.collected[Loc(cfg, e, j)])
    decreases HASHES - k
  {
    if k < HASHES {
      OpenFinds(cfg, c, e, k + 1);
    }
  }

  /** A lookup finds every live element, and finds an element exactly when one of its places holds it,
      live or not. */
  lemma ContainsFindsLive<E>(cfg: Config<E>, c: Cache<E>, e: E)
    requires Shaped(cfg, c) && Placed(cfg, c)
    ensures e in Live(c) ==> Contains(cfg, c, e)
    ensures Contains(cfg, c, e) <==> exists k: nat :: k < HASHES && c.table[Loc(cfg, e, k)] == e
  {
    FindFinds(cfg, c, e, 0);
    if e in Live(c) {
      var i :| 0 <= i < |c.table| && !c.collected[i] && c.table[i] == e;
      assert IsPlace(cfg, c.table[i], i);
    }
  }

  // ---------------------------------------------------------------- settling and displacing

  lemma SettleLive<E>(cfg: Config<E>, c: Cache<E>, e: E, i: nat, recent: bool)
    requires Shaped(cfg, c) && i < cfg.size && (c.collected[i] || c.table[i] == e)
    ensures Shaped(cfg, Settle(c, e, i, recent)) && Settle(c, e, i, recent).counter == c.counter
    ensures Live(Settle(c, e, i, recent)) == Live(c) + iset{e}
    ensures Placed(cfg, c) && IsPlace(cfg, e, i) ==> Placed(cfg, Settle(c, e, i, recent))
  {
    var d := Settle(c, e, i, recent);
    forall x ensures x in Live(d) <==> x in Live(c) || x == e {
      if x in Live(c) {
        var j :| 0 <= j < |c.table| && !c.collected[j] && c.table[j] == x;
        assert !d.collected[j] && (j == i ==> x == e) && (j != i ==> d.table[j] == x);
      }
      assert !d.collected[i] && d.table[i] == e;
    }
  }

  /** Exchanging the element in hand with a live entry loses neither. */
  lemma SwapLive<E>(cfg: Config<E>, c: Cache<E>, e: E, i: nat, recent: bool)
    requires Shaped(cfg, c) && i < cfg.size && !c.collected[i]
    ensures var d := Swapped(c, e, i, recent);
      && Shaped(cfg, d) && d.counter == c.counter
      && Live(d) + iset{c.table[i]} == Live(c) + iset{e}
      && (Placed(cfg, c) && IsPlace(cfg, e, i) ==> Placed(cfg, d))
  {
    var d := Swapped(c, e, i, recent);
    forall x ensures x in Live(d) + iset{c.table[i]} <==> x in Live(c) + iset{e} {
      if x in Live(c) {
        var j :| 0 <= j < |c.table| && !c.collected[j] && c.table[j] == x;
        assert j != i ==> d.table[j] == x;
      }
      if x in Live(d) {
        var j :| 0 <= j < |d.table| && !d.collected[j] && d.table[j] == x;
        assert j != i ==> c.table[j] == x;
      }
      assert d.table[i] == e && !d.collected[i];
    }
  }

  lemma LocIsPlace<E>(cfg: Config<E>, e: E, k: nat)
    requires Ready(cfg) && k < HASHES
    ensures IsPlace(cfg, e, Loc(cfg, e, k))
  {
  }

  /** The element in hand after `n` displacements that start with `e`, if the turns suffice: each time the
      element in hand goes where another one is, and that one comes into hand. */
  ghost function Hand<E>(cfg: Config<E>, table: seq<E>, e: E, last: int, n: nat): E
    requires Ready(cfg) && |table| == cfg.size
    decreases n
  {
    if n == 0 then e
    else
      var i := NextLoc(cfg, e, last);
      Hand(cfg, table[i := e], table[i], i, n - 1)
  }

  ghost predicate HasOpenPlace<E>(cfg: Config<E>, collected: seq<bool>, e: E)
    requires Ready(cfg) && |collected| == cfg.size
  {
    exists k: nat :: k < HASHES && collected[Loc(cfg, e, k)]
  }

  /** Within `depth` turns an element comes into hand that has an open place. */
  ghost predicate MeetsOpen<E>(cfg: Config<E>, c: Cache<E>, e: E, last: int, depth: nat)
    requires Shaped(cfg, c)
  {
    exists n: nat :: n < depth && HasOpenPlace(cfg, c.collected, Hand(cfg, c.table, e, last, n))
  }

  lemma MeetsOpenNow<E>(cfg: Config<E>, c: Cache<E>, e: E, last: int, depth: nat)
    requires Shaped(cfg, c) && depth > 0 && HasOpenPlace(cfg, c.collected, e)
    ensures MeetsOpen(cfg, c, e, last, depth)
  {
    assert Hand(cfg, c.table, e, last, 0) == e;
  }

  lemma MeetsOpenLater<E>(cfg: Config<E>, c: Cache<E>, e: E, last: int, recent: bool, depth: nat)
    requires Shaped(cfg, c) && depth > 0 && !HasOpenPlace(cfg, c.collected, e)
    ensures var i := NextLoc(cfg, e, last); var d := Swapped(c, e, i, recent);
      && (MeetsOpen(cfg, c, e, last, depth) <==> MeetsOpen(cfg, d, c.table[i], i, depth - 1))
      && Hand(cfg, c.table, e, last, depth) == Hand(cfg, d.table, c.table[i], i, depth - 1)
  {
    hide HasOpenPlace, NextLoc;
    var i := NextLoc(cfg, e, last);
    var d := Swapped(c, e, i, recent);
    if MeetsOpen(cfg, c, e, last, depth) {
      var n: nat :| n < depth && HasOpenPlace(cfg, c.collected, Hand(cfg, c.table, e, last, n));
      assert n > 0 && Hand(cfg, d.table, c.table[i], i, n - 1) == Hand(cfg, c.table, e, last, n);
    }
    if MeetsOpen(cfg, d, c.table[i], i, depth - 1) {
      var n: nat :| n < depth - 1 && HasOpenPlace(cfg, d.collected, Hand(cfg, d.table, c.table[i], i, n));
      assert Hand(cfg, c.table, e, last, n + 1) == Hand(cfg, d.table, c.table[i], i, n);
    }
  }

  lemma OpenPlaceFound<E>(cfg: Config<E>, c: Cache<E>, e: E)
    requires Shaped(cfg, c)
    ensures OpenFrom(cfg, c, e, 0) < HASHES <==> HasOpenPlace(cfg, c.collected, e)
  {
    OpenFinds(cfg, c, e, 0);
  }

  /** Displacement drops an element exactly when no element that comes into hand in time has an open
      place, and then it drops the one in hand at the end. */
  lemma {:induction false} DisplaceDrops<E>(cfg: Config<E>, c: Cache<E>, e: E, last: int, recent: bool, depth: nat)
    requires Shaped(cfg, c)
    ensures var dropped := Displace(cfg, c, e, last, recent, depth).1;
      if MeetsOpen(cfg, c, e, last, depth) then dropped == [] else dropped == [Hand(cfg, c.table, e, last, depth)]
    decreases depth
  {
    hide HasOpenPlace, MeetsOpen, NextLoc, OpenFrom, Loc;
    if depth == 0 {
      NoTurnNoPlace(cfg, c, e, last);
    } else {
      OpenPlaceFound(cfg, c, e);
      if HasOpenPlace(cfg, c.collected, e) {
        MeetsOpenNow(cfg, c, e, last, depth);
      } else {
        var i := NextLoc(cfg, e, last);
        MeetsOpenLater(cfg, c, e, last, recent, depth);
        DisplaceDrops(cfg, Swapped(c, e, i, recent), c.table[i], i, c.epoch[i], depth - 1);
      }
    }
  }

  lemma NoTurnNoPlace<E>(cfg: Config<E>, c: Cache<E>, e: E, last: int)
    requires Shaped(cfg, c)
    ensures !MeetsOpen(cfg, c, e, last, 0)
  {
  }

  /** With element `e` in hand, displacement keeps every live element and `e`, except the one in hand when
      the turns run out before an element with an open place was met. */
  lemma {:induction false} DisplaceLive<E>(cfg: Config<E>, c: Cache<E>, e: E, last: int, recent: bool, depth: nat)
    requires Shaped(cfg, c) && Placed(cfg, c)
    ensures var d := Displace(cfg, c, e, last, recent, depth).0;
      && Shaped(cfg, d) && Placed(cfg, d) && d.counter == c.counter
      && (if MeetsOpen(cfg, c, e, last, depth) then Live(d) == Live(c) + iset{e}
          else Live(d) + iset{Hand(cfg, c.table, e, last, depth)} == Live(c) + iset{e})
    decreases depth
  {
    hide Live, Placed, IsPlace, Loc, OpenFrom, NextLoc, Settle, Swapped, MeetsOpen, HasOpenPlace;
    if depth == 0 {
      NoTurnNoPlace(cfg, c, e, last);
    } else {
      var k := OpenFrom(cfg, c, e, 0);
      OpenPlaceFound(cfg, c, e);
      if k < HASHES {
        OpenFinds(cfg, c, e, 0);
        SettleLive(cfg, c, e, Loc(cfg, e, k), recent);
        LocIsPlace(cfg, e, k);
        MeetsOpenNow(cfg, c, e, last, depth);
      } else {
        var i := NextLoc(cfg, e, last);
        OpenNoneAt(cfg, c, e, last);
        SwapLive(cfg, c, e, i, recent);
        MeetsOpenLater(cfg, c, e, last, recent, depth);
        DisplaceLive(cfg, Swapped(c, e, i, recent), c.table[i], i, c.epoch[i], depth - 1);
      }
    }
  }

  /** When no place of an element is open, the one to displace from holds a live entry. */
  lemma OpenNoneAt<E>(cfg: Config<E>, c: Cache<E>, e: E, last: int)
    requires Shaped(cfg, c) && OpenFrom(cfg, c, e, 0) == HASHES
    ensures !c.collected[NextLoc(cfg, e, last)] && IsPlace(cfg, e, NextLoc(cfg, e, last))
  {
    OpenFinds(cfg, c, e, 0);
    var n: nat := (1 + PlaceOf(cfg, e, last, 0)) % HASHES;
    assert !c.collected[Loc(cfg, e, n)];
    LocIsPlace(cfg, e, n);
  }

  // ---------------------------------------------------------------- inserting

  /** The entries that survive the epoch check: all of them, or those of the current epoch when the
      check ages the cache. */
  ghost predicate Ages<E>(cfg: Config<E>, c: Cache<E>)
    requires Shaped(cfg, c)
  {
    c.counter == 0 && Recent(c) >= cfg.epochSize
  }

  ghost function LiveRecent<E>(c: Cache<E>): iset<E>
    requires |c.table| == |c.collected| == |c.epoch|
  {
    iset i | 0 <= i < |c.table| && !c.collected[i] && c.epoch[i] :: c.table[i]
  }

  /** Ageing lets go of exactly the entries of the old epoch, and makes the others old. */
  lemma EpochCheckLive<E>(cfg: Config<E>, c: Cache<E>)
    requires Shaped(cfg, c)
    ensures var d := EpochCheck(cfg, c);
      && Live(d) == (if Ages(cfg, c) then LiveRecent(c) else Live(c))
      && LiveRecent(d) == (if Ages(cfg, c) then iset{} else LiveRecent(c))
      && (Placed(cfg, c) ==> Placed(cfg, d))
  {
    var d := EpochCheck(cfg, c);
    if Ages(cfg, c) {
      assert forall i :: 0 <= i < cfg.size ==> (!d.collected[i] <==> !c.collected[i] && c.epoch[i]);
      assert Live(d) == LiveRecent(c);
    }
  }

  /** An element counts as recent if it is marked so. */
  ghost function If<E>(recent: bool, e: E): iset<E> { if recent then iset{e} else iset{} }

  lemma SettleLiveRecent<E>(cfg: Config<E>, c: Cache<E>, e: E, i: nat, recent: bool)
    requires Shaped(cfg, c) && i < cfg.size && (c.collected[i] || (c.table[i] == e && recent))
    ensures LiveRecent(Settle(c, e, i, recent)) == LiveRecent(c) + If(recent, e)
  {
    var d := Settle(c, e, i, recent);
    forall x ensures x in LiveRecent(d) <==> x in LiveRecent(c) + If(recent, e) {
      if x in LiveRecent(c) {
        var j :| 0 <= j < |c.table| && !c.collected[j] && c.epoch[j] && c.table[j] == x;
        assert !d.collected[j] && (j == i ==> x == e) && (j != i ==> d.table[j] == x && d.epoch[j]);
      }
      assert !d.collected[i] && d.table[i] == e && d.epoch[i] == recent;
    }
  }

  /** Epochs go with their elements when these are exchanged. */
  lemma SwapLiveRecent<E>(cfg: Config<E>, c: Cache<E>, e: E, i: nat, recent: bool)
    requires Shaped(cfg, c) && i < cfg.size && !c.collected[i]
    ensures LiveRecent(Swapped(c, e, i, recent)) + If(c.epoch[i], c.table[i]) == LiveRecent(c) + If(recent, e)
  {
    var d := Swapped(c, e, i, recent);
    forall x ensures x in LiveRecent(d) + If(c.epoch[i], c.table[i]) <==> x in LiveRecent(c) + If(recent, e) {
      if x in LiveRecent(c) {
        var j :| 0 <= j < |c.table| && !c.collected[j] && c.epoch[j] && c.table[j] == x;
        assert j != i ==> d.table[j] == x && d.epoch[j];
      }
      if x in LiveRecent(d) {
        var j :| 0 <= j < |d.table| && !d.collected[j] && d.epoch[j] && d.table[j] == x;
        assert j != i ==> c.table[j] == x && c.epoch[j];
      }
      assert d.table[i] == e && !d.collected[i] && d.epoch[i] == recent;
    }
  }

  lemma {:induction false} DisplaceLiveRecent<E>(cfg: Config<E>, c: Cache<E>, e: E, last: int, recent: bool, depth: nat)
    requires Shaped(cfg, c)
    ensures var d := Displace(cfg, c, e, last, recent, depth).0;
      && Shaped(cfg, d)
      && (if MeetsOpen(cfg, c, e, last, depth) then LiveRecent(d) == LiveRecent(c) + If(recent, e)
          else LiveRecent(d) <= LiveRecent(c) + If(recent, e)
               <= LiveRecent(d) + iset{Hand(cfg, c.table, e, last, depth)})
    decreases depth
  {
    hide LiveRecent, Loc, OpenFrom, NextLoc, Settle, Swapped, MeetsOpen, HasOpenPlace, IsPlace;
    if depth == 0 {
      NoTurnNoPlace(cfg, c, e, last);
    } else {
      var k := OpenFrom(cfg, c, e, 0);
      OpenPlaceFound(cfg, c, e);
      if k < HASHES {
        OpenFinds(cfg, c, e, 0);
        SettleShaped(cfg, c, e, Loc(cfg, e, k), recent);
        SettleLiveRecent(cfg, c, e, Loc(cfg, e, k), recent);
        MeetsOpenNow(cfg, c, e, last, depth);
      } else {
        var i := NextLoc(cfg, e, last);
        OpenNoneAt(cfg, c, e, last);
        SwappedShaped(cfg, c, e, i, recent);
        SwapLiveRecent(cfg, c, e, i, recent);
        MeetsOpenLater(cfg, c, e, last, recent, depth);
        DisplaceLiveRecent(cfg, Swapped(c, e, i, recent), c.table[i], i, c.epoch[i], depth - 1);
      }
    }
  }

  lemma SettleShaped<E>(cfg: Config<E>, c: Cache<E>, e: E, i: nat, recent: bool)
    requires Shaped(cfg, c) && i < cfg.size
    ensures Shaped(cfg, Settle(c, e, i, recent))
  {
  }

  lemma SwappedShaped<E>(cfg: Config<E>, c: Cache<E>, e: E, i: nat, recent: bool)
    requires Shaped(cfg, c) && i < cfg.size
    ensures Shaped(cfg, Swapped(c, e, i, recent))
  {
  }

  /** The epoch check leaves room for the element: it is in one of its places already, or within the depth
      limit an element comes into hand that has an open place. */
  ghost predicate HasRoom<E>(cfg: Config<E>, c: Cache<E>, e: E)
    requires Shaped(cfg, c)
  {
    FindFrom(cfg, c, e, 0) < HASHES || MeetsOpen(cfg, c, e, -1, cfg.depthLimit)
  }

  /** After the epoch check, insert adds the element and loses none if there was room for it; otherwise it
      loses the one element that is in hand at the depth limit. */
  lemma InsertLive<E>(cfg: Config<E>, c: Cache<E>, e: E)
    requires Shaped(cfg, c) && Placed(cfg, c)
    ensures var d := Insert(cfg, c, e).0; var checked := EpochCheck(cfg, c);
      && Shaped(cfg, d) && Placed(cfg, d)
      && (if HasRoom(cfg, checked, e) then Live(d) == Live(checked) + iset{e}
          else Live(d) + iset{Hand(cfg, checked.table, e, -1, cfg.depthLimit)} == Live(checked) + iset{e})
  {
    hide Live, IsPlace, Placed, MeetsOpen;
    EpochCheckLive(cfg, c);
    var checked := EpochCheck(cfg, c);
    var k := FindFrom(cfg, checked, e, 0);
    FindFinds(cfg, checked, e, 0);
    if k < HASHES {
      SettleLive(cfg, checked, e, Loc(cfg, e, k), true);
      LocIsPlace(cfg, e, k);
    } else {
      DisplaceLive(cfg, checked, e, -1, true, cfg.depthLimit);
    }
  }

  /** The new element belongs to the current epoch, also if it was there before, and the others keep theirs:
      what was inserted outlives the next ageing. */
  lemma InsertLiveRecent<E>(cfg: Config<E>, c: Cache<E>, e: E)
    requires Shaped(cfg, c)
    ensures var d := Insert(cfg, c, e).0; var checked := EpochCheck(cfg, c);
      && Shaped(cfg, d)
      && (if HasRoom(cfg, checked, e) then LiveRecent(d) == LiveRecent(checked) + iset{e}
          else LiveRecent(d) <= LiveRecent(checked) + iset{e}
               <= LiveRecent(d) + iset{Hand(cfg, checked.table, e, -1, cfg.depthLimit)})
  {
    hide LiveRecent, MeetsOpen;
    var checked := EpochCheck(cfg, c);
    var k := FindFrom(cfg, checked, e, 0);
    FindFinds(cfg, checked, e, 0);
    if k < HASHES {
      SettleLiveRecent(cfg, checked, e, Loc(cfg, e, k), true);
    } else {
      DisplaceLiveRecent(cfg, checked, e, -1, true, cfg.depthLimit);
    }
  }

  /** What insert reports as dropped is that element, and nothing when there was room. */
  lemma InsertDrops<E>(cfg: Config<E>, c: Cache<E>, e: E)
    requires Shaped(cfg, c)
    ensures var checked := EpochCheck(cfg, c);
      Insert(cfg, c, e).1
        == if HasRoom(cfg, checked, e) then [] else [Hand(cfg, checked.table, e, -1, cfg.depthLimit)]
  {
    hide MeetsOpen, FindFrom;
    DisplaceDrops(cfg, EpochCheck(cfg, c), e, -1, true, cfg.depthLimit);
  }

  /** In particular nothing is lost when a place of the element itself is open. */
  lemma OpenPlaceIsRoom<E>(cfg: Config<E>, c: Cache<E>, e: E)
    requires Shaped(cfg, c) && HasOpenPlace(cfg, c.collected, e)
    ensures HasRoom(cfg, c, e)
  {
    MeetsOpenNow(cfg, c, e, -1, cfg.depthLimit);
  }

  /** Displacement goes on from the place looked at last to the one after it, wrapping around; the first
      entry displaced is at the second place of the new element, not at its first. */
  lemma NextDisplaced<E>(cfg: Config<E>, e: E, last: int, k: nat)
    requires Ready(cfg) && k <= HASHES && (forall j: nat :: j < k ==> Loc(cfg, e, j) != last)
    ensures k < HASHES && Loc(cfg, e, k) == last ==> NextLoc(cfg, e, last) == Loc(cfg, e, (k + 1) % HASHES)
    ensures k == HASHES ==> NextLoc(cfg, e, last) == Loc(cfg, e, 1)
    ensures NextLoc(cfg, e, -1) == Loc(cfg, e, 1)
  {
    hide PlaceOf, Loc;
    if k == HASHES || Loc(cfg, e, k) == last {
      PlaceIs(cfg, e, last, 0, k);
    }
    PlaceIs(cfg, e, -1, 0, HASHES);
  }

  lemma {:induction false} PlaceIs<E>(cfg: Config<E>, e: E, last: int, from: nat, k: nat)
    requires Ready(cfg) && from <= k <= HASHES && (forall j: nat :: from <= j < k ==> Loc(cfg, e, j) != last)
    requires k < HASHES ==> Loc(cfg, e, k) == last
    ensures PlaceOf(cfg, e, last, from) == k
    decreases k - from
  {
    hide Loc;
    if from < k {
      PlaceIs(cfg, e, last, from + 1, k);
    }
  }

  // ---------------------------------------------------------------- the ageing heuristic

  lemma {:induction false} CountStep(collected: seq<bool>, epoch: seq<bool>, n: nat, i: nat, gone: bool, recent: bool)
    requires n <= |collected| == |epoch| && i < |epoch|
    ensures CountRecent(collected[i := gone], epoch[i := recent], n)
      == CountRecent(collected, epoch, n)
         + (if i < n then (if recent && !gone then 1 else 0) - (if epoch[i] && !collected[i] then 1 else 0) else 0)
  {
    if n > 0 {
      CountStep(collected, epoch, n - 1, i, gone, recent);
    }
  }

  lemma {:induction false} CountNone(collected: seq<bool>, epoch: seq<bool>, n: nat)
    requires n <= |collected| == |epoch| && forall i :: 0 <= i < n ==> !epoch[i]
    ensures CountRecent(collected, epoch, n) == 0
  {
    if n > 0 {
      CountNone(collected, epoch, n - 1);
    }
  }

  lemma SettleRecent<E>(cfg: Config<E>, c: Cache<E>, e: E, i: nat, recent: bool)
    requires Shaped(cfg, c) && i < cfg.size
    ensures Recent(Settle(c, e, i, recent))
      == Recent(c) + (if recent then 1 else 0) - (if c.epoch[i] && !c.collected[i] then 1 else 0)
  {
    CountStep(c.collected, c.epoch, cfg.size, i, false, recent);
  }

  lemma SwappedRecent<E>(cfg: Config<E>, c: Cache<E>, e: E, i: nat, recent: bool)
    requires Shaped(cfg, c) && i < cfg.size && !c.collected[i]
    ensures var d := Swapped(c, e, i, recent);
      && Shaped(cfg, d)
      && Recent(d) == Recent(c) + (if recent then 1 else 0) - (if c.epoch[i] then 1 else 0)
  {
    CountStep(c.collected, c.epoch, cfg.size, i, c.collected[i], recent);
    assert c.collected[i := c.collected[i]] == c.collected;
  }

  lemma {:induction false} DisplaceRecent<E>(cfg: Config<E>, c: Cache<E>, e: E, last: int, recent: bool, depth: nat)
    requires Shaped(cfg, c)
    ensures var d := Displace(cfg, c, e, last, recent, depth).0;
      Shaped(cfg, d) && Recent(d) <= Recent(c) + (if recent then 1 else 0)
    decreases depth
  {
    hide Loc, OpenFrom, NextLoc, IsPlace, Recent, Settle, Swapped;
    if depth > 0 {
      var k := OpenFrom(cfg, c, e, 0);
      if k < HASHES {
        SettleRecent(cfg, c, e, Loc(cfg, e, k), recent);
        SettleShaped(cfg, c, e, Loc(cfg, e, k), recent);
      } else {
        var i := NextLoc(cfg, e, last);
        OpenNoneAt(cfg, c, e, last);
        SwappedRecent(cfg, c, e, i, recent);
        DisplaceRecent(cfg, Swapped(c, e, i, recent), c.table[i], i, c.epoch[i], depth - 1);
      }
    }
  }

  ghost function RecentPlaces(collected: seq<bool>, epoch: seq<bool>, n: nat): set<nat>
    requires n <= |collected| == |epoch|
  {
    set i: nat | i < n && epoch[i] && !collected[i]
  }

  /** The count is the number of entries that are live and of the current epoch. */
  lemma {:induction false} CountIsNumber(collected: seq<bool>, epoch: seq<bool>, n: nat)
    requires n <= |collected| == |epoch|
    ensures CountRecent(collected, epoch, n) == |RecentPlaces(collected, epoch, n)|
  {
    if n > 0 {
      CountIsNumber(collected, epoch, n - 1);
      var before := RecentPlaces(collected, epoch, n - 1);
      assert RecentPlaces(collected, epoch, n)
          == if epoch[n - 1] && !collected[n - 1] then before + {n - 1} else before;
    } else {
      assert RecentPlaces(collected, epoch, n) == {};
    }
  }

  /** When entries are counted: never while the countdown runs; after a count that found the epoch full the
      countdown is a whole epoch, and otherwise no shorter than what the epoch still lacks, a sixteenth of
      an epoch, and one, but no longer than the longest of these. */
  lemma Countdown<E>(cfg: Config<E>, c: Cache<E>)
    requires Shaped(cfg, c)
    ensures var d := EpochCheck(cfg, c);
      && (c.counter > 0 ==> d == c.(counter := c.counter - 1))
      && (Ages(cfg, c) ==> d.counter == cfg.epochSize && Recent(d) == 0)
      && (c.counter == 0 && !Ages(cfg, c) ==>
            && d == c.(counter := d.counter)
            && d.counter >= 1 && 16 * (d.counter + 1) > cfg.epochSize && Recent(c) + d.counter >= cfg.epochSize
            && (d.counter == 1 || 16 * d.counter <= cfg.epochSize || Recent(c) + d.counter == cfg.epochSize))
  {
    var d := EpochCheck(cfg, c);
    if Ages(cfg, c) {
      CountNone(d.collected, d.epoch, cfg.size);
    }
  }

  /** An epoch is 45 parts of a hundred of the table, rounded down, but one entry at least. */
  lemma EpochIsShare(size: nat)
    requires 45 * size < WORD
    ensures EpochSize(size) >= 1
    ensures size >= 3 ==> 100 * EpochSize(size) <= 45 * size < 100 * (EpochSize(size) + 1)
    ensures size < 3 ==> EpochSize(size) == 1
  {
    assert 45 * size % WORD == 45 * size;
  }

  /** How far recent entries and the countdown together can get. */
  ghost predicate Bounded<E>(cfg: Config<E>, c: Cache<E>)
    requires Shaped(cfg, c)
  {
    Recent(c) + c.counter <= cfg.epochSize + Max(1, cfg.epochSize / 16)
  }

  /** An insert adds at most one recent entry, and the countdown or the scan makes up for it. */
  lemma InsertBounded<E>(cfg: Config<E>, c: Cache<E>, e: E)
    requires Shaped(cfg, c) && Bounded(cfg, c)
    ensures var d := Insert(cfg, c, e).0; Shaped(cfg, d) && Bounded(cfg, d)
  {
    var checked := EpochCheck(cfg, c);
    if Ages(cfg, c) {
      CountNone(checked.collected, checked.epoch, cfg.size);
    }
    var k := FindFrom(cfg, checked, e, 0);
    if k < HASHES {
      SettleRecent(cfg, checked, e, Loc(cfg, e, k), true);
    } else {
      DisplaceRecent(cfg, checked, e, -1, true, cfg.depthLimit);
      DisplaceCounter(cfg, checked, e, -1, true, cfg.depthLimit);
    }
  }

  lemma {:induction false} DisplaceCounter<E>(cfg: Config<E>, c: Cache<E>, e: E, last: int, recent: bool, depth: nat)
    requires Shaped(cfg, c)
    ensures Displace(cfg, c, e, last, recent, depth).0.counter == c.counter
    decreases depth
  {
    if depth > 0 {
      var i := NextLoc(cfg, e, last);
      DisplaceCounter(cfg, Swapped(c, e, i, recent), c.table[i], i, c.epoch[i], depth - 1);
    }
  }

  lemma EraseKeeps<E>(cfg: Config<E>, c: Cache<E>, e: E)
    requires Shaped(cfg, c)
    ensures var d := Erase(cfg, c, e);
      && Shaped(cfg, d) && (Bounded(cfg, c) ==> Bounded(cfg, d)) && (Placed(cfg, c) ==> Placed(cfg, d))
      && d.table == c.table && Live(d) + iset{e} == Live(c) + iset{e}
  {
    FindFinds(cfg, c, e, 0);
    var k := FindFrom(cfg, c, e, 0);
    if k < HASHES {
      var i := Loc(cfg, e, k);
      CountStep(c.collected, c.epoch, cfg.size, i, true, c.epoch[i]);
      assert c.epoch[i := c.epoch[i]] == c.epoch;
      EraseLive(cfg, c, i);
    }
  }

  lemma {:induction false} FindSameTable<E>(cfg: Config<E>, c: Cache<E>, d: Cache<E>, e: E, k: nat)
    requires Shaped(cfg, c) && Shaped(cfg, d) && c.table == d.table && k <= HASHES
    ensures FindFrom(cfg, d, e, k) == FindFrom(cfg, c, e, k)
    decreases HASHES - k
  {
    if k < HASHES {
      FindSameTable(cfg, c, d, e, k + 1);
    }
  }

  /** An erasing lookup leaves every element as findable as before, the erased one included. */
  lemma ErasedIsStillFound<E>(cfg: Config<E>, c: Cache<E>, e: E, other: E)
    requires Shaped(cfg, c)
    ensures Contains(cfg, Erase(cfg, c, e), other) == Contains(cfg, c, other)
  {
    FindSameTable(cfg, c, Erase(cfg, c, e), other, 0);
  }

  lemma EraseLive<E>(cfg: Config<E>, c: Cache<E>, i: nat)
    requires Shaped(cfg, c) && i < cfg.size
    ensures var d := c.(collected := c.collected[i := true]);
      (Placed(cfg, c) ==> Placed(cfg, d)) && Live(d) + iset{c.table[i]} == Live(c) + iset{c.table[i]}
  {
    var d := c.(collected := c.collected[i := true]);
    forall x ensures x in Live(d) + iset{c.table[i]} <==> x in Live(c) + iset{c.table[i]} {
      if x in Live(c) {
        var j :| 0 <= j < |c.table| && !c.collected[j] && c.table[j] == x;
        assert j != i ==> !d.collected[j] && d.table[j] == x;
      }
    }
  }

  // ---------------------------------------------------------------- erasing lookups

  /** The k-th place of the element is the first that holds it, and its flag is what the lookup sets. */
  ghost predicate MarkedAt<E>(cfg: Config<E>, c: Cache<E>, d: Cache<E>, e: E, k: nat)
    requires Shaped(cfg, c) && k < HASHES
  {
    var i := Loc(cfg, e, k);
    && c.table[i] == e && (forall j: nat :: j < k ==> c.table[Loc(cfg, e, j)] != e)
    && d == c.(collected := c.collected[i := true])
  }

  /** An erasing lookup sets exactly one flag if it finds the element, that of the first place that holds
      it, and changes nothing otherwise. */
  lemma EraseMarks<E>(cfg: Config<E>, c: Cache<E>, e: E)
    requires Shaped(cfg, c)
    ensures var d := Erase(cfg, c, e);
      if Contains(cfg, c, e) then exists k: nat :: k < HASHES && MarkedAt(cfg, c, d, e, k) else d == c
  {
    FindFinds(cfg, c, e, 0);
    if Contains(cfg, c, e) {
      assert MarkedAt(cfg, c, Erase(cfg, c, e), e, FindFrom(cfg, c, e, 0));
    }
  }

  /** The place is then open to every element that has it among its own, the erased one included: the next
      insert of such an element drops nothing. */
  lemma ErasedMakesRoom<E>(cfg: Config<E>, c: Cache<E>, e: E, k: nat, other: E)
    requires Shaped(cfg, c) && Placed(cfg, c) && k < HASHES && MarkedAt(cfg, c, Erase(cfg, c, e), e, k)
    requires IsPlace(cfg, other, Loc(cfg, e, k))
    ensures var d := Erase(cfg, c, e); var (t, dropped) := Insert(cfg, d, other);
      && HasOpenPlace(cfg, d.collected, other) && dropped == []
      && Shaped(cfg, t) && Live(t) == Live(EpochCheck(cfg, d)) + iset{other}
  {
    var d := Erase(cfg, c, e);
    EraseKeeps(cfg, c, e);
    var j: nat :| j < HASHES && Loc(cfg, other, j) == Loc(cfg, e, k);
    hide Loc, Live, Placed, HasRoom, MarkedAt;
    assert d.collected[Loc(cfg, other, j)] by { assert MarkedAt(cfg, c, d, e, k); MarkedIsSet(cfg, c, d, e, k); }
    assert EpochCheck(cfg, d).collected[Loc(cfg, other, j)];
    OpenPlaceIsRoom(cfg, EpochCheck(cfg, d), other);
    InsertLive(cfg, d, other);
    InsertDrops(cfg, d, other);
  }

  lemma MarkedIsSet<E>(cfg: Config<E>, c: Cache<E>, d: Cache<E>, e: E, k: nat)
    requires Shaped(cfg, c) && k < HASHES && MarkedAt(cfg, c, d, e, k)
    ensures Shaped(cfg, d) && d.collected[Loc(cfg, e, k)]
  {
  }

  /** Other than the one that fills the table at first, no element is held twice, and every one is at a
      place of its own, erased or not. */
  ghost predicate Distinct<E>(cfg: Config<E>, table: seq<E>, blank: E)
    requires Ready(cfg) && |table| == cfg.size
  {
    && (forall i, j :: 0 <= i < j < cfg.size && table[i] == table[j] ==> table[i] == blank)
    && (forall i :: 0 <= i < cfg.size && table[i] != blank ==> IsPlace(cfg, table[i], i))
  }

  /** An element that is in hand is not in the table. */
  ghost predicate InHand<E>(table: seq<E>, e: E, blank: E) {
    e == blank || forall i :: 0 <= i < |table| ==> table[i] != e
  }

  lemma NotFoundInHand<E>(cfg: Config<E>, c: Cache<E>, e: E, blank: E)
    requires Shaped(cfg, c) && Distinct(cfg, c.table, blank) && FindFrom(cfg, c, e, 0) == HASHES
    ensures InHand(c.table, e, blank)
  {
    FindFinds(cfg, c, e, 0);
    hide Loc;
    forall i | 0 <= i < cfg.size && e != blank ensures c.table[i] != e {
      assert c.table[i] != blank ==> IsPlace(cfg, c.table[i], i);
    }
  }

  lemma PutDistinct<E>(cfg: Config<E>, table: seq<E>, e: E, i: nat, blank: E)
    requires Ready(cfg) && |table| == cfg.size && i < cfg.size
    requires Distinct(cfg, table, blank) && InHand(table, e, blank) && IsPlace(cfg, e, i)
    ensures Distinct(cfg, table[i := e], blank) && InHand(table[i := e], table[i], blank)
  {
    hide IsPlace;
  }

  lemma {:induction false} DisplaceDistinct<E>(cfg: Config<E>, c: Cache<E>, e: E, last: int, recent: bool, depth: nat,
                                               blank: E)
    requires Shaped(cfg, c) && Distinct(cfg, c.table, blank) && InHand(c.table, e, blank)
    ensures var d := Displace(cfg, c, e, last, recent, depth).0; Shaped(cfg, d) && Distinct(cfg, d.table, blank)
    decreases depth
  {
    hide Distinct, InHand, IsPlace, Loc, OpenFrom, NextLoc;
    if depth > 0 {
      var k := OpenFrom(cfg, c, e, 0);
      if k < HASHES {
        LocIsPlace(cfg, e, k);
        PutDistinct(cfg, c.table, e, Loc(cfg, e, k), blank);
      } else {
        var i := NextLoc(cfg, e, last);
        OpenNoneAt(cfg, c, e, last);
        PutDistinct(cfg, c.table, e, i, blank);
        DisplaceDistinct(cfg, Swapped(c, e, i, recent), c.table[i], i, c.epoch[i], depth - 1, blank);
      }
    }
  }

  lemma InsertDistinct<E>(cfg: Config<E>, c: Cache<E>, e: E, blank: E)
    requires Shaped(cfg, c) && Distinct(cfg, c.table, blank)
    ensures var d := Insert(cfg, c, e).0; Shaped(cfg, d) && Distinct(cfg, d.table, blank)
  {
    hide Distinct, IsPlace, Loc, InHand;
    var checked := EpochCheck(cfg, c);
    var k := FindFrom(cfg, checked, e, 0);
    FindFinds(cfg, checked, e, 0);
    if k < HASHES {
      assert checked.table[Loc(cfg, e, k) := e] == c.table;
    } else {
      NotFoundInHand(cfg, checked, e, blank);
      DisplaceDistinct(cfg, checked, e, -1, true, cfg.depthLimit, blank);
    }
  }

  /** When no element is held twice, an erasing lookup takes exactly the element out of the live ones. */
  lemma ErasedLeaves<E>(cfg: Config<E>, c: Cache<E>, e: E, blank: E)
    requires Shaped(cfg, c) && Distinct(cfg, c.table, blank) && Placed(cfg, c) && e != blank
    ensures Live(Erase(cfg, c, e)) == Live(c) - iset{e}
  {
    EraseMarks(cfg, c, e);
    ContainsFindsLive(cfg, c, e);
    var d := Erase(cfg, c, e);
    if Contains(cfg, c, e) {
      var k: nat :| k < HASHES && MarkedAt(cfg, c, d, e, k);
      var i := Loc(cfg, e, k);
      hide Loc, IsPlace;
      forall x ensures x in Live(d) <==> x in Live(c) && x != e {
        if x in Live(c) && x != e {
          var j :| 0 <= j < |c.table| && !c.collected[j] && c.table[j] == x;
          assert !d.collected[j] && d.table[j] == x;
        }
      }
    }
  }

  // ---------------------------------------------------------------- every run

  datatype Op<E> = DoInsert(e: E) | DoErase(e: E)

  ghost function Fresh<E>(cfg: Config<E>, blank: seq<E>): Cache<E> {
    Cache(blank, seq(|blank|, _ => true), seq(|blank|, _ => false), cfg.epochSize)
  }

  ghost function Run<E>(cfg: Config<E>, c: Cache<E>, ops: seq<Op<E>>): (d: Cache<E>)
    requires Shaped(cfg, c) && Placed(cfg, c) && Bounded(cfg, c)
    ensures Shaped(cfg, d) && Placed(cfg, d) && Bounded(cfg, d)
    decreases |ops|
  {
    if ops == [] then c
    else
      match ops[0]
      case DoInsert(e) =>
        InsertLive(cfg, c, e);
        InsertBounded(cfg, c, e);
        Run(cfg, Insert(cfg, c, e).0, ops[1..])
      case DoErase(e) =>
        EraseKeeps(cfg, c, e);
        Run(cfg, Erase(cfg, c, e), ops[1..])
  }

  /** After setup and any inserts and erasing lookups, every live entry can be found, and recent
      entries plus the countdown stay within the bound: the cheap countdown never postpones ageing
      past it. */
  lemma RunKeepsBound<E>(cfg: Config<E>, blank: seq<E>, ops: seq<Op<E>>, e: E)
    requires Ready(cfg) && |blank| == cfg.size
    ensures Shaped(cfg, Fresh(cfg, blank)) && Placed(cfg, Fresh(cfg, blank)) && Bounded(cfg, Fresh(cfg, blank))
    ensures var d := Run(cfg, Fresh(cfg, blank), ops);
      && Recent(d) + d.counter <= cfg.epochSize + Max(1, cfg.epochSize / 16)
      && (e in Live(d) ==> Contains(cfg, d, e))
  {
    var c := Fresh(cfg, blank);
    CountNone(c.collected, c.epoch, cfg.size);
    ContainsFindsLive(cfg, Run(cfg, c, ops), e);
  }

  lemma {:induction false} RunDistinct<E>(cfg: Config<E>, c: Cache<E>, ops: seq<Op<E>>, blank: E)
    requires Shaped(cfg, c) && Placed(cfg, c) && Bounded(cfg, c) && Distinct(cfg, c.table, blank)
    ensures Distinct(cfg, Run(cfg, c, ops).table, blank)
    decreases |ops|
  {
    hide Shaped, Distinct, Placed, Bounded, Insert, Erase;
    if ops != [] {
      match ops[0]
      case DoInsert(e) =>
        InsertLive(cfg, c, e);
        InsertBounded(cfg, c, e);
        InsertDistinct(cfg, c, e, blank);
        RunDistinct(cfg, Insert(cfg, c, e).0, ops[1..], blank);
      case DoErase(e) =>
        EraseKeeps(cfg, c, e);
        RunDistinct(cfg, Erase(cfg, c, e), ops[1..], blank);
    }
  }

  /** After setup and any inserts and erasing lookups, one more erasing lookup takes exactly its element
      out of the live ones, although it can still be found as long as nothing is put in its place. */
  lemma RunThenErase<E>(cfg: Config<E>, blank: E, ops: seq<Op<E>>, e: E)
    requires Ready(cfg) && e != blank
    ensures var start := Fresh(cfg, seq(cfg.size, _ => blank));
      && Shaped(cfg, start) && Placed(cfg, start) && Bounded(cfg, start)
      && var d := Run(cfg, start, ops);
         Live(Erase(cfg, d, e)) == Live(d) - iset{e} && Contains(cfg, Erase(cfg, d, e), e) == Contains(cfg, d, e)
  {
    var table := seq(cfg.size, _ => blank);
    var start := Fresh(cfg, table);
    RunKeepsBound(cfg, table, ops, e);
    assert Distinct(cfg, start.table, blank);
    RunDistinct(cfg, start, ops, blank);
    ErasedLeaves(cfg, Run(cfg, start, ops), e, blank);
    ErasedIsStillFound(cfg, Run(cfg, start, ops), e, e);
  }
}
