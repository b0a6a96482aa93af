/** What the address manager hands out when it is asked for addresses: as many shareable ones as the limits
    allow, in any order that the random numbers may choose. */
module AddrManSharing {
  import opened Basics
  import opened AddrManState
  import opened AddrManInvariant
  import opened AddrManOps

  /** An entry is terrible unless it was tried in the last minute, if its time is more than ten minutes
      ahead or thirty days ago, or three attempts failed and none ever succeeded, or ten attempts failed
      and the last success is more than a week ago. */
  lemma TerribleMeans(e: Info, now: int)
    ensures IsTerrible(e, now) <==>
      && e.lastTry < now - 60
      && (|| e.time > now + 10 * 60
          || e.time < now - 30 * 24 * 3600
          || (e.lastSuccess == 0 && e.attempts >= 3)
          || (e.lastSuccess < now - 7 * 24 * 3600 && e.attempts >= 10))
  {
  }

  /** The entries that may be handed out: of the network that is asked for, and not terrible. */
  ghost function SharedIds(h: Hashing, info: Infos, filter: Filter, now: int): set<int> {
    set id | id in info
      && !IsTerrible(info[id], now) && (filter == AnyNetwork || filter == Only(h.netClass(info[id].svc)))
  }

  ghost function Elements(s: seq<int>): set<int> { set x | x in s }

  ghost predicate AllDifferent(s: seq<int>) { forall i, j :: 0 <= i < j < |s| ==> s[i] != s[j] }

  lemma {:induction false} DifferentSize(s: seq<int>)
    requires AllDifferent(s)
    ensures |Elements(s)| == |s|
  {
    if s == [] {
      assert Elements(s) == {};
    } else {
      var n := |s| - 1;
      DifferentSize(s[..n]);
      assert Elements(s) == Elements(s[..n]) + {s[n]};
    }
  }

  lemma SharedMoved(h: Hashing, info: Infos, infoT: Infos, filter: Filter, now: int)
    requires AllMoved(info, infoT)
    ensures SharedIds(h, infoT, filter, now) == SharedIds(h, info, filter, now)
  {
    forall id ensures id in SharedIds(h, infoT, filter, now) <==> id in SharedIds(h, info, filter, now) {
      if id in info { assert Moved(info[id], infoT[id]); }
    }
  }

  lemma SharedIsShareable(h: Hashing, info: Infos, filter: Filter, now: int, id: int)
    requires id in info
    ensures id in SharedIds(h, info, filter, now) <==> Shareable(h, info[id], filter, now)
  {
  }

  // ---------------------------------------------------------------- how many are handed out

  /** In the first `n` places of the vector, exactly the shareable ids were collected. */
  ghost predicate CollectedBefore(shared: set<int>, rnd: seq<int>, n: nat, acc: seq<int>)
    requires n <= |rnd|
  {
    AllDifferent(acc) && Elements(acc) == Elements(rnd[..n]) * shared
  }

  lemma CollectOneMore(shared: set<int>, rnd: seq<int>, rndT: seq<int>, n: nat, acc: seq<int>)
    requires n < |rnd| == |rndT| && rndT[..n] == rnd[..n] && rndT[n] !in rnd[..n]
    requires CollectedBefore(shared, rnd, n, acc)
    ensures CollectedBefore(shared, rndT, n + 1, if rndT[n] in shared then acc + [rndT[n]] else acc)
  {
    var id := rndT[n];
    assert rndT[..n + 1] == rndT[..n] + [id];
    assert Elements(rndT[..n + 1]) == Elements(rnd[..n]) + {id};
    assert id !in acc by { assert id in acc ==> id in Elements(acc); }
    assert Elements(acc + [id]) == Elements(acc) + {id};
  }

  ghost function Least(a: nat, b: nat): nat { if a < b then a else b }

  /** One turn of the loop, which draws the place `at`. */
  lemma CollectStep(h: Hashing, s: State, n: nat, at: nat, limit: nat, picks: nat -> nat, filter: Filter, now: int,
                    acc: seq<int>)
    requires Inv(h, s) && VectorKnown(s) && n < |s.rnd| && |acc| < limit && at == Pick(picks, n, |s.rnd|)
    ensures CanSwap(s, n, at)
    ensures var t := SwapRandom(s, n, at); var id := s.rnd[at];
      && Inv(h, t) && AllMoved(s.info, t.info) && VectorKnown(t)
      && t.rnd == s.rnd[n := id][at := s.rnd[n]] && t.rnd[n] == id && t.rnd[..n] == s.rnd[..n] && id !in s.rnd[..n]
      && Collect(h, s, n, limit, picks, filter, now, acc)
           == Collect(h, t, n + 1, limit, picks, filter, now,
                      if id in SharedIds(h, s.info, filter, now) then acc + [id] else acc)
  {
    hide Inv, Shareable, SharedIds, AllMoved, Pick, IsTerrible;
    CollectTurn(h, s, n, at);
    var t := SwapRandom(s, n, at);
    SwapShape(s, n, at);
    hide SwapRandom;
    SharedMoved(h, s.info, t.info, filter, now);
    SharedIsShareable(h, t.info, filter, now, t.rnd[n]);
  }

  /** The loop collects all shareable ids, or as many as it may. */
  lemma {:induction false} CollectCounts(h: Hashing, s: State, n: nat, limit: nat, picks: nat -> nat, filter: Filter,
                                         now: int, acc: seq<int>)
    requires Inv(h, s) && VectorKnown(s) && n <= |s.rnd| && |acc| <= limit
    requires CollectedBefore(SharedIds(h, s.info, filter, now), s.rnd, n, acc)
    ensures var found := Collect(h, s, n, limit, picks, filter, now, acc).1;
      var shared := SharedIds(h, s.info, filter, now);
      && AllDifferent(found) && Elements(found) <= shared && |found| == Least(limit, |shared|)
    decreases |s.rnd| - n
  {
    hide Inv, Shareable, SharedIds, CollectedBefore, AllMoved, Pick, IsTerrible;
    var shared := SharedIds(h, s.info, filter, now);
    if n == |s.rnd| || |acc| >= limit {
      CollectedAtEnd(h, s, n, limit, filter, now, acc);
    } else {
      var at := Pick(picks, n, |s.rnd|);
      CollectStep(h, s, n, at, limit, picks, filter, now, acc);
      var t := SwapRandom(s, n, at);
      hide SwapRandom, Collect;
      SharedMoved(h, s.info, t.info, filter, now);
      CollectOneMore(shared, s.rnd, t.rnd, n, acc);
      CollectCounts(h, t, n + 1, limit, picks, filter, now, if t.rnd[n] in shared then acc + [t.rnd[n]] else acc);
    }
  }

  lemma CollectedAtEnd(h: Hashing, s: State, n: nat, limit: nat, filter: Filter, now: int, acc: seq<int>)
    requires Inv(h, s) && n <= |s.rnd| && |acc| <= limit && (n == |s.rnd| || |acc| >= limit)
    requires CollectedBefore(SharedIds(h, s.info, filter, now), s.rnd, n, acc)
    ensures var shared := SharedIds(h, s.info, filter, now);
      AllDifferent(acc) && Elements(acc) <= shared && |acc| == Least(limit, |shared|)
  {
    hide Inv, IsTerrible;
    DifferentSize(acc);
    var shared := SharedIds(h, s.info, filter, now);
    SubsetSize(Elements(acc), shared);
    if n == |s.rnd| {
      VectorComplete(h, s);
      assert s.rnd[..n] == s.rnd;
      assert shared <= Elements(s.rnd);
      assert Elements(acc) == shared;
    }
  }

  lemma PositionsComplete(info: Infos, rnd: seq<int>)
    requires Positions(info, rnd)
    ensures Elements(rnd) == info.Keys
  {
    forall id ensures id in Elements(rnd) <==> id in info.Keys {
      if id in info.Keys { assert rnd[info[id].randomPos] == id; }
    }
  }

  lemma VectorComplete(h: Hashing, s: State)
    requires Inv(h, s)
    ensures Elements(s.rnd) == s.info.Keys && |s.rnd| == |s.info.Keys|
  {
    hide Positions, IdsBelow, AddrOk, TriedOk, NewSlotsOk, RefsOk, CountsOk, TimesOk, CollisionsOk;
    CoreVector(h, s);
    DifferentSize(s.rnd);
    PositionsComplete(s.info, s.rnd);
  }

  /** The number of addresses to hand out: no more than are shareable, than was asked for, and than the
      percentage of all known addresses; and the most that these limits allow. */
  ghost predicate AsManyAsAllowed(n: nat, shareable: nat, known: nat, maxAddresses: nat, maxPct: nat) {
    && n <= shareable
    && (maxAddresses != 0 ==> n <= maxAddresses)
    && (maxPct != 0 ==> 100 * n <= maxPct * known)
    && (|| n == shareable
        || (maxAddresses != 0 && n == maxAddresses)
        || (maxPct != 0 && 100 * (n + 1) > maxPct * known))
  }

  /** What was handed out: different, shareable entries, as many as the limits allow. */
  ghost predicate HandedOut(h: Hashing, s: State, filter: Filter, now: int, maxAddresses: nat, maxPct: nat,
                            found: seq<int>) {
    && AllDifferent(found) && Elements(found) <= SharedIds(h, s.info, filter, now)
    && AsManyAsAllowed(|found|, |SharedIds(h, s.info, filter, now)|, |s.info|, maxAddresses, maxPct)
  }

  lemma LimitMeans(shareable: nat, known: nat, maxAddresses: nat, maxPct: nat)
    requires shareable <= known
    ensures AsManyAsAllowed(Least(ShareLimit(known, maxAddresses, maxPct), shareable), shareable, known, maxAddresses,
                            maxPct)
  {
    var total := maxPct * known;
    assert total >= 0;
    assert 100 * (total / 100) <= total < 100 * (total / 100 + 1);
  }

  /** GetAddr hands out exactly as many different shareable addresses as the limits allow; when the limits
      are not reached, these are all of them. */
  lemma GetAddrEffect(h: Hashing, s: State, maxAddresses: nat, maxPct: nat, picks: nat -> nat, filter: Filter, now: int)
    requires Inv(h, s)
    ensures var (t, found) := GetAddr(h, s, maxAddresses, maxPct, picks, filter, now);
      var shared := SharedIds(h, s.info, filter, now);
      && Inv(h, t) && AllMoved(s.info, t.info) && HandedOut(h, s, filter, now, maxAddresses, maxPct, found)
      && ((maxAddresses == 0 || |shared| <= maxAddresses) && (maxPct == 0 || 100 * |shared| <= maxPct * |s.info|) ==>
            Elements(found) == shared)
  {
    hide Core, CollisionsOk, IsTerrible, Shareable, Collect;
    CoreVector(h, s);
    VectorComplete(h, s);
    var shared := SharedIds(h, s.info, filter, now);
    var limit := ShareLimit(|s.rnd|, maxAddresses, maxPct);
    assert s.rnd[..0] == [];
    CollectKeepsInv(h, s, 0, limit, picks, filter, now, []);
    assert CollectedBefore(shared, s.rnd, 0, []);
    CollectCounts(h, s, 0, limit, picks, filter, now, []);
    SubsetSize(shared, s.info.Keys);
    assert |s.info| == |s.info.Keys|;
    LimitMeans(|shared|, |s.info|, maxAddresses, maxPct);
    var found := GetAddr(h, s, maxAddresses, maxPct, picks, filter, now).1;
    DifferentSize(found);
    SubsetSize(Elements(found), shared);
  }

  // ---------------------------------------------------------------- in any order

  /** The random numbers from the `n`-th on decide. */
  lemma {:induction false} SamePicks(h: Hashing, s: State, n: nat, limit: nat, picks: nat -> nat, others: nat -> nat,
                                     filter: Filter, now: int, acc: seq<int>)
    requires Inv(h, s) && VectorKnown(s) && n <= |s.rnd| && forall k :: k >= n ==> picks(k) == others(k)
    ensures Collect(h, s, n, limit, picks, filter, now, acc) == Collect(h, s, n, limit, others, filter, now, acc)
    decreases |s.rnd| - n
  {
    hide Inv, Shareable, IsTerrible, AllMoved, SharedIds;
    if n < |s.rnd| && |acc| < limit {
      assert picks(n) == others(n);
      var at := Pick(picks, n, |s.rnd|);
      CollectStep(h, s, n, at, limit, picks, filter, now, acc);
      CollectStep(h, s, n, at, limit, others, filter, now, acc);
      hide Collect, SwapRandom, Pick;
      SamePicks(h, SwapRandom(s, n, at), n + 1, limit, picks, others, filter, now,
                if s.rnd[at] in SharedIds(h, s.info, filter, now) then acc + [s.rnd[at]] else acc);
    }
  }

  /** The order has the first `n` places of the vector, and the rest of it is still to come. */
  ghost predicate Ahead(order: seq<int>, rnd: seq<int>, n: nat) {
    n <= |rnd| == |order| && rnd[..n] == order[..n] && forall i :: n <= i < |order| ==> order[i] in rnd[n..]
  }

  lemma AheadAt(order: seq<int>, rnd: seq<int>, n: nat) returns (at: nat)
    requires Ahead(order, rnd, n) && n < |order|
    ensures n <= at < |rnd| && rnd[at] == order[n]
  {
    var i :| 0 <= i < |rnd[n..]| && rnd[n..][i] == order[n];
    at := n + i;
  }

  lemma AheadOneMore(order: seq<int>, rnd: seq<int>, n: nat, at: nat)
    requires Ahead(order, rnd, n) && AllDifferent(order) && n <= at < |rnd| && rnd[at] == order[n]
    ensures Ahead(order, rnd[n := rnd[at]][at := rnd[n]], n + 1)
  {
    var rndT := rnd[n := rnd[at]][at := rnd[n]];
    assert rndT[..n + 1] == rnd[..n] + [order[n]] == order[..n + 1];
    forall i | n + 1 <= i < |order| ensures order[i] in rndT[n + 1..] {
      var j :| 0 <= j < |rnd[n..]| && rnd[n..][j] == order[i];
      var k := if j == 0 then at else n + j;
      assert rnd[n + j] == order[i] != order[n];
      assert rndT[k] == order[i] && rndT[n + 1..][k - n - 1] == rndT[k];
    }
  }

  /** From the first `limit` places of an order, the shareable ones; the loop stops when it has enough. */
  ghost function Chosen(h: Hashing, info: Infos, order: seq<int>, n: nat, limit: nat, filter: Filter, now: int,
                        acc: seq<int>): seq<int>
    requires n <= |order|
    decreases |order| - n
  {
    if n == |order| || |acc| >= limit then acc
    else
      Chosen(h, info, order, n + 1, limit, filter, now,
             if order[n] in SharedIds(h, info, filter, now) then acc + [order[n]] else acc)
  }

  /** If the rest of the loop can be made to follow the order, so can one more turn. */
  lemma PicksOneMore(h: Hashing, s: State, order: seq<int>, n: nat, at: nat, limit: nat, filter: Filter, now: int,
                     acc: seq<int>, rest: nat -> nat, picks: nat -> nat)
    requires Inv(h, s) && VectorKnown(s) && n <= at < |s.rnd| == |order| && |acc| < limit && s.rnd[at] == order[n]
    requires picks(n) == at - n && forall k :: k > n ==> picks(k) == rest(k)
    requires CanSwap(s, n, at)
    requires var t := SwapRandom(s, n, at);
      var next := if order[n] in SharedIds(h, s.info, filter, now) then acc + [order[n]] else acc;
      && VectorKnown(t) && n + 1 <= |t.rnd|
      && Collect(h, t, n + 1, limit, rest, filter, now, next).1
           == Chosen(h, t.info, order, n + 1, limit, filter, now, next)
    ensures Collect(h, s, n, limit, picks, filter, now, acc).1 == Chosen(h, s.info, order, n, limit, filter, now, acc)
  {
    hide Inv, Shareable, IsTerrible, AllMoved, SharedIds, Pick, Collect, SwapRandom;
    var next := if order[n] in SharedIds(h, s.info, filter, now) then acc + [order[n]] else acc;
    var t := SwapRandom(s, n, at);
    PickIs(picks, n, |s.rnd|, at);
    CollectStep(h, s, n, at, limit, picks, filter, now, acc);
    ChosenMoved(h, s.info, t.info, order, n + 1, limit, filter, now, next);
    SamePicks(h, t, n + 1, limit, picks, rest, filter, now, next);
  }

  lemma {:induction false} PicksFor(h: Hashing, s: State, order: seq<int>, n: nat, limit: nat, filter: Filter, now: int,
                                    acc: seq<int>) returns (picks: nat -> nat)
    requires Inv(h, s) && VectorKnown(s) && Ahead(order, s.rnd, n) && AllDifferent(order)
    ensures Collect(h, s, n, limit, picks, filter, now, acc).1 == Chosen(h, s.info, order, n, limit, filter, now, acc)
    decreases |order| - n
  {
    hide Inv, Shareable, IsTerrible, AllMoved, Ahead, SharedIds, Pick, SwapRandom, VectorKnown;
    picks := k => 0;
    AheadShape(order, s.rnd, n);
    if n < |order| && |acc| < limit {
      var at := AheadAt(order, s.rnd, n);
      var next := if order[n] in SharedIds(h, s.info, filter, now) then acc + [order[n]] else acc;
      var t := Turned(h, s, order, n, at);
      var rest := PicksFor(h, t, order, n + 1, limit, filter, now, next);
      picks := k => if k == n then at - n else rest(k);
      PicksOneMore(h, s, order, n, at, limit, filter, now, acc, rest, picks);
    }
  }

  lemma Turned(h: Hashing, s: State, order: seq<int>, n: nat, at: nat) returns (t: State)
    requires Inv(h, s) && Ahead(order, s.rnd, n) && AllDifferent(order) && n <= at < |s.rnd| && n < |order|
    requires s.rnd[at] == order[n]
    ensures CanSwap(s, n, at) && t == SwapRandom(s, n, at)
    ensures Inv(h, t) && VectorKnown(t) && |t.rnd| == |s.rnd| && Ahead(order, t.rnd, n + 1)
  {
    hide Inv, Ahead, VectorKnown;
    CollectTurn(h, s, n, at);
    SwapShape(s, n, at);
    t := SwapRandom(s, n, at);
    AheadOneMore(order, s.rnd, n, at);
  }

  lemma PickIs(picks: nat -> nat, n: nat, size: nat, at: nat)
    requires n <= at < size && picks(n) == at - n
    ensures Pick(picks, n, size) == at
  {
  }

  lemma AheadShape(order: seq<int>, rnd: seq<int>, n: nat)
    requires Ahead(order, rnd, n)
    ensures n <= |rnd| == |order|
  {
  }

  lemma {:induction false} ChosenMoved(h: Hashing, info: Infos, infoT: Infos, order: seq<int>, n: nat, limit: nat,
                                       filter: Filter, now: int, acc: seq<int>)
    requires AllMoved(info, infoT) && n <= |order|
    ensures Chosen(h, infoT, order, n, limit, filter, now, acc) == Chosen(h, info, order, n, limit, filter, now, acc)
    decreases |order| - n
  {
    hide AllMoved, SharedIds;
    SharedMoved(h, info, infoT, filter, now);
    if n < |order| && |acc| < limit {
      ChosenMoved(h, info, infoT, order, n + 1, limit, filter, now,
                  if order[n] in SharedIds(h, info, filter, now) then acc + [order[n]] else acc);
    }
  }

  /** Every order is possible: whatever arrangement of the known entries one asks for, there are random
      numbers with which the shareable ones come out in that order, up to the limit. */
  lemma AnyOrder(h: Hashing, s: State, order: seq<int>, maxAddresses: nat, maxPct: nat, filter: Filter, now: int)
    returns (picks: nat -> nat)
    requires Inv(h, s) && AllDifferent(order) && Elements(order) == s.info.Keys
    ensures GetAddr(h, s, maxAddresses, maxPct, picks, filter, now).1
         == Chosen(h, s.info, order, 0, ShareLimit(|s.info|, maxAddresses, maxPct), filter, now, [])
  {
    hide Core, CollisionsOk, IsTerrible, Shareable, Collect, Chosen, SharedIds;
    CoreVector(h, s);
    VectorComplete(h, s);
    DifferentSize(order);
    assert |s.info| == |s.info.Keys|;
    assert s.rnd[0..] == s.rnd;
    forall i | 0 <= i < |order| ensures order[i] in s.rnd {
      assert order[i] in Elements(order);
    }
    picks := PicksFor(h, s, order, 0, ShareLimit(|s.rnd|, maxAddresses, maxPct), filter, now, []);
  }
}
