/** What the address manager's consistency check leaves out, and that nothing else separates passing it
    from the agreement of all structures. */
module AddrManAgreement {
  import opened Basics
  import opened AddrManState
  import opened AddrManInvariant
  import opened AddrManCheck

  ghost predicate NetsKnown(h: Hashing, info: Infos, counts: map<Network, Counts>) {
    forall id :: id in info ==> h.network(info[id].svc) in counts
  }

  /** What the check does not look at: entries on networks without a counter, stale addresses, ids not
      yet handed out, and the waiting collisions. */
  ghost predicate Unchecked(h: Hashing, s: State) {
    && NetsKnown(h, s.info, s.counts) && AddrOk(s.info, s.addr)
    && s.idCount >= 0 && IdsBelow(s.info, s.idCount) && CollisionsOk(h, s)
  }

  // ---------------------------------------------------------------- the random-order vector

  lemma {:induction false} SetOfSeq(v: seq<int>)
    ensures |set x | x in v| <= |v|
    ensures |set x | x in v| == |v| ==> forall i, j :: 0 <= i < j < |v| ==> v[i] != v[j]
  {
    if v != [] {
      var last := |v| - 1;
      SetOfSeq(v[..last]);
      assert v == v[..last] + [v[last]];
      assert (set x | x in v) == (set x | x in v[..last]) + {v[last]};
    }
  }

  /** A vector as long as there are entries, where every entry is at its place, holds nothing else. */
  lemma VectorIsFull(info: Infos, rnd: seq<int>)
    requires |rnd| == |info|
    requires forall id :: id in info ==> 0 <= info[id].randomPos < |rnd| && rnd[info[id].randomPos] == id
    ensures forall i :: 0 <= i < |rnd| ==> rnd[i] in info && info[rnd[i]].randomPos == i
  {
    var there := set x | x in rnd;
    forall id | id in info ensures id in there { assert rnd[info[id].randomPos] in rnd; }
    SetOfSeq(rnd);
    assert info.Keys <= there;
    SubsetSize(info.Keys, there);
    forall i | 0 <= i < |rnd| ensures rnd[i] in info && info[rnd[i]].randomPos == i {
      assert rnd[i] in there;
    }
  }

  // ---------------------------------------------------------------- the parts

  lemma PassingPlaces(h: Hashing, s: State)
    requires Consistent(h, s)
    ensures |s.rnd| == |s.info|
    ensures forall id :: id in s.info ==> 0 <= s.info[id].randomPos < |s.rnd| && s.rnd[s.info[id].randomPos] == id
    ensures forall id :: id in s.info ==> s.info[id].svc in s.addr && s.addr[s.info[id].svc] == id
  {
    hide TriedOk, NewSlotsOk, RefsExact, CountersPass, Ids;
    ClassesPartition(s.info);
    forall id | id in s.info
      ensures 0 <= s.info[id].randomPos < |s.rnd| && s.rnd[s.info[id].randomPos] == id
      ensures s.info[id].svc in s.addr && s.addr[s.info[id].svc] == id
    {
      assert EntryPasses(s, id);
    }
  }

  lemma ConsistentIndex(h: Hashing, s: State)
    requires Consistent(h, s) && AddrOk(s.info, s.addr) && IdsBelow(s.info, s.idCount)
    ensures IndexOk(s.info, s.addr, s.rnd, s.idCount)
  {
    hide Consistent;
    PassingPlaces(h, s);
    VectorIsFull(s.info, s.rnd);
  }

  lemma ConsistentTimes(h: Hashing, s: State)
    requires Consistent(h, s)
    ensures TimesOk(s.info)
  {
    hide TriedOk, NewSlotsOk, RefsExact, CountersPass;
    forall id | id in s.info ensures s.info[id].lastTry >= 0 && s.info[id].lastSuccess >= 0
        && (s.info[id].inTried ==> s.info[id].lastSuccess != 0) {
      assert EntryPasses(s, id);
    }
  }

  lemma TriedNotHeld(h: Hashing, info: Infos, table: Table, id: int)
    requires NewSlotsOk(h, info, table) && id in info && info[id].inTried
    ensures Held(h, table, id, info[id].svc) == {}
  {
    forall b | 0 <= b < NEW_BUCKETS ensures !HeldAt(h, table, id, info[id].svc, b) { }
  }

  lemma ConsistentRefs(h: Hashing, s: State)
    requires Consistent(h, s)
    ensures RefsOk(h, s.info, s.newTable, {})
  {
    hide TriedOk, CountersPass, Held, NewSlotsOk;
    forall id | id in s.info
      ensures s.info[id].refCount == |Held(h, s.newTable, id, s.info[id].svc)|
      ensures s.info[id].refCount <= NEW_BUCKETS_PER_ADDRESS
      ensures !s.info[id].inTried ==> s.info[id].refCount >= 1
      ensures s.info[id].inTried ==> s.info[id].refCount == 0
    {
      assert EntryPasses(s, id);
      if s.info[id].inTried {
        TriedNotHeld(h, s.info, s.newTable, id);
      }
    }
  }

  lemma NoneOnUnknownNet(h: Hashing, s: State, net: Network)
    requires NetsKnown(h, s.info, s.counts) && net !in s.counts
    ensures TrueCounts(h, s.info, {}, net) == Counts(0, 0)
  {
    assert IdsOn(h, s.info, {}, AsNew, net) == {} && IdsOn(h, s.info, {}, AsTried, net) == {};
  }

  lemma ConsistentCounts(h: Hashing, s: State)
    requires Consistent(h, s) && NetsKnown(h, s.info, s.counts)
    ensures CountsOk(h, s.info, {}, s.nNew, s.nTried, s.counts)
  {
    hide TriedOk, NewSlotsOk, RefsExact, NetsKnown, EntryPasses, TrueCounts;
    forall net ensures CountFor(s.counts, net) == TrueCounts(h, s.info, {}, net) {
      if net !in s.counts {
        NoneOnUnknownNet(h, s, net);
      }
    }
  }

  lemma InvIsKnown(h: Hashing, s: State)
    requires Inv(h, s)
    ensures Unchecked(h, s)
  {
    hide TriedOk, NewSlotsOk, RefsOk, TimesOk, CountsOk, CollisionsOk;
    NetsCounted(h, s);
    forall id | id in s.info ensures h.network(s.info[id].svc) in s.counts {
      assert h.network(s.info[id].svc) in Nets(h, s.info);
    }
  }

  /** The structures agree exactly in the states that pass the check and in which the networks of all
      entries have a counter, the address map has no stale address, all ids have been handed out, and
      the waiting collisions are sound. */
  lemma AgreementIsPassing(h: Hashing, s: State)
    ensures Inv(h, s) <==> Consistent(h, s) && Unchecked(h, s)
  {
    hide IndexOk, TriedOk, NewSlotsOk, RefsOk, CountsOk, TimesOk, Consistent, Unchecked;
    if Inv(h, s) {
      InvIsConsistent(h, s);
      InvIsKnown(h, s);
    }
    if Consistent(h, s) && Unchecked(h, s) {
      PassingAgrees(h, s);
    }
  }

  lemma PassingAgrees(h: Hashing, s: State)
    requires Consistent(h, s) && Unchecked(h, s)
    ensures Inv(h, s)
  {
    hide IndexOk, TriedOk, NewSlotsOk, RefsOk, RefsExact, CountsOk, CountersPass, TimesOk, NetsKnown, AddrOk,
         CollisionsOk, EntryPasses;
    ConsistentIndex(h, s);
    ConsistentTimes(h, s);
    ConsistentRefs(h, s);
    ConsistentCounts(h, s);
    var none: set<int> := {};
    assert none + none == none;
  }
}
