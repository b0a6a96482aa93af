/** Every run of the address manager: it starts empty or from any stream that the reader accepts, and all
    structures agree from then on. */
module AddrManRuns {
  import opened AddrManState
  import opened AddrManInvariant
  import opened AddrManCheck
  import opened AddrManAgreement
  import opened AddrManStream
  import opened AddrManOps

  // ---------------------------------------------------------------- reading any stream

  /** What the consistency check leaves out holds of every state while it is read. */
  ghost predicate Traced(h: Hashing, s: State) {
    NetsKnown(h, s.info, s.counts) && AddrOk(s.info, s.addr) && s.collisions == {}
  }

  lemma AppendKeepsTraced(h: Hashing, s: State, t: State, e: Info, dNew: int, dTried: int)
    requires Traced(h, s) && s.idCount !in s.info && t.collisions == s.collisions
    requires t.info == s.info[s.idCount := e] && t.addr == s.addr[e.svc := s.idCount]
    requires t.counts == Bump(s.counts, h.network(e.svc), dNew, dTried)
    ensures Traced(h, t)
  {
  }

  lemma DenseIsFresh(s: State)
    requires Dense(s)
    ensures s.idCount !in s.info
  {
  }

  lemma {:induction false} ReadNewKeepsTraced(h: Hashing, s: State, entries: seq<Saved>)
    requires Dense(s) && Traced(h, s)
    ensures Dense(LoadAllNew(h, s, entries)) && Traced(h, LoadAllNew(h, s, entries))
  {
    hide Dense, Traced, Bump;
    ReadNewKeepsReadable(h, s, entries);
    if entries != [] {
      var n := |entries| - 1;
      ReadNewKeepsTraced(h, s, entries[..n]);
      var t := LoadAllNew(h, s, entries[..n]);
      DenseIsFresh(t);
      AppendKeepsTraced(h, t, LoadNew(h, t, entries[n]), Load(entries[n], |t.rnd|), 1, 0);
    }
  }

  lemma LoadTriedKeepsTraced(h: Hashing, s: State, v: Saved)
    requires s.idCount !in s.info && Traced(h, s)
    ensures Traced(h, LoadTried(h, s, v))
  {
    if h.isValid(v.svc) && h.TriedSlot(v.svc) !in s.triedTable {
      AppendKeepsTraced(h, s, LoadTried(h, s, v), Load(v, |s.rnd|).(inTried := true), 0, 1);
    }
  }

  lemma {:induction false} ReadTriedKeepsTraced(h: Hashing, s: State, entries: seq<Saved>)
    requires Dense(s) && Traced(h, s)
    ensures Dense(LoadAllTried(h, s, entries)) && Traced(h, LoadAllTried(h, s, entries))
  {
    hide Dense, Traced, LoadTried;
    ReadTriedKeepsReadable(h, s, entries);
    if entries != [] {
      var n := |entries| - 1;
      ReadTriedKeepsTraced(h, s, entries[..n]);
      DenseIsFresh(LoadAllTried(h, s, entries[..n]));
      LoadTriedKeepsTraced(h, LoadAllTried(h, s, entries[..n]), entries[n]);
    }
  }

  lemma PlaceNewKeepsTraced(h: Hashing, s: State, id: int, slot: Slot)
    requires Traced(h, s) && id in s.info
    ensures Traced(h, PlaceNew(s, id, slot))
  {
  }

  lemma {:induction false} PlaceKeepsTraced(h: Hashing, s: State, restore: bool, entries: seq<BucketEntry>)
    requires Traced(h, s) && Indexed(entries, s.info)
    ensures Traced(h, PlaceAll(h, s, restore, entries))
  {
    hide Traced, PlaceNew;
    if entries != [] {
      var n := |entries| - 1;
      PlaceKeepsTraced(h, s, restore, entries[..n]);
      var t, entry := PlaceAll(h, s, restore, entries[..n]), entries[n];
      var e := t.info[entry.index];
      PlaceNewKeepsTraced(h, t, entry.index, h.NewSlot(e.svc, entry.bucket));
      PlaceNewKeepsTraced(h, t, entry.index, h.HomeSlot(e.svc, e.source));
    }
  }

  lemma SwapKeepsTraced(h: Hashing, s: State, i: int, j: int)
    requires Traced(h, s) && CanSwap(s, i, j)
    ensures Traced(h, SwapRandom(s, i, j))
    ensures SwapRandom(s, i, j).info.Keys == s.info.Keys && |SwapRandom(s, i, j).rnd| == |s.rnd|
  {
  }

  lemma ForgetKeepsTraced(h: Hashing, s: State, id: int)
    requires Traced(h, s) && id in s.info && |s.rnd| > 0
    ensures Traced(h, AddrManState.Forget(h, s, id))
  {
  }

  lemma DeleteKeepsTraced(h: Hashing, s: State, id: int)
    requires Traced(h, s) && CanDelete(s, id)
    ensures Traced(h, Delete(h, s, id))
  {
    hide Traced, SwapRandom, AddrManState.Forget;
    SwapKeepsTraced(h, s, s.info[id].randomPos, |s.rnd| - 1);
    ForgetKeepsTraced(h, SwapRandom(s, s.info[id].randomPos, |s.rnd| - 1), id);
  }

  lemma {:induction false} PruneKeepsTraced(h: Hashing, s: State, order: seq<int>)
    requires Readable(s) && Traced(h, s)
    ensures Traced(h, Prune(h, s, order))
  {
    hide Traced, Readable, Delete, CanDelete;
    if order != [] {
      var n := |order| - 1;
      PruneKeepsTraced(h, s, order[..n]);
      var t := Prune(h, s, order[..n]);
      if Unused(t.info, order[n]) {
        DeleteKeepsReadable(h, t, order[n]);
        DeleteKeepsTraced(h, t, order[n]);
      }
    }
  }

  lemma StartIsTraced(h: Hashing, nNew: int, nTried: int)
    ensures var s := EMPTY.(nNew := nNew, nTried := nTried); Dense(s) && Traced(h, s)
  {
  }

  lemma AddressesTraced(h: Hashing, m: Stream)
    requires m.nNew >= 0 && |m.newEntries| == m.nNew
    ensures Traced(h, Addresses(h, m))
  {
    hide Dense, Traced, LoadAllNew, LoadAllTried;
    var start := EMPTY.(nNew := m.nNew, nTried := m.nTried);
    StartIsTraced(h, m.nNew, m.nTried);
    ReadNewKeepsTraced(h, start, m.newEntries);
    ReadTriedKeepsTraced(h, LoadAllNew(h, start, m.newEntries), m.triedEntries);
  }

  lemma TracedIsUnchecked(h: Hashing, s: State)
    requires Readable(s) && Traced(h, s)
    ensures Unchecked(h, s)
  {
  }

  /** Whatever the stream says, a state that was read agrees exactly when it passes the check. */
  lemma RecordsAgree(h: Hashing, m: Stream, asmap: nat, order: seq<int>)
    requires m.nNew >= 0 && |m.newEntries| == m.nNew
    ensures Inv(h, Records(h, m, asmap, order)) <==> Consistent(h, Records(h, m, asmap, order))
  {
    hide Consistent, Inv, Readable, Traced, Unchecked, Addresses, AllEntries, PlaceAll, Prune, Indexed;
    var s, entries := Addresses(h, m), AllEntries(m.buckets, |m.buckets|, m.nNew);
    AddressesTraced(h, m);
    EntriesFacts(h, m, |m.buckets|);
    PlaceKeepsReadable(h, s, Restorable(m, asmap), entries);
    PlaceKeepsTraced(h, s, Restorable(m, asmap), entries);
    var placed := PlaceAll(h, s, Restorable(m, asmap), entries);
    PruneKeepsTraced(h, placed, order);
    TracedIsUnchecked(h, Prune(h, placed, order));
    AgreementIsPassing(h, Prune(h, placed, order));
  }

  /** Every stream that is accepted gives a state in which all structures agree, and a stream that fails
      the check one in which they do not. */
  lemma AcceptedAgrees(h: Hashing, m: Stream, asmap: nat, order: seq<int>)
    ensures var outcome := Read(h, m, asmap, order);
      && (outcome.Loaded? ==> Inv(h, outcome.state))
      && (outcome.Inconsistent? ==> !Inv(h, outcome.state))
  {
    hide Consistent, Inv, Records;
    if m.nNew >= 0 && |m.newEntries| == m.nNew {
      RecordsAgree(h, m, asmap, order);
    }
  }

  // ---------------------------------------------------------------- every run

  /** A run starts with an empty address manager or with a stream that is read. */
  datatype Start = FromNothing | FromStream(m: Stream, asmap: nat, order: seq<int>)

  ghost predicate IsStart(h: Hashing, start: Start, s: State) {
    match start
    case FromNothing => !h.keyIsNull && s == EMPTY
    case FromStream(m, asmap, order) => Read(h, m, asmap, order) == Loaded(s)
  }

  ghost predicate LegalRun(h: Hashing, s: State, ops: seq<Op>)
    requires Inv(h, s)
    decreases |ops|
  {
    ops == []
    || (Legal(s, ops[0]) && (PerformKeepsInv(h, s, ops[0]); LegalRun(h, Perform(h, s, ops[0]), ops[1..])))
  }

  /** The state after a sequence of operations. */
  ghost function Run(h: Hashing, s: State, ops: seq<Op>): State
    requires Inv(h, s) && LegalRun(h, s, ops)
    decreases |ops|
  {
    if ops == [] then s
    else
      PerformKeepsInv(h, s, ops[0]);
      Run(h, Perform(h, s, ops[0]), ops[1..])
  }

  lemma StartInv(h: Hashing, start: Start, s: State)
    requires IsStart(h, start, s)
    ensures Inv(h, s)
  {
    hide Inv, Read;
    match start
    case FromNothing => EmptyInv(h);
    case FromStream(m, asmap, order) => AcceptedAgrees(h, m, asmap, order);
  }

  lemma {:induction false} RunFromKeepsInv(h: Hashing, s: State, ops: seq<Op>)
    requires Inv(h, s) && LegalRun(h, s, ops)
    ensures Inv(h, Run(h, s, ops))
    decreases |ops|
  {
    hide Inv, Perform, Legal;
    if ops != [] {
      PerformKeepsInv(h, s, ops[0]);
      RunFromKeepsInv(h, Perform(h, s, ops[0]), ops[1..]);
    }
  }

  /** From the empty address manager, and from every stream that is accepted, every sequence of operations
      leaves a state in which all structures agree, so that the consistency check passes. */
  lemma RunKeepsInv(h: Hashing, start: Start, s: State, ops: seq<Op>)
    requires IsStart(h, start, s)
    ensures Inv(h, s)
    ensures LegalRun(h, s, ops) ==> Inv(h, Run(h, s, ops)) && Consistent(h, Run(h, s, ops))
  {
    hide Inv, Perform, Legal, LegalRun, Run, IsStart, Consistent;
    StartInv(h, start, s);
    if LegalRun(h, s, ops) {
      RunFromKeepsInv(h, s, ops);
      InvIsConsistent(h, Run(h, s, ops));
    }
  }
}
