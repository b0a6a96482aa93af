/** Writing an address manager whose structures agree and reading it back restores it up to the choice of
    ids. */
module AddrManRoundTrip {
  import opened Basics
  import opened AddrManState
  import opened AddrManInvariant
  import opened AddrManCheck
  import opened AddrManStream

  // ---------------------------------------------------------------- the ids that are written

  lemma {:induction false} ChosenFacts(order: seq<int>, chosen: set<int>)
    requires Distinct(order)
    ensures var c := Chosen(order, chosen);
      && Distinct(c)
      && (forall x :: x in c <==> x in order && x in chosen)
  {
    if order != [] {
      var n := |order| - 1;
      ChosenFacts(order[..n], chosen);
      assert order == order[..n] + [order[n]];
      assert order[n] !in order[..n];
    }
  }

  /** The ids in the order in which their entries are written: the new ones, then the tried ones. */
  function Written(s: State, order: seq<int>): seq<int> { NewIds(s, order) + TriedIds(s, order) }

  lemma {:induction false} IndexOfFirst(ids: seq<int>, i: nat)
    requires i < |ids| && Distinct(ids)
    ensures IndexOf(ids, ids[i]) == i
  {
    var j := IndexOf(ids, ids[i]);
    IndexOfPresent(ids, ids[i]);
  }

  lemma {:induction false} IndexOfPresent(ids: seq<int>, id: int)
    ensures IndexOf(ids, id) < |ids| <==> id in ids
  {
    if ids != [] && ids[0] != id {
      IndexOfPresent(ids[1..], id);
    }
  }

  lemma {:induction false} IndexOfPrefix(ids: seq<int>, more: seq<int>, id: int)
    requires id in ids
    ensures IndexOf(ids + more, id) == IndexOf(ids, id)
  {
    if ids[0] != id {
      assert (ids + more)[1..] == ids[1..] + more;
      IndexOfPrefix(ids[1..], more, id);
    }
  }

  lemma NewIdsFacts(h: Hashing, s: State, order: seq<int>)
    requires Core(h, s, {}, {}) && IsOrder(order, s.info)
    ensures var n := NewIds(s, order);
      && |n| == s.nNew && Distinct(n)
      && (forall id :: id in n <==> id in s.info && !s.info[id].inTried)
  {
    hide IndexOk, TriedOk, NewSlotsOk, TimesOk, RefsOk;
    var n := NewIds(s, order);
    ChosenFacts(order, Referenced(s.info));
    ReferencedAreNew(h, s);
    assert (set x | x in n) == Ids(s.info, {}, AsNew);
    DistinctSize(n);
  }

  lemma TriedIdsFacts(h: Hashing, s: State, order: seq<int>)
    requires Core(h, s, {}, {}) && IsOrder(order, s.info)
    ensures var t := TriedIds(s, order);
      && |t| == s.nTried && Distinct(t)
      && (forall id :: id in t <==> id in s.info && s.info[id].inTried)
  {
    hide IndexOk, TriedOk, NewSlotsOk, TimesOk, RefsOk;
    var t := TriedIds(s, order);
    ChosenFacts(order, InTried(s.info));
    assert (set x | x in t) == Ids(s.info, {}, AsTried);
    DistinctSize(t);
  }

  /** Every entry is written exactly once; the counters announce the right numbers, so that the
      assertions of the writing loops hold. */
  lemma WrittenOnce(h: Hashing, s: State, order: seq<int>)
    requires Core(h, s, {}, {}) && IsOrder(order, s.info)
    ensures IsOrder(Written(s, order), s.info)
    ensures |NewIds(s, order)| == s.nNew && |TriedIds(s, order)| == s.nTried
    ensures AllTried(s.info, NewIds(s, order), false) && AllTried(s.info, TriedIds(s, order), true)
  {
    NewIdsFacts(h, s, order);
    TriedIdsFacts(h, s, order);
    hide Core, NewIds, TriedIds;
    WrittenDistinct(s.info, NewIds(s, order), TriedIds(s, order));
  }

  predicate AllTried(info: Infos, ids: seq<int>, tried: bool)
    requires Within(ids, info)
  {
    forall i :: 0 <= i < |ids| ==> info[ids[i]].inTried == tried
  }

  lemma ReferencedAreNew(h: Hashing, s: State)
    requires Core(h, s, {}, {})
    ensures forall id :: id in s.info ==> (s.info[id].refCount != 0 <==> !s.info[id].inTried)
  {
    hide IndexOk, TriedOk, NewSlotsOk, CountsOk, TimesOk;
  }

  lemma WrittenDistinct(info: Infos, n: seq<int>, t: seq<int>)
    requires Within(n, info) && Within(t, info) && Distinct(n) && Distinct(t)
    requires forall id :: id in n <==> id in info && !info[id].inTried
    requires forall id :: id in t <==> id in info && info[id].inTried
    ensures IsOrder(n + t, info) && AllTried(info, n, false) && AllTried(info, t, true)
  {
    forall i | 0 <= i < |n| ensures !info[n[i]].inTried { var id := n[i]; assert id in n; }
    forall i | 0 <= i < |t| ensures info[t[i]].inTried { var id := t[i]; assert id in t; }
    forall id | id in info ensures id in n + t { assert id in n || id in t; }
  }

  // ---------------------------------------------------------------- the writing loops

  /** The index that the writer keeps for each id that has references. */
  predicate IndexesKnown(unk: map<int, int>, ids: seq<int>) {
    forall k :: 0 <= k < |ids| ==> ids[k] in unk && unk[ids[k]] == k
  }

  /** The new entries among the first `i` of the walk are written. */
  ghost predicate NewWritten(info: Infos, order: seq<int>, i: nat, entries: seq<Saved>, unk: map<int, int>)
    requires i <= |order|
  {
    var c := Chosen(order[..i], Referenced(info));
    && Within(c, info) && entries == SaveAll(info, c) && IndexesKnown(unk, c)
  }

  ghost predicate TriedWritten(info: Infos, order: seq<int>, i: nat, entries: seq<Saved>)
    requires i <= |order|
  {
    var c := Chosen(order[..i], InTried(info));
    Within(c, info) && entries == SaveAll(info, c)
  }

  lemma {:induction false} ChosenShorter(order: seq<int>, chosen: set<int>, i: nat)
    requires i <= |order|
    ensures |Chosen(order[..i], chosen)| <= |Chosen(order, chosen)|
  {
    if i < |order| {
      var n := |order| - 1;
      assert order[..n][..i] == order[..i];
      ChosenShorter(order[..n], chosen, i);
    } else {
      assert order[..i] == order;
    }
  }

  lemma ChosenStep(info: Infos, order: seq<int>, chosen: set<int>, i: nat)
    requires IsOrder(order, info) && i < |order| && Within(Chosen(order[..i], chosen), info)
    ensures var c, d, id := Chosen(order[..i], chosen), Chosen(order[..i + 1], chosen), order[i];
      && id in info && id !in c && d == (if id in chosen then c + [id] else c) && Within(d, info)
      && SaveAll(info, d) == (if id in chosen then SaveAll(info, c) + [Save(info[id])] else SaveAll(info, c))
      && |d| <= |Chosen(order, chosen)|
  {
    var c, d, id := Chosen(order[..i], chosen), Chosen(order[..i + 1], chosen), order[i];
    assert order[..i + 1][..i] == order[..i];
    ChosenAreFrom(order[..i], chosen);
    assert id !in order[..i];
    ChosenShorter(order, chosen, i + 1);
    if id in chosen {
      assert SaveAll(info, d) == SaveAll(info, c) + [Save(info[id])];
    }
  }

  /** One more entry of the walk. */
  lemma NewWriteStep(h: Hashing, s: State, order: seq<int>, i: nat, entries: seq<Saved>, unk: map<int, int>)
    requires Core(h, s, {}, {}) && IsOrder(order, s.info) && i < |order| && NewWritten(s.info, order, i, entries, unk)
    ensures order[i] in s.info
    ensures var id := order[i];
      if s.info[id].refCount != 0
      then |entries| < s.nNew && NewWritten(s.info, order, i + 1, entries + [Save(s.info[id])], unk[id := |entries|])
      else NewWritten(s.info, order, i + 1, entries, unk[id := |entries|])
  {
    NewIdsFacts(h, s, order);
    hide Core, IsOrder, Chosen, SaveAll, IndexesKnown, Within;
    ChosenStep(s.info, order, Referenced(s.info), i);
    IndexesSnoc(unk, Chosen(order[..i], Referenced(s.info)), order[i]);
  }

  lemma IndexesSnoc(unk: map<int, int>, ids: seq<int>, id: int)
    requires IndexesKnown(unk, ids) && id !in ids
    ensures IndexesKnown(unk[id := |ids|], ids) && IndexesKnown(unk[id := |ids|], ids + [id])
  {
  }

  lemma TriedWriteStep(h: Hashing, s: State, order: seq<int>, i: nat, entries: seq<Saved>)
    requires Core(h, s, {}, {}) && IsOrder(order, s.info) && i < |order| && TriedWritten(s.info, order, i, entries)
    ensures order[i] in s.info
    ensures var id := order[i];
      if s.info[id].inTried
      then |entries| < s.nTried && TriedWritten(s.info, order, i + 1, entries + [Save(s.info[id])])
      else TriedWritten(s.info, order, i + 1, entries)
  {
    TriedIdsFacts(h, s, order);
    hide Core;
    ChosenStep(s.info, order, InTried(s.info), i);
  }

  /** The index that the writer keeps is the one that the reader needs. */
  lemma KnownIndex(h: Hashing, s: State, order: seq<int>, unk: map<int, int>, slot: Slot)
    requires Core(h, s, {}, {}) && IsOrder(order, s.info) && IndexesKnown(unk, NewIds(s, order)) && slot in s.newTable
    ensures s.newTable[slot] in unk && unk[s.newTable[slot]] == IndexOf(NewIds(s, order), s.newTable[slot])
  {
    NewIdsFacts(h, s, order);
    hide IndexOk, TriedOk, RefsOk, CountsOk, TimesOk, NewIds;
    IndexOfPresent(NewIds(s, order), s.newTable[slot]);
  }

  /** What is left of a bucket from a position on. */
  function BucketFrom(table: Table, b: int, i: nat, ids: seq<int>): seq<int>
    requires i <= BUCKET_SIZE
  {
    SlotsAreOccupied(table, b, i);
    Indexes(table, SlotsFrom(table, b, i), ids)
  }

  lemma BucketStarts(table: Table, b: int, ids: seq<int>)
    ensures BucketFrom(table, b, 0, ids) == BucketOf(table, b, ids) && BucketFrom(table, b, BUCKET_SIZE, ids) == []
  {
  }

  lemma BucketStep(table: Table, b: int, i: nat, ids: seq<int>)
    requires i < BUCKET_SIZE
    ensures BucketFrom(table, b, i, ids)
      == (if Slot(b, i) in table then [IndexOf(ids, table[Slot(b, i)])] else []) + BucketFrom(table, b, i + 1, ids)
  {
    SlotsAreOccupied(table, b, i + 1);
  }

  // ---------------------------------------------------------------- what is restored

  /** An entry as it is read, before it has references. */
  function ReadInfo(s: State, ids: seq<int>, i: int): Info
    requires 0 <= i < |ids| && ids[i] in s.info
  {
    Load(Save(s.info[ids[i]]), i).(inTried := s.info[ids[i]].inTried)
  }

  ghost function Renamed<K>(m: map<K, int>, ids: seq<int>): map<K, int> {
    map k | k in m :: IndexOf(ids, m[k])
  }

  /** The same entries under new ids: the entry with the new id `i` is the one that had the id `ids[i]`,
      with the fields that are not written reset; every address, every tried slot, and every slot of the
      new table holds the same entry as before; and nothing was lost. */
  ghost predicate Restored(s: State, t: State, ids: seq<int>) {
    && IsOrder(ids, s.info)
    && (forall i :: i in t.info <==> 0 <= i < |ids|)
    && (forall i :: 0 <= i < |ids| ==>
          t.info[i] == s.info[ids[i]].(lastTry := 0, lastCountAttempt := 0, randomPos := i))
    && t.addr == Renamed(s.addr, ids)
    && t.newTable == Renamed(s.newTable, ids)
    && t.triedTable == Renamed(s.triedTable, ids)
    && t.rnd == seq(|ids|, i => i)
    && t.nNew == s.nNew && t.nTried == s.nTried && t.collisions == {} && t.idCount == |ids| && t.lastGood == 1
  }

  // ---------------------------------------------------------------- reading addresses

  ghost predicate Below<K(!new)>(m: map<K, int>, part: map<K, int>, ids: seq<int>, n: nat) {
    forall k :: (k in part <==> k in m && IndexOf(ids, m[k]) < n) && (k in part ==> part[k] == IndexOf(ids, m[k]))
  }

  ghost predicate InfosRead(s: State, ids: seq<int>, info: Infos, n: nat)
    requires n <= |ids| && Within(ids, s.info)
  {
    (forall i :: i in info <==> 0 <= i < n) && forall i :: 0 <= i < n ==> info[i] == ReadInfo(s, ids, i)
  }

  ghost predicate Counted(h: Hashing, t: State) {
    CountsOk(h, t.info, {}, |Ids(t.info, {}, AsNew)|, |Ids(t.info, {}, AsTried)|, t.counts)
  }

  /** The first `n` entries are read. */
  ghost predicate ReadUpTo(h: Hashing, s: State, ids: seq<int>, t: State, n: nat)
    requires n <= |ids| && Within(ids, s.info)
  {
    && InfosRead(s, ids, t.info, n) && Below(s.addr, t.addr, ids, n) && Below(s.triedTable, t.triedTable, ids, n)
    && t.rnd == seq(n, i => i) && t.idCount == n && t.newTable == map[] && Counted(h, t)
    && t.nNew == s.nNew && t.nTried == s.nTried && t.collisions == {} && t.lastGood == 1
  }

  lemma CountOneMore(h: Hashing, t: State, u: State, e: Info)
    requires Counted(h, t) && t.idCount !in t.info && u.info == t.info[t.idCount := e]
    requires u.counts == Bump(t.counts, h.network(e.svc), One(!e.inTried), One(e.inTried))
    ensures Counted(h, u)
  {
    CountsStep(h, t.info, u.info, {}, {}, t.idCount, e.svc, |Ids(t.info, {}, AsNew)|, |Ids(t.info, {}, AsTried)|,
               t.counts);
  }

  /** One more key of a renamed map. */
  lemma BelowStep<K(!new)>(m: map<K, int>, part: map<K, int>, ids: seq<int>, n: nat, key: K)
    requires Below(m, part, ids, n) && n < |ids| && Distinct(ids)
    requires key in m && m[key] == ids[n] && forall k :: k in m && m[k] == ids[n] ==> k == key
    ensures Below(m, part[key := n], ids, n + 1)
  {
    IndexOfFirst(ids, n);
  }

  /** No key names the next id. */
  lemma BelowSame<K(!new)>(m: map<K, int>, part: map<K, int>, ids: seq<int>, n: nat)
    requires Below(m, part, ids, n) && n < |ids| && forall k :: k in m ==> m[k] != ids[n]
    ensures Below(m, part, ids, n + 1)
  {
  }

  lemma AddressStep(h: Hashing, s: State, ids: seq<int>, part: map<Service, int>, n: nat)
    requires IndexOk(s.info, s.addr, s.rnd, s.idCount) && IsOrder(ids, s.info) && n < |ids|
    requires Below(s.addr, part, ids, n)
    ensures Below(s.addr, part[s.info[ids[n]].svc := n], ids, n + 1)
  {
    PositionOf(s.info, s.addr, s.rnd, s.idCount, ids[n]);
    BelowStep(s.addr, part, ids, n, s.info[ids[n]].svc);
  }

  lemma InfosStep(s: State, ids: seq<int>, info: Infos, n: nat)
    requires IsOrder(ids, s.info) && n < |ids| && InfosRead(s, ids, info, n)
    ensures InfosRead(s, ids, info[n := ReadInfo(s, ids, n)], n + 1)
  {
  }

  lemma NewStep(h: Hashing, s: State, ids: seq<int>, t: State, n: nat)
    requires Core(h, s, {}, {}) && IsOrder(ids, s.info) && n < |ids| && !s.info[ids[n]].inTried
      && ReadUpTo(h, s, ids, t, n)
    ensures ReadUpTo(h, s, ids, LoadNew(h, t, Save(s.info[ids[n]])), n + 1)
  {
    hide IndexOk, NewSlotsOk, RefsOk, TimesOk, CountsOk, InfosRead, Below, Counted, Bump;
    var u := LoadNew(h, t, Save(s.info[ids[n]]));
    InfosStep(s, ids, t.info, n);
    AddressStep(h, s, ids, t.addr, n);
    assert n !in t.info by { InfosBound(s, ids, t.info, n); }
    CountOneMore(h, t, u, ReadInfo(s, ids, n));
    NotInTable(h, s, ids, n);
    BelowSame(s.triedTable, t.triedTable, ids, n);
    assert u.rnd == seq(n + 1, i => i);
  }

  lemma InfosBound(s: State, ids: seq<int>, info: Infos, n: nat)
    requires IsOrder(ids, s.info) && n <= |ids| && InfosRead(s, ids, info, n)
    ensures n !in info
  {
  }

  lemma NotInTable(h: Hashing, s: State, ids: seq<int>, n: nat)
    requires TriedOk(h, s.info, s.triedTable) && n < |ids| && ids[n] in s.info && !s.info[ids[n]].inTried
    ensures forall k :: k in s.triedTable ==> s.triedTable[k] != ids[n]
  {
  }

  lemma TriedStep(h: Hashing, s: State, ids: seq<int>, t: State, n: nat)
    requires Core(h, s, {}, {}) && IsOrder(ids, s.info) && n < |ids| && s.info[ids[n]].inTried
      && ReadUpTo(h, s, ids, t, n)
    requires h.isValid(s.info[ids[n]].svc)
    ensures ReadUpTo(h, s, ids, LoadTried(h, t, Save(s.info[ids[n]])), n + 1)
  {
    hide IndexOk, NewSlotsOk, RefsOk, TimesOk, CountsOk, InfosRead, Below, Counted, Bump, TriedOk;
    var u, slot := LoadTried(h, t, Save(s.info[ids[n]])), h.TriedSlot(s.info[ids[n]].svc);
    OwnSlot(h, s, ids, t.triedTable, n);
    InfosStep(s, ids, t.info, n);
    AddressStep(h, s, ids, t.addr, n);
    assert n !in t.info by { InfosBound(s, ids, t.info, n); }
    CountOneMore(h, t, u, ReadInfo(s, ids, n));
    assert u.rnd == seq(n + 1, i => i);
  }

  /** The slot of the next tried entry is still free, and no other entry is in it. */
  lemma OwnSlot(h: Hashing, s: State, ids: seq<int>, part: Table, n: nat)
    requires TriedOk(h, s.info, s.triedTable) && IsOrder(ids, s.info) && n < |ids| && s.info[ids[n]].inTried
    requires Below(s.triedTable, part, ids, n)
    ensures var slot := h.TriedSlot(s.info[ids[n]].svc);
      slot !in part && Below(s.triedTable, part[slot := n], ids, n + 1)
  {
    var slot := h.TriedSlot(s.info[ids[n]].svc);
    IndexOfFirst(ids, n);
    BelowStep(s.triedTable, part, ids, n, slot);
  }

  lemma OneOf(info: Infos, ids: seq<int>, tried: bool, i: nat)
    requires Within(ids, info) && AllTried(info, ids, tried) && i < |ids|
    ensures ids[i] in info && info[ids[i]].inTried == tried
  {
  }

  lemma SaveLast(info: Infos, ids: seq<int>)
    requires Within(ids, info) && |ids| > 0
    ensures var n := |ids| - 1;
      && Within(ids[..n], info) && SaveAll(info, ids)[..n] == SaveAll(info, ids[..n])
      && ids[n] in info && SaveAll(info, ids)[n] == Save(info[ids[n]])
  {
  }

  lemma TriedPrefix(info: Infos, ids: seq<int>, tried: bool, n: nat)
    requires Within(ids, info) && AllTried(info, ids, tried) && n <= |ids|
    ensures Within(ids[..n], info) && AllTried(info, ids[..n], tried)
  {
  }

  lemma {:induction false} NewRead(h: Hashing, s: State, ids: seq<int>, start: State, news: seq<int>)
    requires Core(h, s, {}, {}) && IsOrder(ids, s.info) && news <= ids && Within(news, s.info)
    requires AllTried(s.info, news, false) && ReadUpTo(h, s, ids, start, 0)
    ensures ReadUpTo(h, s, ids, LoadAllNew(h, start, SaveAll(s.info, news)), |news|)
  {
    hide Core, ReadUpTo, LoadNew, AllTried, SaveAll, IsOrder;
    OrderFacts(ids, s.info);
    if news != [] {
      var n := |news| - 1;
      SaveLast(s.info, news);
      TriedPrefix(s.info, news, false, n);
      NewRead(h, s, ids, start, news[..n]);
      OneOf(s.info, news, false, n);
      NewStep(h, s, ids, LoadAllNew(h, start, SaveAll(s.info, news[..n])), n);
    }
  }

  lemma OrderFacts(ids: seq<int>, info: Infos)
    requires IsOrder(ids, info)
    ensures Within(ids, info)
  {
  }

  lemma {:induction false} TriedRead(h: Hashing, s: State, ids: seq<int>, start: State, news: seq<int>, tried: seq<int>)
    requires Core(h, s, {}, {}) && IsOrder(ids, s.info) && news + tried <= ids && Within(tried, s.info)
    requires AllTried(s.info, tried, true) && ReadUpTo(h, s, ids, start, |news|)
    requires AllValid(h, s.info)
    ensures ReadUpTo(h, s, ids, LoadAllTried(h, start, SaveAll(s.info, tried)), |news| + |tried|)
  {
    hide Core, ReadUpTo, LoadTried, AllTried, SaveAll, IsOrder;
    OrderFacts(ids, s.info);
    if tried != [] {
      var n := |tried| - 1;
      SaveLast(s.info, tried);
      TriedPrefix(s.info, tried, true, n);
      assert ids[|news| + n] == (news + tried)[|news| + n] == tried[n];
      assert news + tried[..n] == (news + tried)[..|news| + n];
      TriedRead(h, s, ids, start, news, tried[..n]);
      OneOf(s.info, tried, true, n);
      assert h.isValid(s.info[tried[n]].svc);
      TriedStep(h, s, ids, LoadAllTried(h, start, SaveAll(s.info, tried[..n])), |news| + n);
    }
  }

  lemma NothingRead(h: Hashing, s: State, ids: seq<int>)
    requires IsOrder(ids, s.info)
    ensures ReadUpTo(h, s, ids, EMPTY.(nNew := s.nNew, nTried := s.nTried), 0)
  {
    var t := EMPTY.(nNew := s.nNew, nTried := s.nTried);
    assert Ids(t.info, {}, AsNew) == {} && Ids(t.info, {}, AsTried) == {};
    forall net ensures CountFor(t.counts, net) == TrueCounts(h, t.info, {}, net) {
      assert IdsOn(h, t.info, {}, AsNew, net) == {} && IdsOn(h, t.info, {}, AsTried, net) == {};
    }
  }

  ghost predicate AllValid(h: Hashing, info: Infos) { forall id :: id in info ==> h.isValid(info[id].svc) }

  /** All addresses are read, and no tried one is lost. */
  lemma AddressesRead(h: Hashing, s: State, m: Stream, news: seq<int>, tried: seq<int>)
    requires Core(h, s, {}, {}) && IsOrder(news + tried, s.info) && Within(news, s.info) && Within(tried, s.info)
    requires Within(news + tried, s.info) && AllTried(s.info, news, false) && AllTried(s.info, tried, true)
      && AllValid(h, s.info)
    requires m.nNew == s.nNew == |news| && m.nTried == s.nTried
    requires m.newEntries == SaveAll(s.info, news) && m.triedEntries == SaveAll(s.info, tried)
    ensures ReadUpTo(h, s, news + tried, Addresses(h, m), |news + tried|)
  {
    hide Core, ReadUpTo, IsOrder, SaveAll, AllTried, Within, AllValid;
    var start := EMPTY.(nNew := s.nNew, nTried := s.nTried);
    NothingRead(h, s, news + tried);
    NewRead(h, s, news + tried, start, news);
    TriedRead(h, s, news + tried, LoadAllNew(h, start, m.newEntries), news, tried);
  }

  // ---------------------------------------------------------------- the slots of the new table

  /** The occupied slots of the first `n` buckets, in the order in which they are written. */
  function Slots(table: Table, n: nat): seq<Slot> {
    if n == 0 then [] else Slots(table, n - 1) + SlotsFrom(table, n - 1, 0)
  }

  ghost predicate SlotsOf(table: Table, slots: seq<Slot>) {
    && (forall i, j :: 0 <= i < j < |slots| ==> slots[i] != slots[j])
    && (forall i :: 0 <= i < |slots| ==> slots[i] in table && slots[i].bucket >= 0)
  }

  lemma {:induction false} BucketSlots(table: Table, b: nat, i: nat)
    requires i <= BUCKET_SIZE
    ensures SlotsOf(table, SlotsFrom(table, b, i))
    ensures forall t :: t in SlotsFrom(table, b, i) <==> t in table && t.bucket == b && i <= t.pos < BUCKET_SIZE
    decreases BUCKET_SIZE - i
  {
    if i < BUCKET_SIZE {
      BucketSlots(table, b, i + 1);
      var rest := SlotsFrom(table, b, i + 1);
      assert Slot(b, i) !in rest;
      if Slot(b, i) in table {
        forall t | t in table && t.bucket == b && i <= t.pos < BUCKET_SIZE ensures t in [Slot(b, i)] + rest {
          if t.pos == i { assert t == Slot(b, i); }
        }
      } else {
        forall t | t in table && t.bucket == b && i <= t.pos < BUCKET_SIZE ensures t in rest {
          assert t.pos == i ==> t == Slot(b, i);
        }
      }
    }
  }

  lemma {:induction false} AllSlots(table: Table, n: nat)
    ensures SlotsOf(table, Slots(table, n))
    ensures forall t :: t in Slots(table, n) <==> t in table && 0 <= t.bucket < n && 0 <= t.pos < BUCKET_SIZE
  {
    hide SlotsFrom;
    if n > 0 {
      AllSlots(table, n - 1);
      BucketSlots(table, n - 1, 0);
      var a, b := Slots(table, n - 1), SlotsFrom(table, n - 1, 0);
      forall i, j | 0 <= i < j < |a + b| ensures (a + b)[i] != (a + b)[j] {
        if i < |a| <= j { assert (a + b)[i] in a && (a + b)[j] in b; }
      }
    }
  }

  function EntryOf(table: Table, ids: seq<int>, slot: Slot): BucketEntry
    requires slot in table && slot.bucket >= 0
  {
    BucketEntry(slot.bucket, IndexOf(ids, table[slot]))
  }

  function SlotEntries(table: Table, ids: seq<int>, slots: seq<Slot>): (entries: seq<BucketEntry>)
    requires SlotsOf(table, slots)
    ensures |entries| == |slots|
  {
    seq(|slots|, k requires 0 <= k < |slots| => EntryOf(table, ids, slots[k]))
  }

  /** The table names only ids that are written with the new entries. */
  ghost predicate Names(table: Table, ids: seq<int>) { forall t :: t in table ==> table[t] in ids }

  lemma {:induction false} EntriesOfBucket(indexes: seq<int>, b: nat, nNew: int)
    requires forall k :: 0 <= k < |indexes| ==> 0 <= indexes[k] < nNew
    ensures EntriesOf(indexes, b, nNew) == seq(|indexes|, k requires 0 <= k < |indexes| => BucketEntry(b, indexes[k]))
  {
    if indexes != [] {
      EntriesOfBucket(indexes[..|indexes| - 1], b, nNew);
    }
  }

  lemma BucketWritten(table: Table, b: nat, ids: seq<int>)
    requires Names(table, ids)
    ensures SlotsOf(table, SlotsFrom(table, b, 0))
    ensures EntriesOf(BucketOf(table, b, ids), b, |ids|) == SlotEntries(table, ids, SlotsFrom(table, b, 0))
  {
    BucketSlots(table, b, 0);
    SlotsAreOccupied(table, b, 0);
    hide SlotsFrom;
    var slots, indexes := SlotsFrom(table, b, 0), BucketOf(table, b, ids);
    forall k | 0 <= k < |indexes| ensures 0 <= indexes[k] < |ids| { IndexOfPresent(ids, table[slots[k]]); }
    EntriesOfBucket(indexes, b, |ids|);
  }

  lemma SlotsAreOf(table: Table, n: nat)
    ensures SlotsOf(table, Slots(table, n))
  {
    AllSlots(table, n);
  }

  /** Reading the buckets back gives the entries of all occupied slots. */
  lemma {:induction false} EntriesWritten(table: Table, ids: seq<int>, n: nat)
    requires Names(table, ids) && n <= NEW_BUCKETS
    ensures SlotsOf(table, Slots(table, n))
    ensures AllEntries(Buckets(table, ids), n, |ids|) == SlotEntries(table, ids, Slots(table, n))
  {
    hide BucketOf, SlotsFrom, EntriesOf, SlotsOf, SlotEntries, Names;
    SlotsAreOf(table, n);
    if n > 0 {
      SlotsAreOf(table, n - 1);
      EntriesWritten(table, ids, n - 1);
      BucketWritten(table, n - 1, ids);
      assert Buckets(table, ids)[n - 1] == BucketOf(table, n - 1, ids);
      ConcatEntries(table, ids, Slots(table, n - 1), SlotsFrom(table, n - 1, 0));
    } else {
      NoEntries(table, ids);
    }
  }

  lemma NoEntries(table: Table, ids: seq<int>)
    ensures SlotsOf(table, []) && SlotEntries(table, ids, []) == []
  {
  }

  lemma ConcatEntries(table: Table, ids: seq<int>, a: seq<Slot>, b: seq<Slot>)
    requires SlotsOf(table, a + b) && SlotsOf(table, a) && SlotsOf(table, b)
    ensures SlotEntries(table, ids, a + b) == SlotEntries(table, ids, a) + SlotEntries(table, ids, b)
  {
  }

  lemma SameEntries(table: Table, news: seq<int>, tried: seq<int>, slots: seq<Slot>)
    requires Names(table, news) && SlotsOf(table, slots)
    ensures SlotEntries(table, news + tried, slots) == SlotEntries(table, news, slots)
  {
    forall k | 0 <= k < |slots|
      ensures EntryOf(table, news + tried, slots[k]) == EntryOf(table, news, slots[k]) {
      IndexOfPrefix(news, tried, table[slots[k]]);
    }
  }

  // ---------------------------------------------------------------- placing the references

  ghost predicate InfosPlaced(h: Hashing, s: State, ids: seq<int>, info: Infos, table: Table)
    requires Within(ids, s.info)
  {
    && (forall i :: i in info <==> 0 <= i < |ids|)
    && (forall i :: 0 <= i < |ids| ==>
          info[i] == ReadInfo(s, ids, i).(refCount := |Held(h, table, i, s.info[ids[i]].svc)|))
  }

  /** The table holds exactly these slots, under the new ids. */
  ghost predicate TablePlaced(was: Table, ids: seq<int>, table: Table, slots: seq<Slot>) {
    && (forall k :: k in table <==> k in slots)
    && (forall k :: k in slots ==> k in was && table[k] == IndexOf(ids, was[k]))
  }

  ghost predicate Placed(h: Hashing, s: State, ids: seq<int>, u: State, t: State, slots: seq<Slot>)
    requires Within(ids, s.info)
  {
    && InfosPlaced(h, s, ids, t.info, t.newTable) && TablePlaced(s.newTable, ids, t.newTable, slots)
    && t == u.(info := t.info, newTable := t.newTable)
  }

  /** An entry that still waits for a slot has room for one more reference. */
  lemma RoomForOne(h: Hashing, s: State, ids: seq<int>, table: Table, slots: seq<Slot>, slot: Slot)
    requires NewSlotsOk(h, s.info, s.newTable) && RefsOk(h, s.info, s.newTable, {}) && IsOrder(ids, s.info)
    requires TablePlaced(s.newTable, ids, table, slots) && slot in s.newTable && slot !in slots
    ensures var i := IndexOf(ids, s.newTable[slot]);
      && i < |ids| && ids[i] == s.newTable[slot] && !s.info[ids[i]].inTried
      && 0 <= slot.bucket < NEW_BUCKETS && slot == h.NewSlot(s.info[ids[i]].svc, slot.bucket)
      && |Held(h, table, i, s.info[ids[i]].svc)| < NEW_BUCKETS_PER_ADDRESS
  {
    var id := s.newTable[slot];
    NewSlotFacts(h, s.info, s.newTable, slot, {});
    IndexOfPresent(ids, id);
    var i, svc := IndexOf(ids, id), s.info[id].svc;
    var before, all := Held(h, table, i, svc), Held(h, s.newTable, id, svc);
    forall b | b in before ensures b in all {
      assert h.NewSlot(svc, b) in slots;
      IndexOfPresent(ids, s.newTable[h.NewSlot(svc, b)]);
    }
    assert slot.bucket in all && slot.bucket !in before;
    assert before + {slot.bucket} <= all;
    SubsetSize(before + {slot.bucket}, all);
  }

  lemma PlaceInfos(h: Hashing, s: State, ids: seq<int>, info: Infos, table: Table, i: int, slot: Slot)
    requires Within(ids, s.info) && InfosPlaced(h, s, ids, info, table) && 0 <= i < |ids| && slot !in table
    requires 0 <= slot.bucket < NEW_BUCKETS && slot == h.NewSlot(s.info[ids[i]].svc, slot.bucket)
    ensures InfosPlaced(h, s, ids, info[i := info[i].(refCount := info[i].refCount + 1)], table[slot := i])
  {
    var infoT, tableT := info[i := info[i].(refCount := info[i].refCount + 1)], table[slot := i];
    forall x | 0 <= x < |ids|
      ensures infoT[x] == ReadInfo(s, ids, x).(refCount := |Held(h, tableT, x, s.info[ids[x]].svc)|) {
      HeldStep(h, table, tableT, slot, x, s.info[ids[x]].svc);
      assert h.NewSlot(s.info[ids[x]].svc, slot.bucket) != slot ==>
          HeldAt(h, tableT, x, s.info[ids[x]].svc, slot.bucket) == HeldAt(h, table, x, s.info[ids[x]].svc, slot.bucket);
    }
  }

  lemma PlaceTable(s: State, ids: seq<int>, table: Table, slots: seq<Slot>, slot: Slot)
    requires TablePlaced(s.newTable, ids, table, slots) && slot in s.newTable
    ensures TablePlaced(s.newTable, ids, table[slot := IndexOf(ids, s.newTable[slot])], slots + [slot])
  {
  }

  /** A valid entry with room goes back to its slot. */
  lemma PlaceEntryIs(h: Hashing, t: State, entry: BucketEntry, slot: Slot)
    requires entry.index in t.info && h.isValid(t.info[entry.index].svc)
    requires t.info[entry.index].refCount < NEW_BUCKETS_PER_ADDRESS
    requires slot == h.NewSlot(t.info[entry.index].svc, entry.bucket) && slot !in t.newTable
    ensures PlaceEntry(h, t, true, entry) == PlaceNew(t, entry.index, slot)
  {
  }

  lemma PlacedEntry(h: Hashing, s: State, ids: seq<int>, info: Infos, table: Table, i: nat)
    requires Within(ids, s.info) && InfosPlaced(h, s, ids, info, table) && i < |ids| && AllValid(h, s.info)
    ensures i in info && info[i].svc == s.info[ids[i]].svc && h.isValid(info[i].svc)
    ensures info[i].refCount == |Held(h, table, i, s.info[ids[i]].svc)|
  {
    var id := ids[i];
    assert id in s.info && h.isValid(s.info[id].svc);
  }

  /** Placing one more entry puts it back where it was. */
  lemma PlaceStep(h: Hashing, s: State, ids: seq<int>, u: State, t: State, slots: seq<Slot>, slot: Slot)
    requires NewSlotsOk(h, s.info, s.newTable) && RefsOk(h, s.info, s.newTable, {}) && IsOrder(ids, s.info)
    requires Within(ids, s.info) && Placed(h, s, ids, u, t, slots) && AllValid(h, s.info)
    requires slot in s.newTable && slot !in slots && slot.bucket >= 0
    ensures EntryOf(s.newTable, ids, slot).index in t.info
    ensures Placed(h, s, ids, u, PlaceEntry(h, t, true, EntryOf(s.newTable, ids, slot)), slots + [slot])
  {
    hide NewSlotsOk, RefsOk, IsOrder, Held, InfosPlaced, TablePlaced, PlaceEntry, AllValid, Within;
    RoomForOne(h, s, ids, t.newTable, slots, slot);
    var i := IndexOf(ids, s.newTable[slot]);
    PlacedEntry(h, s, ids, t.info, t.newTable, i);
    FreeSlot(s, ids, t.newTable, slots, slot);
    PlaceInfos(h, s, ids, t.info, t.newTable, i, slot);
    PlaceTable(s, ids, t.newTable, slots, slot);
    PlaceEntryIs(h, t, EntryOf(s.newTable, ids, slot), slot);
  }

  lemma FreeSlot(s: State, ids: seq<int>, table: Table, slots: seq<Slot>, slot: Slot)
    requires TablePlaced(s.newTable, ids, table, slots) && slot !in slots
    ensures slot !in table
  {
  }

  lemma EntriesSnoc(table: Table, ids: seq<int>, slots: seq<Slot>, info: Infos)
    requires SlotsOf(table, slots) && |slots| > 0 && Indexed(SlotEntries(table, ids, slots), info)
    ensures var n := |slots| - 1;
      && SlotsOf(table, slots[..n]) && slots == slots[..n] + [slots[n]] && slots[n] !in slots[..n]
      && slots[n] in table && slots[n].bucket >= 0
      && SlotEntries(table, ids, slots)[..n] == SlotEntries(table, ids, slots[..n])
      && SlotEntries(table, ids, slots)[n] == EntryOf(table, ids, slots[n])
      && Indexed(SlotEntries(table, ids, slots[..n]), info)
  {
    var n, entries := |slots| - 1, SlotEntries(table, ids, slots);
    forall k | 0 <= k < n ensures SlotEntries(table, ids, slots[..n])[k].index in info {
      assert entries[k].index in info;
    }
    assert entries[..n] == SlotEntries(table, ids, slots[..n]);
  }

  lemma {:induction false} AllPlaced(h: Hashing, s: State, ids: seq<int>, u: State, slots: seq<Slot>)
    requires NewSlotsOk(h, s.info, s.newTable) && RefsOk(h, s.info, s.newTable, {}) && IsOrder(ids, s.info)
    requires Within(ids, s.info) && Placed(h, s, ids, u, u, []) && AllValid(h, s.info) && SlotsOf(s.newTable, slots)
    requires Indexed(SlotEntries(s.newTable, ids, slots), u.info)
    ensures Placed(h, s, ids, u, PlaceAll(h, u, true, SlotEntries(s.newTable, ids, slots)), slots)
  {
    hide NewSlotsOk, RefsOk, IsOrder, Placed, PlaceEntry, AllValid, SlotEntries, SlotsOf, Within, Indexed;
    if slots != [] {
      var n := |slots| - 1;
      EntriesSnoc(s.newTable, ids, slots, u.info);
      AllPlaced(h, s, ids, u, slots[..n]);
      PlaceStep(h, s, ids, u, PlaceAll(h, u, true, SlotEntries(s.newTable, ids, slots[..n])), slots[..n], slots[n]);
    } else {
      NoEntries(s.newTable, ids);
    }
  }

  lemma NothingPlaced(h: Hashing, s: State, ids: seq<int>, u: State)
    requires Within(ids, s.info) && ReadUpTo(h, s, ids, u, |ids|)
    ensures Placed(h, s, ids, u, u, [])
  {
    hide Below, Counted;
    forall i | 0 <= i < |ids| ensures Held(h, u.newTable, i, s.info[ids[i]].svc) == {} { }
  }

  // ---------------------------------------------------------------- the whole way

  /** The buckets that hold an entry are those that held it. */
  lemma SameHeld(h: Hashing, s: State, ids: seq<int>, table: Table, i: nat)
    requires RefsOk(h, s.info, s.newTable, {}) && NewSlotsOk(h, s.info, s.newTable) && IsOrder(ids, s.info) && i < |ids|
    requires table == Renamed(s.newTable, ids)
    ensures ids[i] in s.info && |Held(h, table, i, s.info[ids[i]].svc)| == s.info[ids[i]].refCount
  {
    var svc := s.info[ids[i]].svc;
    IndexOfFirst(ids, i);
    forall b | 0 <= b < NEW_BUCKETS ensures HeldAt(h, table, i, svc, b) <==> HeldAt(h, s.newTable, ids[i], svc, b) {
      var slot := h.NewSlot(svc, b);
      if slot in s.newTable { IndexOfPresent(ids, s.newTable[slot]); }
    }
    assert Held(h, table, i, svc) == Held(h, s.newTable, ids[i], svc);
  }

  lemma BelowAll<K(!new)>(m: map<K, int>, part: map<K, int>, ids: seq<int>)
    requires Below(m, part, ids, |ids|) && forall k :: k in m ==> m[k] in ids
    ensures part == Renamed(m, ids)
  {
    forall k | k in m ensures IndexOf(ids, m[k]) < |ids| { IndexOfPresent(ids, m[k]); }
  }

  lemma KnownIds(h: Hashing, s: State, ids: seq<int>)
    requires Core(h, s, {}, {}) && IsOrder(ids, s.info)
    ensures forall k :: k in s.addr ==> s.addr[k] in ids
    ensures forall k :: k in s.triedTable ==> s.triedTable[k] in ids
  {
    hide RefsOk, CountsOk, TimesOk, NewSlotsOk;
    forall k | k in s.addr ensures s.addr[k] in ids { var id := s.addr[k]; assert id in s.info; }
    forall k | k in s.triedTable ensures s.triedTable[k] in ids { var id := s.triedTable[k]; assert id in s.info; }
  }

  lemma TableRenamed(s: State, ids: seq<int>, table: Table, slots: seq<Slot>)
    requires TablePlaced(s.newTable, ids, table, slots) && forall k :: k in s.newTable ==> k in slots
    ensures table == Renamed(s.newTable, ids)
  {
  }

  lemma InfosRestored(h: Hashing, s: State, ids: seq<int>, info: Infos, table: Table)
    requires RefsOk(h, s.info, s.newTable, {}) && NewSlotsOk(h, s.info, s.newTable) && IsOrder(ids, s.info)
    requires Within(ids, s.info) && InfosPlaced(h, s, ids, info, table) && table == Renamed(s.newTable, ids)
    ensures forall i :: 0 <= i < |ids| ==>
      i in info && info[i] == s.info[ids[i]].(lastTry := 0, lastCountAttempt := 0, randomPos := i)
  {
    hide RefsOk, NewSlotsOk, IsOrder, Held;
    forall i | 0 <= i < |ids|
      ensures i in info && info[i] == s.info[ids[i]].(lastTry := 0, lastCountAttempt := 0, randomPos := i) {
      SameHeld(h, s, ids, table, i);
    }
  }

  /** With all slots placed, everything is restored. */
  lemma PlacedIsRestored(h: Hashing, s: State, ids: seq<int>, u: State, t: State, slots: seq<Slot>)
    requires Core(h, s, {}, {}) && IsOrder(ids, s.info) && Within(ids, s.info)
    requires ReadUpTo(h, s, ids, u, |ids|) && Placed(h, s, ids, u, t, slots)
    requires forall k :: k in s.newTable ==> k in slots
    ensures Restored(s, t, ids)
  {
    hide IndexOk, TriedOk, NewSlotsOk, RefsOk, CountsOk, TimesOk, Counted, Below, IsOrder, Within, TablePlaced,
         InfosRead;
    KnownIds(h, s, ids);
    var none: set<int> := {};
    assert none + none == none;
    TableRenamed(s, ids, t.newTable, slots);
    InfosRestored(h, s, ids, t.info, t.newTable);
    BelowAll(s.addr, t.addr, ids);
    BelowAll(s.triedTable, t.triedTable, ids);
  }

  // ---------------------------------------------------------------- the restored state agrees

  lemma RestoredAt(s: State, t: State, ids: seq<int>, i: int)
    requires Restored(s, t, ids) && 0 <= i < |ids|
    ensures ids[i] in s.info && i in t.info
    ensures t.info[i] == s.info[ids[i]].(lastTry := 0, lastCountAttempt := 0, randomPos := i)
  {
  }

  lemma RestoredPositions(s: State, t: State, ids: seq<int>)
    requires Restored(s, t, ids)
    ensures Positions(t.info, t.rnd) && IdsBelow(t.info, t.idCount) && t.addr == Renamed(s.addr, ids)
    ensures forall i :: i in t.info <==> 0 <= i < |ids|
  {
    hide IsOrder, Renamed;
  }

  lemma RenamedAt<K(!new)>(m: map<K, int>, ids: seq<int>, k: K)
    requires k in m && m[k] in ids
    ensures k in Renamed(m, ids) && 0 <= Renamed(m, ids)[k] < |ids| && ids[Renamed(m, ids)[k]] == m[k]
  {
    IndexOfPresent(ids, m[k]);
  }

  lemma RestoredIndex(h: Hashing, s: State, t: State, ids: seq<int>)
    requires IndexOk(s.info, s.addr, s.rnd, s.idCount) && Restored(s, t, ids)
    ensures IndexOk(t.info, t.addr, t.rnd, t.idCount)
  {
    RestoredPositions(s, t, ids);
    RestoredForward(s, t, ids);
    RestoredBack(s, t, ids);
    hide Restored, Positions, IdsBelow, Renamed;
  }

  lemma RestoredForward(s: State, t: State, ids: seq<int>)
    requires IndexOk(s.info, s.addr, s.rnd, s.idCount) && Restored(s, t, ids)
    ensures forall i :: i in t.info ==> t.info[i].svc in t.addr && t.addr[t.info[i].svc] == i
  {
    RestoredPositions(s, t, ids);
    forall i | i in t.info ensures t.info[i].svc in t.addr && t.addr[t.info[i].svc] == i {
      RestoredAt(s, t, ids, i);
      IndexOfFirst(ids, i);
      PositionOf(s.info, s.addr, s.rnd, s.idCount, ids[i]);
    }
    hide Restored, IndexOk;
  }

  lemma RestoredBack(s: State, t: State, ids: seq<int>)
    requires IndexOk(s.info, s.addr, s.rnd, s.idCount) && Restored(s, t, ids)
    ensures AddrOk(t.info, t.addr)
  {
    RestoredPositions(s, t, ids);
    forall a | a in t.addr ensures t.addr[a] in t.info && t.info[t.addr[a]].svc == a {
      assert s.addr[a] in s.info && s.info[s.addr[a]].svc == a;
      assert s.addr[a] in ids;
      RenamedAt(s.addr, ids, a);
      RestoredAt(s, t, ids, t.addr[a]);
    }
  }

  lemma RestoredTried(h: Hashing, s: State, t: State, ids: seq<int>)
    requires TriedOk(h, s.info, s.triedTable) && Restored(s, t, ids)
    ensures TriedOk(h, t.info, t.triedTable)
  {
    forall k | k in t.triedTable
      ensures var i := t.triedTable[k]; i in t.info && t.info[i].inTried && k == h.TriedSlot(t.info[i].svc) {
      IndexOfPresent(ids, s.triedTable[k]);
    }
    forall i | i in t.info && t.info[i].inTried
      ensures var k := h.TriedSlot(t.info[i].svc); k in t.triedTable && t.triedTable[k] == i {
      IndexOfFirst(ids, i);
    }
  }

  lemma RestoredNew(h: Hashing, s: State, t: State, ids: seq<int>)
    requires NewSlotsOk(h, s.info, s.newTable) && RefsOk(h, s.info, s.newTable, {}) && Restored(s, t, ids)
    ensures NewSlotsOk(h, t.info, t.newTable) && RefsOk(h, t.info, t.newTable, {})
  {
    forall k | k in t.newTable
      ensures var i := t.newTable[k];
        i in t.info && !t.info[i].inTried && 0 <= k.bucket < NEW_BUCKETS && k == h.NewSlot(t.info[i].svc, k.bucket) {
      IndexOfPresent(ids, s.newTable[k]);
    }
    forall i | i in t.info
      ensures t.info[i].refCount == |Held(h, t.newTable, i, t.info[i].svc)|
        && t.info[i].refCount <= NEW_BUCKETS_PER_ADDRESS
      ensures if t.info[i].inTried then t.info[i].refCount == 0 else t.info[i].refCount >= 1 {
      SameHeld(h, s, ids, t.newTable, i);
    }
  }

  lemma Counting(n: nat) returns (v: seq<int>)
    ensures |v| == n && forall i :: 0 <= i < n ==> v[i] == i
  {
    v := seq(n, i => i);
  }

  lemma {:induction false} CountUpTo(ids: set<int>, n: nat)
    requires forall i :: i in ids <==> 0 <= i < n
    ensures |ids| == n
  {
    var v := Counting(n);
    DistinctSize(v);
    forall x ensures x in ids <==> x in v {
      if x in ids { assert v[x] == x; }
    }
    assert ids == set x | x in v;
  }

  /** The ids that were written: first those of the new table, then the tried ones, as many as counted. */
  ghost predicate SplitIds(s: State, news: seq<int>, tried: seq<int>) {
    && IsOrder(news + tried, s.info) && Within(news + tried, s.info) && Within(news, s.info) && Within(tried, s.info)
    && AllTried(s.info, news, false) && AllTried(s.info, tried, true) && |news| == s.nNew && |tried| == s.nTried
  }

  /** Entry by entry, the restored entries are in the same tables as when they were read. */
  ghost predicate SameClasses(info: Infos, infoT: Infos, nNew: nat, n: nat) {
    && info.Keys == infoT.Keys && (forall i :: i in infoT <==> 0 <= i < n)
    && forall i :: i in infoT ==>
         infoT[i].svc == info[i].svc && infoT[i].inTried == info[i].inTried && infoT[i].inTried == (i >= nNew)
  }

  lemma SplitClass(s: State, news: seq<int>, tried: seq<int>, i: int)
    requires SplitIds(s, news, tried) && 0 <= i < |news + tried|
    ensures (news + tried)[i] in s.info && s.info[(news + tried)[i]].inTried == (i >= |news|)
  {
    hide IsOrder;
    if i < |news| {
      assert (news + tried)[i] == news[i];
    } else {
      assert (news + tried)[i] == tried[i - |news|];
    }
  }

  lemma ReadAt(h: Hashing, s: State, ids: seq<int>, u: State, i: int)
    requires Within(ids, s.info) && ReadUpTo(h, s, ids, u, |ids|) && 0 <= i < |ids|
    ensures i in u.info && u.info[i].svc == s.info[ids[i]].svc && u.info[i].inTried == s.info[ids[i]].inTried
  {
    hide Below, Counted;
  }

  lemma RestoredClasses(h: Hashing, s: State, u: State, t: State, news: seq<int>, tried: seq<int>)
    requires SplitIds(s, news, tried) && Restored(s, t, news + tried) && ReadUpTo(h, s, news + tried, u, |news + tried|)
    ensures SameClasses(u.info, t.info, |news|, |news + tried|) && Counted(h, u)
  {
    hide Restored, ReadUpTo, SplitIds, Counted, Positions, IdsBelow, Renamed;
    var ids := news + tried;
    SplitWithin(s, news, tried);
    RestoredPositions(s, t, ids);
    ReadKeys(h, s, ids, u);
    forall i | 0 <= i < |ids|
      ensures t.info[i].svc == u.info[i].svc && t.info[i].inTried == u.info[i].inTried
      ensures t.info[i].inTried == (i >= |news|)
    {
      RestoredAt(s, t, ids, i);
      ReadAt(h, s, ids, u, i);
      SplitClass(s, news, tried, i);
    }
  }

  lemma ReadKeys(h: Hashing, s: State, ids: seq<int>, u: State)
    requires Within(ids, s.info) && ReadUpTo(h, s, ids, u, |ids|)
    ensures (forall i :: i in u.info <==> 0 <= i < |ids|) && Counted(h, u)
  {
    hide Below, Counted;
  }

  lemma SameIds(info: Infos, infoT: Infos, c: Class)
    requires info.Keys == infoT.Keys && forall x :: x in info ==> infoT[x].inTried == info[x].inTried
    ensures Ids(infoT, {}, c) == Ids(info, {}, c)
  {
  }

  lemma NewIdsCount(infoT: Infos, nNew: nat, n: nat)
    requires (forall i :: i in infoT <==> 0 <= i < n) && nNew <= n
    requires forall i :: i in infoT ==> infoT[i].inTried == (i >= nNew)
    ensures |Ids(infoT, {}, AsNew)| == nNew && |Ids(infoT, {}, AsTried)| == n - nNew
  {
    CountUpTo(Ids(infoT, {}, AsNew), nNew);
    CountUpTo(infoT.Keys, n);
    ClassesPartition(infoT);
    assert |infoT| == |infoT.Keys|;
  }

  lemma ClassCounts(h: Hashing, info: Infos, infoT: Infos, counts: map<Network, Counts>, nNew: nat, n: nat)
    requires SameClasses(info, infoT, nNew, n) && nNew <= n
    requires CountsOk(h, info, {}, |Ids(info, {}, AsNew)|, |Ids(info, {}, AsTried)|, counts)
    ensures CountsOk(h, infoT, {}, nNew, n - nNew, counts)
  {
    hide CountsOk, Ids;
    CountsFrame(h, info, infoT, {}, |Ids(info, {}, AsNew)|, |Ids(info, {}, AsTried)|, counts);
    SameIds(info, infoT, AsNew);
    SameIds(info, infoT, AsTried);
    NewIdsCount(infoT, nNew, n);
  }

  /** The counters are exact for the new ids too. */
  lemma RestoredCounts(h: Hashing, s: State, u: State, t: State, news: seq<int>, tried: seq<int>)
    requires SplitIds(s, news, tried) && Restored(s, t, news + tried) && ReadUpTo(h, s, news + tried, u, |news + tried|)
    requires t.counts == u.counts
    ensures CountsOk(h, t.info, {}, t.nNew, t.nTried, t.counts)
  {
    RestoredClasses(h, s, u, t, news, tried);
    hide ReadUpTo, CountsOk, SameClasses, IsOrder, Within, AllTried;
    ClassCounts(h, u.info, t.info, t.counts, |news|, |news + tried|);
  }

  lemma RestoredInv(h: Hashing, s: State, u: State, t: State, news: seq<int>, tried: seq<int>)
    requires Inv(h, s) && SplitIds(s, news, tried)
    requires Restored(s, t, news + tried) && ReadUpTo(h, s, news + tried, u, |news + tried|) && t.counts == u.counts
    ensures Inv(h, t)
  {
    hide IndexOk, TriedOk, NewSlotsOk, RefsOk, CountsOk, TimesOk, ReadUpTo, SplitIds, Restored;
    var none: set<int> := {};
    assert none + none == none;
    RestoredIndex(h, s, t, news + tried);
    RestoredTried(h, s, t, news + tried);
    RestoredNew(h, s, t, news + tried);
    RestoredTimes(s, t, news + tried);
    SplitWithin(s, news, tried);
    RestoredCounts(h, s, u, t, news, tried);
  }

  lemma SplitWithin(s: State, news: seq<int>, tried: seq<int>)
    requires SplitIds(s, news, tried)
    ensures Within(news + tried, s.info)
  {
  }

  lemma RestoredTimes(s: State, t: State, ids: seq<int>)
    requires TimesOk(s.info) && Restored(s, t, ids)
    ensures TimesOk(t.info) && t.collisions == {} && t.idCount >= 0
  {
  }

  /** Nothing is left to prune. */
  lemma {:induction false} NothingPruned(h: Hashing, s: State, order: seq<int>)
    requires Readable(s) && forall id :: !Unused(s.info, id)
    ensures Prune(h, s, order) == s
  {
    hide Readable, Unused;
    if order != [] {
      NothingPruned(h, s, order[..|order| - 1]);
    }
  }

  // ---------------------------------------------------------------- the numbers fit

  ghost function ValuesAt<K>(m: map<K, int>, keys: set<K>): set<int>
    requires keys <= m.Keys
  {
    set k | k in keys :: m[k]
  }

  lemma {:induction false} ValuesAreFew<K>(m: map<K, int>, keys: set<K>)
    requires keys <= m.Keys
    ensures |ValuesAt(m, keys)| <= |keys|
    decreases |keys|
  {
    if keys != {} {
      var key :| key in keys;
      ValuesAreFew(m, keys - {key});
      assert ValuesAt(m, keys) == ValuesAt(m, keys - {key}) + {m[key]};
    }
  }

  lemma {:induction false} SlotsOfBucket(slots: set<Slot>, b: int, n: nat)
    requires forall t :: t in slots ==> t.bucket == b && 0 <= t.pos < n
    ensures |slots| <= n
  {
    if n > 0 {
      SlotsOfBucket(slots - {Slot(b, n - 1)}, b, n - 1);
      assert |slots - {Slot(b, n - 1)}| >= |slots| - 1;
    } else {
      assert slots == {};
    }
  }

  lemma {:induction false} SlotsOfTable(slots: set<Slot>, n: nat)
    requires forall t :: t in slots ==> 0 <= t.bucket < n && 0 <= t.pos < BUCKET_SIZE
    ensures |slots| <= n * BUCKET_SIZE
  {
    if n > 0 {
      var last := set t | t in slots && t.bucket == n - 1;
      SlotsOfBucket(last, n - 1, BUCKET_SIZE);
      SlotsOfTable(slots - last, n - 1);
      assert |slots| == |slots - last| + |last| by { assert slots == slots - last + last; }
    } else {
      assert slots == {};
    }
  }

  lemma FewIds(table: Table, buckets: nat, ids: set<int>)
    requires forall t :: t in table ==> 0 <= t.bucket < buckets && 0 <= t.pos < BUCKET_SIZE
    requires forall id :: id in ids ==> exists t :: t in table && table[t] == id
    ensures |ids| <= buckets * BUCKET_SIZE
  {
    SlotsOfTable(table.Keys, buckets);
    ValuesAreFew(table, table.Keys);
    var all := ValuesAt(table, table.Keys);
    forall id | id in ids ensures id in all { var t :| t in table && table[t] == id; }
    assert |all| == |ids| + |all - ids| by { assert all == ids + (all - ids); }
  }

  /** What the counters announce is never more than the tables can hold. */
  lemma NewIdHeld(h: Hashing, s: State, id: int)
    requires RefsOk(h, s.info, s.newTable, {}) && id in s.info && !s.info[id].inTried
    ensures exists t :: t in s.newTable && s.newTable[t] == id
  {
    var held := Held(h, s.newTable, id, s.info[id].svc);
    assert |held| >= 1;
    var b :| b in held;
    assert s.newTable[h.NewSlot(s.info[id].svc, b)] == id;
  }

  lemma TriedIdHeld(h: Hashing, s: State, id: int)
    requires TriedOk(h, s.info, s.triedTable) && id in s.info && s.info[id].inTried
    ensures exists t :: t in s.triedTable && s.triedTable[t] == id
  {
    assert s.triedTable[h.TriedSlot(s.info[id].svc)] == id;
  }

  lemma SlotsInRange(h: Hashing, s: State)
    requires NewSlotsOk(h, s.info, s.newTable) && TriedOk(h, s.info, s.triedTable)
    ensures forall t :: t in s.newTable ==> 0 <= t.bucket < NEW_BUCKETS && 0 <= t.pos < BUCKET_SIZE
    ensures forall t :: t in s.triedTable ==> 0 <= t.bucket < TRIED_BUCKETS && 0 <= t.pos < BUCKET_SIZE
  {
  }

  lemma NumbersFit(h: Hashing, s: State)
    requires Core(h, s, {}, {})
    ensures 0 <= s.nNew <= NEW_BUCKETS * BUCKET_SIZE && 0 <= s.nTried <= TRIED_BUCKETS * BUCKET_SIZE
  {
    hide IndexOk, TimesOk, RefsOk, TriedOk, NewSlotsOk;
    var none: set<int> := {};
    assert none + none == none;
    SlotsInRange(h, s);
    forall id | id in Ids(s.info, {}, AsNew) ensures exists t :: t in s.newTable && s.newTable[t] == id {
      NewIdHeld(h, s, id);
    }
    FewIds(s.newTable, NEW_BUCKETS, Ids(s.info, {}, AsNew));
    forall id | id in Ids(s.info, {}, AsTried) ensures exists t :: t in s.triedTable && s.triedTable[t] == id {
      TriedIdHeld(h, s, id);
    }
    FewIds(s.triedTable, TRIED_BUCKETS, Ids(s.info, {}, AsTried));
  }

  lemma NamesNew(h: Hashing, s: State, order: seq<int>)
    requires Core(h, s, {}, {}) && IsOrder(order, s.info)
    ensures Names(s.newTable, NewIds(s, order))
    ensures forall t :: t in s.newTable ==> t in Slots(s.newTable, NEW_BUCKETS)
  {
    hide IndexOk, TriedOk, RefsOk, CountsOk, TimesOk, NewIds, Slots, IsOrder;
    NewIdsFacts(h, s, order);
    AllSlots(s.newTable, NEW_BUCKETS);
    forall t | t in s.newTable ensures s.newTable[t] in NewIds(s, order) && t in Slots(s.newTable, NEW_BUCKETS) {
      var id := s.newTable[t];
      assert id in s.info && t == h.NewSlot(s.info[id].svc, t.bucket);
    }
  }

  lemma IndexedBelow(entries: seq<BucketEntry>, u: State, n: nat)
    requires forall k :: 0 <= k < |entries| ==> 0 <= entries[k].index < n
    requires forall i :: 0 <= i < n ==> i in u.info
    ensures Indexed(entries, u.info)
  {
  }

  /** The stream that is written passes all checks of the reader. */
  lemma StreamIsSound(h: Hashing, s: State, order: seq<int>, key: nat, asmap: nat)
    requires Core(h, s, {}, {}) && IsOrder(order, s.info)
    ensures var m := Serialize(s, order, key, asmap);
      && m.compat >= INCOMPATIBILITY_BASE && m.compat - INCOMPATIBILITY_BASE <= FILE_FORMAT
      && 0 <= m.nNew <= NEW_BUCKETS * BUCKET_SIZE && 0 <= m.nTried <= TRIED_BUCKETS * BUCKET_SIZE
      && Complete(m) && Restorable(m, asmap)
  {
    hide Core, NewIds, TriedIds, SaveAll, BucketOf, IsOrder, AllTried, Written, FlipBit30;
    NumbersFit(h, s);
    WrittenOnce(h, s, order);
    FlippedTwice();
  }

  lemma FlippedTwice()
    ensures FlipBit30(FlipBit30(NEW_BUCKETS)) == NEW_BUCKETS
  {
  }

  lemma KeysRead(h: Hashing, s: State, ids: seq<int>, u: State, n: nat)
    requires Within(ids, s.info) && n <= |ids| && ReadUpTo(h, s, ids, u, |ids|)
    ensures forall i :: 0 <= i < n ==> i in u.info
  {
  }

  /** The references go back to where they were. */
  lemma ReferencesPlaced(h: Hashing, s: State, news: seq<int>, tried: seq<int>, u: State)
    requires Core(h, s, {}, {}) && SplitIds(s, news, tried) && AllValid(h, s.info) && Within(news + tried, s.info)
    requires ReadUpTo(h, s, news + tried, u, |news + tried|) && Names(s.newTable, news)
    requires forall t :: t in s.newTable ==> t in Slots(s.newTable, NEW_BUCKETS)
    ensures var entries := AllEntries(Buckets(s.newTable, news), NEW_BUCKETS, |news|);
      && Indexed(entries, u.info)
      && Restored(s, PlaceAll(h, u, true, entries), news + tried) && PlaceAll(h, u, true, entries).counts == u.counts
  {
    var none: set<int> := {};
    assert none + none == none;
    hide IndexOk, TriedOk, NewSlotsOk, RefsOk, CountsOk, TimesOk, Restored, IsOrder, Within, AllTried, AllValid,
         ReadUpTo, Placed,
         Names, SlotEntries, SlotsOf, PlaceAll, Buckets, Slots;
    var ids, slots := news + tried, Slots(s.newTable, NEW_BUCKETS);
    EntriesWritten(s.newTable, news, NEW_BUCKETS);
    SameEntries(s.newTable, news, tried, slots);
    var entries := AllEntries(Buckets(s.newTable, news), NEW_BUCKETS, |news|);
    KeysRead(h, s, ids, u, |news|);
    IndexedBelow(entries, u, |news|);
    NothingPlaced(h, s, ids, u);
    AllPlaced(h, s, ids, u, slots);
    PlacedIsRestored(h, s, ids, u, PlaceAll(h, u, true, entries), slots);
    PlacedCounts(h, s, ids, u, PlaceAll(h, u, true, entries), slots);
  }

  lemma PlacedCounts(h: Hashing, s: State, ids: seq<int>, u: State, t: State, slots: seq<Slot>)
    requires Within(ids, s.info) && Placed(h, s, ids, u, t, slots)
    ensures t.counts == u.counts
  {
  }

  lemma NoneUnused(h: Hashing, s: State, order: seq<int>)
    requires Inv(h, s) && Readable(s)
    ensures Consistent(h, s) && Prune(h, s, order) == s
  {
    InvIsConsistent(h, s);
    ReferencedAreNew(h, s);
    hide IndexOk, TriedOk, NewSlotsOk, RefsOk, CountsOk, TimesOk, Consistent, Readable;
    NothingPruned(h, s, order);
  }

  lemma WrittenSplits(h: Hashing, s: State, order: seq<int>)
    requires Core(h, s, {}, {}) && IsOrder(order, s.info)
    ensures SplitIds(s, NewIds(s, order), TriedIds(s, order)) && Within(Written(s, order), s.info)
  {
    WrittenOnce(h, s, order);
  }

  /** The addresses and references that the reader makes of the stream. */
  lemma StreamRestored(h: Hashing, s: State, order: seq<int>, m: Stream)
    requires Inv(h, s) && IsOrder(order, s.info) && AllValid(h, s.info)
    requires m.nNew == s.nNew && m.nTried == s.nTried && m.buckets == Buckets(s.newTable, NewIds(s, order))
    requires m.newEntries == SaveAll(s.info, NewIds(s, order)) && m.triedEntries == SaveAll(s.info, TriedIds(s, order))
    ensures 0 <= m.nNew == |m.newEntries| && |m.buckets| == NEW_BUCKETS
    ensures var entries := AllEntries(m.buckets, NEW_BUCKETS, m.nNew);
      && Indexed(entries, Addresses(h, m).info)
      && var t := PlaceAll(h, Addresses(h, m), true, entries);
         Restored(s, t, Written(s, order)) && Inv(h, t)
  {
    var news, tried := NewIds(s, order), TriedIds(s, order);
    WrittenSplits(h, s, order);
    NamesNew(h, s, order);
    hide Core, CollisionsOk, IsOrder, NewIds, TriedIds, Restored, ReadUpTo, Within, AllTried, AllValid, Names, Slots,
         AllEntries, PlaceAll;
    AddressesRead(h, s, m, news, tried);
    var u := Addresses(h, m);
    ReferencesPlaced(h, s, news, tried, u);
    RestoredInv(h, s, u, PlaceAll(h, u, true, AllEntries(m.buckets, NEW_BUCKETS, m.nNew)), news, tried);
  }

  /** Reading what was written succeeds, restores everything up to the choice of ids, loses nothing, and
      leaves a state whose structures agree; whatever order the containers are walked in. */
  lemma RoundTrip(h: Hashing, s: State, order: seq<int>, key: nat, asmap: nat, hashing: nat -> Hashing,
                  pruning: seq<int>)
    requires Inv(h, s) && IsOrder(order, s.info) && hashing(key) == h && AllValid(h, s.info)
    ensures var result := Unserialize(hashing, Serialize(s, order, key, asmap), asmap, pruning);
      result.Loaded? && Restored(s, result.state, Written(s, order)) && Inv(h, result.state)
  {
    var m := Serialize(s, order, key, asmap);
    StreamIsSound(h, s, order, key, asmap);
    StreamRestored(h, s, order, m);
    hide Inv, IsOrder, NewIds, TriedIds, Restored, AllValid, AllEntries, PlaceAll, Addresses, Consistent, Readable,
         Prune;
    assert SizesInRange(m);
    var entries := AllEntries(m.buckets, NEW_BUCKETS, m.nNew);
    var t := PlaceAll(h, Addresses(h, m), true, entries);
    PlaceKeepsReadable(h, Addresses(h, m), true, entries);
    NoneUnused(h, t, pruning);
  }
}
