/** The address manager's own consistency check: what it accepts, and how that compares with the
    invariant. */
module AddrManCheck {
  import opened Basics
  import opened AddrManState
  import opened AddrManInvariant
  import opened BucketTable

  // ---------------------------------------------------------------- what the check accepts

  ghost predicate EntryPasses(s: State, id: int)
    requires id in s.info
  {
    var e := s.info[id];
    && (if e.inTried then e.lastSuccess != 0 && e.refCount == 0
        else 0 < e.refCount <= NEW_BUCKETS_PER_ADDRESS)
    && e.svc in s.addr && s.addr[e.svc] == id
    && 0 <= e.randomPos < |s.rnd| && s.rnd[e.randomPos] == id
    && e.lastTry >= 0 && e.lastSuccess >= 0
  }

  ghost predicate RefsExact(h: Hashing, info: Infos, table: Table) {
    forall id :: id in info && !info[id].inTried ==> info[id].refCount == |Held(h, table, id, info[id].svc)|
  }

  ghost function Nets(h: Hashing, info: Infos): set<Network> {
    set id | id in info :: h.network(info[id].svc)
  }

  /** The check compares the networks it has counters for; of networks without counters it only
      notices when there are too many. */
  ghost predicate CountersPass(h: Hashing, s: State) {
    && |Nets(h, s.info)| <= |s.counts|
    && forall net :: net in s.counts ==> s.counts[net] == TrueCounts(h, s.info, {}, net)
  }

  ghost predicate Consistent(h: Hashing, s: State) {
    && |s.rnd| == s.nTried + s.nNew
    && (forall id :: id in s.info ==> EntryPasses(s, id))
    && s.nTried == |Ids(s.info, {}, AsTried)| && s.nNew == |Ids(s.info, {}, AsNew)|
    && TriedOk(h, s.info, s.triedTable)
    && NewSlotsOk(h, s.info, s.newTable) && RefsExact(h, s.info, s.newTable)
    && !h.keyIsNull
    && CountersPass(h, s)
  }

  // ---------------------------------------------------------------- the invariant passes

  lemma {:induction false} DistinctSize(v: seq<int>)
    requires forall i, j :: 0 <= i < j < |v| ==> v[i] != v[j]
    ensures |set x | x in v| == |v|
  {
    if v != [] {
      var last := |v| - 1;
      DistinctSize(v[..last]);
      assert v == v[..last] + [v[last]];
      assert (set x | x in v) == (set x | x in v[..last]) + {v[last]};
    }
  }

  /** nNew + nTried == vRandom.size(). */
  lemma CountsAddUp(h: Hashing, s: State)
    requires Core(h, s, {}, {})
    ensures s.nNew + s.nTried == |s.rnd| == |s.info|
  {
    hide IndexOk, TriedOk, NewSlotsOk, RefsOk, TimesOk;
    NoRepeats(s.info, s.addr, s.rnd, s.idCount);
    DistinctSize(s.rnd);
    VectorIsInfo(s.info, s.addr, s.rnd, s.idCount);
    ClassesPartition(s.info);
  }

  lemma NoRepeats(info: Infos, addr: map<Service, int>, rnd: seq<int>, idCount: int)
    requires IndexOk(info, addr, rnd, idCount)
    ensures forall i, j :: 0 <= i < j < |rnd| ==> rnd[i] != rnd[j]
  {
    hide IndexOk;
    forall i, j | 0 <= i < j < |rnd| ensures rnd[i] != rnd[j] {
      PositionAt(info, addr, rnd, idCount, i);
      PositionAt(info, addr, rnd, idCount, j);
    }
  }

  lemma ClassesPartition(info: Infos)
    ensures |Ids(info, {}, AsNew)| + |Ids(info, {}, AsTried)| == |info|
  {
    var a, b := Ids(info, {}, AsNew), Ids(info, {}, AsTried);
    assert a + b == info.Keys && a !! b;
  }

  lemma VectorIsInfo(info: Infos, addr: map<Service, int>, rnd: seq<int>, idCount: int)
    requires IndexOk(info, addr, rnd, idCount)
    ensures (set x | x in rnd) == info.Keys
  {
    forall x ensures x in rnd <==> x in info.Keys {
      if x in info {
        PositionOf(info, addr, rnd, idCount, x);
      }
      if x in rnd {
        var i :| 0 <= i < |rnd| && rnd[i] == x;
        PositionAt(info, addr, rnd, idCount, i);
      }
    }
  }

  lemma NetsCounted(h: Hashing, s: State)
    requires Core(h, s, {}, {})
    ensures Nets(h, s.info) <= s.counts.Keys
  {
    hide IndexOk, TriedOk, NewSlotsOk, RefsOk, TimesOk;
    forall id | id in s.info ensures h.network(s.info[id].svc) in s.counts {
      var net, c := h.network(s.info[id].svc), ClassOf(s.info, {}, id);
      assert id in IdsOn(h, s.info, {}, c, net);
      assert CountFor(s.counts, net) == TrueCounts(h, s.info, {}, net);
      assert |IdsOn(h, s.info, {}, c, net)| > 0;
    }
  }

  lemma InvCounters(h: Hashing, s: State)
    requires Core(h, s, {}, {})
    ensures CountersPass(h, s)
    ensures s.nTried == |Ids(s.info, {}, AsTried)| && s.nNew == |Ids(s.info, {}, AsNew)|
  {
    hide IndexOk, TriedOk, NewSlotsOk, RefsOk, TimesOk;
    NetsCounted(h, s);
    SubsetSize(Nets(h, s.info), s.counts.Keys);
    assert |s.counts.Keys| == |s.counts|;
    forall net | net in s.counts ensures s.counts[net] == TrueCounts(h, s.info, {}, net) {
      assert CountFor(s.counts, net) == TrueCounts(h, s.info, {}, net);
    }
  }

  /** Every state in which the structures agree passes the check. */
  lemma InvIsConsistent(h: Hashing, s: State)
    requires Inv(h, s)
    ensures Consistent(h, s)
  {
    hide IndexOk, TriedOk, NewSlotsOk, RefsOk, TimesOk, CountsOk, EntryPasses, RefsExact, CountersPass;
    CountsAddUp(h, s);
    InvCounters(h, s);
    CorePasses(h, s);
  }

  lemma CorePasses(h: Hashing, s: State)
    requires Core(h, s, {}, {})
    ensures forall id :: id in s.info ==> EntryPasses(s, id)
    ensures RefsExact(h, s.info, s.newTable)
  {
    hide Core;
    forall id | id in s.info ensures EntryPasses(s, id) {
      CoreEntry(h, s, {}, {}, id);
      CoreRefs(h, s, id);
    }
    forall id | id in s.info && !s.info[id].inTried
      ensures s.info[id].refCount == |Held(h, s.newTable, id, s.info[id].svc)|
    {
      CoreEntry(h, s, {}, {}, id);
    }
  }

  lemma CoreRefs(h: Hashing, s: State, id: int)
    requires Core(h, s, {}, {}) && id in s.info
    ensures s.info[id].inTried ==> s.info[id].refCount == 0
    ensures 0 <= s.info[id].randomPos < |s.rnd| && s.rnd[s.info[id].randomPos] == id
  {
    PositionOf(s.info, s.addr, s.rnd, s.idCount, id);
  }

  /** The check alone is weaker than the invariant: with one entry on network 1 and only an empty counter
      for network 0, it finds nothing wrong.  No run of the address manager and no stream leads there;
      AddrManAgreement.dfy says exactly what else it leaves out. */
  lemma CheckMissesNetwork(h: Hashing, svc: Service)
    requires !h.keyIsNull && h.network(svc) == 1
    ensures var e := Info(svc, 0, 0, 0, 0, 0, 1, 0, 0, true, 0);
      var s := State(map[0 := e], map[svc := 0], [0], map[], map[h.TriedSlot(svc) := 0], 0, 1, map[0 := Counts(0, 0)],
                     {}, 1, 1);
      Consistent(h, s) && !Inv(h, s)
  {
    var e := Info(svc, 0, 0, 0, 0, 0, 1, 0, 0, true, 0);
    var info: Infos := map[0 := e];
    assert Ids(info, {}, AsTried) == {0} && Ids(info, {}, AsNew) == {};
    assert Nets(h, info) == {1};
    assert IdsOn(h, info, {}, AsTried, 0) == {} && IdsOn(h, info, {}, AsNew, 0) == {};
    assert IdsOn(h, info, {}, AsTried, 1) == {0};
    var counts: map<Network, Counts> := map[0 := Counts(0, 0)];
    assert |counts.Keys| == 1 by { assert counts.Keys == {0}; }
    assert CountFor(counts, 1) != TrueCounts(h, info, {}, 1);
  }

  // ---------------------------------------------------------------- the check itself

  /** The verdict on one entry. */
  function EntryCode(e: Info, id: int, addr: map<Service, int>, rnd: seq<int>): int {
    if e.inTried && e.lastSuccess == 0 then -1
    else if e.inTried && e.refCount != 0 then -2
    else if !e.inTried && (e.refCount < 0 || e.refCount > NEW_BUCKETS_PER_ADDRESS) then -3
    else if !e.inTried && e.refCount == 0 then -4
    else if e.svc !in addr || addr[e.svc] != id then -5
    else if e.randomPos < 0 || e.randomPos >= |rnd| || rnd[e.randomPos] != id then -14
    else if e.lastTry < 0 then -6
    else if e.lastSuccess < 0 then -8
    else 0
  }

  ghost function RefCounts(info: Infos): map<int, int> {
    map id | id in info && !info[id].inTried :: info[id].refCount
  }

  datatype Recount = Recount(setTried: set<int>, mapNew: map<int, int>, local: map<Network, Counts>)

  function CountEntry(h: Hashing, r: Recount, id: int, e: Info): Recount {
    if e.inTried then
      r.(setTried := r.setTried + {id}, local := Bump(r.local, h.network(e.svc), 0, 1))
    else
      r.(mapNew := r.mapNew[id := e.refCount], local := Bump(r.local, h.network(e.svc), 1, 0))
  }

  ghost predicate IsRecount(h: Hashing, info: Infos, r: Recount) {
    && r.setTried == Ids(info, {}, AsTried) && r.mapNew == RefCounts(info)
    && r.local.Keys == Nets(h, info)
    && CountsOk(h, info, {}, |r.mapNew|, |r.setTried|, r.local)
  }

  lemma RecountNothing(h: Hashing)
    ensures IsRecount(h, map[], Recount({}, map[], map[]))
  {
    assert Ids(map[], {}, AsNew) == {} && Ids(map[], {}, AsTried) == {};
    forall net ensures TrueCounts(h, map[], {}, net) == Counts(0, 0) {
      assert IdsOn(h, map[], {}, AsNew, net) == {} && IdsOn(h, map[], {}, AsTried, net) == {};
    }
  }

  lemma OneMoreId(done: Infos, id: int, e: Info)
    requires id !in done
    ensures Ids(done[id := e], {}, AsTried) == Ids(done, {}, AsTried) + (if e.inTried then {id} else {})
    ensures RefCounts(done[id := e]) == if e.inTried then RefCounts(done) else RefCounts(done)[id := e.refCount]
  {
  }

  lemma OneMoreNet(h: Hashing, done: Infos, id: int, e: Info)
    requires id !in done
    ensures Nets(h, done[id := e]) == Nets(h, done) + {h.network(e.svc)}
  {
    var more := done[id := e];
    assert more[id] == e;
    forall x | x in done ensures more[x] == done[x] { }
  }

  lemma RecountOneMore(h: Hashing, done: Infos, r: Recount, id: int, e: Info)
    requires IsRecount(h, done, r) && id !in done
    ensures IsRecount(h, done[id := e], CountEntry(h, r, id, e))
  {
    hide CountsOk, Ids, RefCounts, Nets, IsRecount, Bump, ClassOf;
    RecountParts(h, done, r);
    RecountFresh(h, done, r, id);
    RecountLists(h, done, r, id, e);
    OneMoreCounts(h, done, id, e, |r.mapNew|, |r.setTried|, r.local);
    CountedSizes(h, r, id, e);
    RecountIs(h, done[id := e], CountEntry(h, r, id, e));
  }

  /** The lists grow as the sets that they stand for do. */
  lemma RecountLists(h: Hashing, done: Infos, r: Recount, id: int, e: Info)
    requires id !in done && r.setTried == Ids(done, {}, AsTried) && r.mapNew == RefCounts(done)
      && r.local.Keys == Nets(h, done)
    ensures var q := CountEntry(h, r, id, e);
      && q.setTried == Ids(done[id := e], {}, AsTried) && q.mapNew == RefCounts(done[id := e])
      && q.local.Keys == Nets(h, done[id := e])
  {
    hide Ids, RefCounts, Nets, Bump;
    OneMoreId(done, id, e);
    OneMoreNet(h, done, id, e);
    BumpKeys(r.local, h.network(e.svc), One(!e.inTried), One(e.inTried));
  }

  lemma CountedSizes(h: Hashing, r: Recount, id: int, e: Info)
    requires id !in r.setTried && id !in r.mapNew
    ensures var q := CountEntry(h, r, id, e);
      && |q.mapNew| == |r.mapNew| + One(!e.inTried) && |q.setTried| == |r.setTried| + One(e.inTried)
      && q.local == Bump(r.local, h.network(e.svc), One(!e.inTried), One(e.inTried))
  {
    hide Bump;
  }

  lemma BumpKeys(counts: map<Network, Counts>, net: Network, dNew: int, dTried: int)
    ensures Bump(counts, net, dNew, dTried).Keys == counts.Keys + {net}
  {
  }

  lemma OneMoreCounts(h: Hashing, done: Infos, id: int, e: Info, nNew: int, nTried: int, local: map<Network, Counts>)
    requires CountsOk(h, done, {}, nNew, nTried, local) && id !in done
    ensures CountsOk(h, done[id := e], {}, nNew + One(!e.inTried), nTried + One(e.inTried),
      Bump(local, h.network(e.svc), One(!e.inTried), One(e.inTried)))
  {
    hide CountsOk, Bump;
    CountsStep(h, done, done[id := e], {}, {}, id, e.svc, nNew, nTried, local);
  }

  lemma RecountParts(h: Hashing, info: Infos, r: Recount)
    requires IsRecount(h, info, r)
    ensures r.setTried == Ids(info, {}, AsTried) && r.mapNew == RefCounts(info)
    ensures r.local.Keys == Nets(h, info)
    ensures CountsOk(h, info, {}, |r.mapNew|, |r.setTried|, r.local)
  {
    hide CountsOk;
  }

  lemma RecountSizes(h: Hashing, info: Infos, r: Recount)
    requires IsRecount(h, info, r)
    ensures |r.setTried| == |Ids(info, {}, AsTried)| && |r.mapNew| == |Ids(info, {}, AsNew)|
  {
  }

  lemma RecountFresh(h: Hashing, done: Infos, r: Recount, id: int)
    requires IsRecount(h, done, r) && id !in done
    ensures id !in r.setTried && id !in r.mapNew
  {
    hide CountsOk;
  }

  lemma RecountIs(h: Hashing, info: Infos, r: Recount)
    requires r.setTried == Ids(info, {}, AsTried) && r.mapNew == RefCounts(info)
    requires r.local.Keys == Nets(h, info)
    requires CountsOk(h, info, {}, |r.mapNew|, |r.setTried|, r.local)
    ensures IsRecount(h, info, r)
  {
    hide CountsOk;
  }

  /** A loop over the entries has visited `done` and still has to visit `todo`. */
  ghost predicate Splits(info: Infos, todo: Infos, done: Infos) {
    info == todo + done && todo.Keys !! done.Keys
  }

  lemma SplitStep(info: Infos, todo: Infos, done: Infos, id: int)
    requires Splits(info, todo, done) && id in todo
    ensures Splits(info, todo - {id}, done[id := todo[id]]) && id !in done
    ensures id in info && info[id] == todo[id] && |todo - {id}| < |todo|
  {
    assert (todo - {id}) + done[id := todo[id]] == todo + done;
    assert (todo - {id}).Keys == todo.Keys - {id};
    assert |todo - {id}| == |(todo - {id}).Keys| && |todo| == |todo.Keys|;
  }

  ghost predicate AllPass(info: Infos, addr: map<Service, int>, rnd: seq<int>) {
    forall id :: id in info ==> EntryCode(info[id], id, addr, rnd) == 0
  }

  ghost predicate Progress(h: Hashing, info: Infos, addr: map<Service, int>, rnd: seq<int>, todo: Infos, done: Infos,
                           r: Recount) {
    Splits(info, todo, done) && IsRecount(h, done, r) && AllPass(done, addr, rnd)
  }

  lemma ProgressStarts(h: Hashing, info: Infos, addr: map<Service, int>, rnd: seq<int>)
    ensures Progress(h, info, addr, rnd, info, map[], Recount({}, map[], map[]))
  {
    RecountNothing(h);
    hide IsRecount;
    assert info + map[] == info;
  }

  lemma ProgressAdvances(h: Hashing, info: Infos, addr: map<Service, int>, rnd: seq<int>, todo: Infos, done: Infos,
                         r: Recount, id: int)
    requires Progress(h, info, addr, rnd, todo, done, r) && id in todo
    ensures id in info && info[id] == todo[id] && |todo - {id}| < |todo|
    ensures EntryCode(todo[id], id, addr, rnd) == 0 ==>
      Progress(h, info, addr, rnd, todo - {id}, done[id := todo[id]], CountEntry(h, r, id, todo[id]))
  {
    hide IsRecount, CountEntry, EntryCode;
    SplitStep(info, todo, done, id);
    hide Splits;
    RecountOneMore(h, done, r, id, todo[id]);
  }

  lemma ProgressEnds(h: Hashing, info: Infos, addr: map<Service, int>, rnd: seq<int>, done: Infos, r: Recount)
    requires Progress(h, info, addr, rnd, map[], done, r)
    ensures AllPass(info, addr, rnd) && IsRecount(h, info, r)
  {
    hide IsRecount, AllPass;
    assert map[] + done == done;
  }

  /** The first loop: judges every entry and recounts. */
  method CheckEntries(h: Hashing, info: Infos, addr: map<Service, int>, rnd: seq<int>) returns (code: int, r: Recount)
    ensures code == 0 <==> AllPass(info, addr, rnd)
    ensures code == 0 ==> IsRecount(h, info, r)
  {
    hide IsRecount, EntryCode, CountEntry, Progress;
    code, r := 0, Recount({}, map[], map[]);
    var todo := info;
    ghost var done: Infos := map[];
    ProgressStarts(h, info, addr, rnd);
    while todo != map[]
      invariant code == 0 && Progress(h, info, addr, rnd, todo, done, r)
      decreases |todo|
    {
      assert todo.Items != {};
      var entry :| entry in todo.Items;
      var (id, e) := entry;
      ProgressAdvances(h, info, addr, rnd, todo, done, r, id);
      code := EntryCode(e, id, addr, rnd);
      if code != 0 { return; }
      r := CountEntry(h, r, id, e);
      done := done[id := e];
      todo := todo - {id};
    }
    ProgressEnds(h, info, addr, rnd, done, r);
  }

  // ---------------------------------------------------------------- scanning a table

  /** Slots that a scan of the table row by row meets before position `i` of bucket `n`. */
  predicate Before(t: Slot, n: int, i: int) { t.bucket < n || (t.bucket == n && t.pos < i) }

  predicate TriedFine(h: Hashing, info: Infos, table: Table, t: Slot)
    requires t in table
  {
    table[t] in info && info[table[t]].inTried && t == h.TriedSlot(info[table[t]].svc)
  }

  /** The tried entries not met yet; all slots met so far are in order. */
  ghost predicate TriedSoFar(h: Hashing, info: Infos, table: Table, left: set<int>, n: int, i: int) {
    && (forall t :: t in table && Before(t, n, i) ==> TriedFine(h, info, table, t))
    && (forall t :: t in table && Before(t, n, i) ==> table[t] !in left)
    && (forall id :: id in left ==> id in info && info[id].inTried)
    && (forall id :: id in info && info[id].inTried && id !in left ==>
          h.TriedSlot(info[id].svc) in table && table[h.TriedSlot(info[id].svc)] == id
          && Before(h.TriedSlot(info[id].svc), n, i))
  }

  ghost predicate Shape(cells: array2<int>, rows: int) {
    cells.Length0 == rows && cells.Length1 == BUCKET_SIZE
  }

  lemma TriedFullCell(h: Hashing, info: Infos, table: Table, left: set<int>, n: int, i: int)
    requires TriedSoFar(h, info, table, left, n, i) && Slot(n, i) in table
    requires TriedFine(h, info, table, Slot(n, i))
    ensures TriedSoFar(h, info, table, left - {table[Slot(n, i)]}, n, i + 1)
  {
    assert forall t :: Before(t, n, i + 1) ==> Before(t, n, i) || t == Slot(n, i);
  }

  /** When the tried table is right, the id in a slot that is met has not been met before. */
  lemma TriedAccounted(h: Hashing, info: Infos, table: Table, left: set<int>, n: int, i: int)
    requires TriedSoFar(h, info, table, left, n, i) && Slot(n, i) in table && TriedOk(h, info, table)
    ensures table[Slot(n, i)] in left
  {
    var id := table[Slot(n, i)];
    assert id in info && info[id].inTried && h.TriedSlot(info[id].svc) == Slot(n, i);
  }

  lemma TriedEmptyCell(h: Hashing, info: Infos, table: Table, left: set<int>, n: int, i: int)
    requires TriedSoFar(h, info, table, left, n, i) && Slot(n, i) !in table
    ensures TriedSoFar(h, info, table, left, n, i + 1)
  {
    assert forall t :: Before(t, n, i + 1) ==> Before(t, n, i) || t == Slot(n, i);
  }

  lemma TriedNextRow(h: Hashing, info: Infos, table: Table, left: set<int>, n: int)
    requires TriedSoFar(h, info, table, left, n, BUCKET_SIZE)
    requires forall t :: t in table ==> 0 <= t.pos < BUCKET_SIZE
    ensures TriedSoFar(h, info, table, left, n + 1, 0)
  {
    assert forall t :: t in table && Before(t, n + 1, 0) ==> Before(t, n, BUCKET_SIZE);
    assert forall t :: Before(t, n, BUCKET_SIZE) ==> Before(t, n + 1, 0);
  }

  lemma TriedStarts(h: Hashing, info: Infos, table: Table)
    requires forall t :: t in table ==> 0 <= t.bucket && 0 <= t.pos
    ensures TriedSoFar(h, info, table, Ids(info, {}, AsTried), 0, 0)
  {
  }

  /** The second loop: every occupied slot of the tried table must be the right one for a tried entry
      that has not been met yet. */
  method CheckTried(h: Hashing, info: Infos, cells: array2<int>, setTried: set<int>) returns (code: int, left: set<int>)
    requires Shape(cells, TRIED_BUCKETS) && setTried == Ids(info, {}, AsTried)
    ensures code == 0 ==> (left == {} <==> TriedOk(h, info, TableOf(cells)))
    ensures code != 0 ==> !TriedOk(h, info, TableOf(cells))
  {
    hide TriedSoFar, TriedOk;
    ghost var table := TableOf(cells);
    code, left := 0, setTried;
    TriedStarts(h, info, table);
    for n := 0 to TRIED_BUCKETS
      invariant TriedSoFar(h, info, table, left, n, 0)
    {
      for i := 0 to BUCKET_SIZE
        invariant TriedSoFar(h, info, table, left, n, i)
      {
        CellIs(cells, n, i);
        var id := cells[n, i];
        if id != EMPTY_CELL {
          LeftAreTried(h, info, table, left, n, i);
          if id !in left {
            if TriedOk(h, info, table) {
              TriedAccounted(h, info, table, left, n, i);
            }
            return -11, left;
          }
          if h.triedBucket(info[id].svc) != n {
            MisplacedTried(h, info, table, n, i);
            return -17, left;
          }
          if h.position(info[id].svc, false, n) != i {
            MisplacedTried(h, info, table, n, i);
            return -18, left;
          }
          TriedFullCell(h, info, table, left, n, i);
          left := left - {id};
        } else {
          TriedEmptyCell(h, info, table, left, n, i);
        }
      }
      TriedNextRow(h, info, table, left, n);
    }
    TriedScanned(h, info, table, left);
  }

  lemma LeftAreTried(h: Hashing, info: Infos, table: Table, left: set<int>, n: int, i: int)
    requires TriedSoFar(h, info, table, left, n, i)
    ensures forall id :: id in left ==> id in info && info[id].inTried
  {
  }

  lemma MisplacedTried(h: Hashing, info: Infos, table: Table, n: int, i: int)
    requires Slot(n, i) in table && !TriedFine(h, info, table, Slot(n, i))
    ensures !TriedOk(h, info, table)
  {
  }

  lemma TriedScanned(h: Hashing, info: Infos, table: Table, left: set<int>)
    requires TriedSoFar(h, info, table, left, TRIED_BUCKETS, 0)
    requires forall t :: t in table ==> t.bucket < TRIED_BUCKETS
    ensures left == {} <==> TriedOk(h, info, table)
  {
    assert forall t :: t in table ==> Before(t, TRIED_BUCKETS, 0);
    if TriedOk(h, info, table) {
      forall id | id in info && info[id].inTried ensures id !in left {
        assert table[h.TriedSlot(info[id].svc)] == id;
      }
      forall id ensures id !in left { }
      assert left == {};
    }
  }

  predicate NewFine(h: Hashing, info: Infos, table: Table, t: Slot)
    requires t in table
  {
    && table[t] in info && !info[table[t]].inTried
    && 0 <= t.bucket < NEW_BUCKETS && t == h.NewSlot(info[table[t]].svc, t.bucket)
  }

  /** The buckets that hold an entry in a slot met before position `i` of bucket `n`. */
  ghost function HeldBelow(h: Hashing, table: Table, id: int, svc: Service, n: int, i: int): set<int> {
    set b | 0 <= b < NEW_BUCKETS && HeldAt(h, table, id, svc, b) && Before(h.NewSlot(svc, b), n, i)
  }

  function Left(left: map<int, int>, id: int): int { if id in left then left[id] else 0 }

  /** `left` has what remains of each reference count; all slots met so far are in order. */
  ghost predicate NewSoFar(h: Hashing, info: Infos, table: Table, left: map<int, int>, n: int, i: int) {
    && (forall t :: t in table && Before(t, n, i) ==> NewFine(h, info, table, t))
    && (forall id :: id in left ==> id in info && !info[id].inTried && left[id] > 0)
    && (forall id :: id in info && !info[id].inTried ==>
          Left(left, id) == info[id].refCount - |HeldBelow(h, table, id, info[id].svc, n, i)|)
  }

  /** Only the slot just met can change how often an address was met. */
  lemma HeldBelowStep(h: Hashing, table: Table, id: int, svc: Service, n: int, i: int)
    requires 0 <= n < NEW_BUCKETS
    ensures |HeldBelow(h, table, id, svc, n, i + 1)| == |HeldBelow(h, table, id, svc, n, i)|
      + One(h.NewSlot(svc, n) == Slot(n, i) && Slot(n, i) in table && table[Slot(n, i)] == id)
  {
    SizeStep(HeldBelow(h, table, id, svc, n, i), HeldBelow(h, table, id, svc, n, i + 1), n);
  }

  lemma NewStarts(h: Hashing, info: Infos, table: Table)
    requires forall t :: t in table ==> t.bucket >= 0 && t.pos >= 0
    requires forall id :: id in info && !info[id].inTried ==> info[id].refCount > 0
    ensures NewSoFar(h, info, table, RefCounts(info), 0, 0)
  {
    forall id | id in info && !info[id].inTried
      ensures Left(RefCounts(info), id) == info[id].refCount - |HeldBelow(h, table, id, info[id].svc, 0, 0)|
    {
      assert HeldBelow(h, table, id, info[id].svc, 0, 0) == {};
    }
  }

  lemma NewNextRow(h: Hashing, info: Infos, table: Table, left: map<int, int>, n: int)
    requires NewSoFar(h, info, table, left, n, BUCKET_SIZE)
    requires forall t :: t in table ==> 0 <= t.pos < BUCKET_SIZE
    ensures NewSoFar(h, info, table, left, n + 1, 0)
  {
    forall t | t in table && Before(t, n + 1, 0) ensures NewFine(h, info, table, t) {
      assert Before(t, n, BUCKET_SIZE);
    }
    forall id | id in info && !info[id].inTried
      ensures Left(left, id) == info[id].refCount - |HeldBelow(h, table, id, info[id].svc, n + 1, 0)|
    {
      assert HeldBelow(h, table, id, info[id].svc, n + 1, 0) == HeldBelow(h, table, id, info[id].svc, n, BUCKET_SIZE);
    }
  }

  lemma NewEmptyCell(h: Hashing, info: Infos, table: Table, left: map<int, int>, n: int, i: int)
    requires NewSoFar(h, info, table, left, n, i) && 0 <= n < NEW_BUCKETS && Slot(n, i) !in table
    ensures NewSoFar(h, info, table, left, n, i + 1)
  {
    forall t | t in table && Before(t, n, i + 1) ensures NewFine(h, info, table, t) {
      assert t != Slot(n, i) ==> Before(t, n, i);
    }
    forall id | id in info && !info[id].inTried
      ensures Left(left, id) == info[id].refCount - |HeldBelow(h, table, id, info[id].svc, n, i + 1)|
    {
      HeldBelowStep(h, table, id, info[id].svc, n, i);
    }
  }

  function TakeOne(left: map<int, int>, id: int): map<int, int>
    requires id in left
  {
    if left[id] == 1 then left - {id} else left[id := left[id] - 1]
  }

  lemma NewFullCell(h: Hashing, info: Infos, table: Table, left: map<int, int>, n: int, i: int)
    requires NewSoFar(h, info, table, left, n, i) && 0 <= n < NEW_BUCKETS && Slot(n, i) in table
    requires table[Slot(n, i)] in left && table[Slot(n, i)] in info
    requires h.position(info[table[Slot(n, i)]].svc, true, n) == i
    ensures NewSoFar(h, info, table, TakeOne(left, table[Slot(n, i)]), n, i + 1)
  {
    forall t | t in table && Before(t, n, i + 1) ensures NewFine(h, info, table, t) {
      assert t != Slot(n, i) ==> Before(t, n, i);
    }
    forall id | id in info && !info[id].inTried
      ensures Left(TakeOne(left, table[Slot(n, i)]), id)
           == info[id].refCount - |HeldBelow(h, table, id, info[id].svc, n, i + 1)|
    {
      HeldBelowStep(h, table, id, info[id].svc, n, i);
    }
  }

  /** When all slots and counts are right, a slot that is met still has its reference to account for. */
  lemma NewAccounted(h: Hashing, info: Infos, table: Table, left: map<int, int>, n: int, i: int)
    requires NewSoFar(h, info, table, left, n, i) && 0 <= n < NEW_BUCKETS && Slot(n, i) in table
    requires NewSlotsOk(h, info, table) && RefsExact(h, info, table)
    ensures table[Slot(n, i)] in left
  {
    var id := table[Slot(n, i)];
    HeldBelowStep(h, table, id, info[id].svc, n, i);
    SubsetOfHeld(h, table, id, info[id].svc, n, i + 1);
    assert info[id].refCount == |Held(h, table, id, info[id].svc)|;
  }

  lemma SubsetOfHeld(h: Hashing, table: Table, id: int, svc: Service, n: int, i: int)
    ensures |HeldBelow(h, table, id, svc, n, i)| <= |Held(h, table, id, svc)|
  {
    var a, b := HeldBelow(h, table, id, svc, n, i), Held(h, table, id, svc);
    assert a <= b && b == a + (b - a);
  }

  lemma NewScanned(h: Hashing, info: Infos, table: Table, left: map<int, int>)
    requires NewSoFar(h, info, table, left, NEW_BUCKETS, 0)
    requires forall t :: t in table ==> t.bucket < NEW_BUCKETS
    ensures left == map[] <==> NewSlotsOk(h, info, table) && RefsExact(h, info, table)
  {
    assert forall t :: t in table ==> Before(t, NEW_BUCKETS, 0);
    forall id | id in info && !info[id].inTried
      ensures Left(left, id) == info[id].refCount - |Held(h, table, id, info[id].svc)|
    {
      assert HeldBelow(h, table, id, info[id].svc, NEW_BUCKETS, 0) == Held(h, table, id, info[id].svc);
    }
    if RefsExact(h, info, table) {
      forall id ensures id !in left {
        assert id in left ==> Left(left, id) == 0;
      }
      assert left.Keys == {};
    }
  }

  /** The third loop: every occupied slot of the new table must be the right one for a new entry that
      still has a reference to account for. */
  method CheckNew(h: Hashing, info: Infos, cells: array2<int>, mapNew: map<int, int>) returns (code: int,
      left: map<int, int>)
    requires Shape(cells, NEW_BUCKETS) && mapNew == RefCounts(info)
    requires forall id :: id in info && !info[id].inTried ==> info[id].refCount > 0
    ensures code == 0 ==> (left == map[] <==> NewSlotsOk(h, info, TableOf(cells)) && RefsExact(h, info, TableOf(cells)))
    ensures code != 0 ==> !(NewSlotsOk(h, info, TableOf(cells)) && RefsExact(h, info, TableOf(cells)))
  {
    hide RefsExact;
    ghost var table := TableOf(cells);
    code, left := 0, mapNew;
    NewStarts(h, info, table);
    for n := 0 to NEW_BUCKETS
      invariant NewSoFar(h, info, table, left, n, 0)
    {
      for i := 0 to BUCKET_SIZE
        invariant NewSoFar(h, info, table, left, n, i)
      {
        CellIs(cells, n, i);
        var id := cells[n, i];
        if id != EMPTY_CELL {
          if id !in left {
            if NewSlotsOk(h, info, table) && RefsExact(h, info, table) {
              NewAccounted(h, info, table, left, n, i);
            }
            return -12, left;
          }
          if h.position(info[id].svc, true, n) != i { return -19, left; }
          NewFullCell(h, info, table, left, n, i);
          left := TakeOne(left, id);
        } else {
          NewEmptyCell(h, info, table, left, n, i);
        }
      }
      NewNextRow(h, info, table, left, n);
    }
    NewScanned(h, info, table, left);
  }

  lemma VerdictsMatch(s: State)
    ensures AllPass(s.info, s.addr, s.rnd) <==> forall id :: id in s.info ==> EntryPasses(s, id)
  {
    forall id | id in s.info ensures EntryCode(s.info[id], id, s.addr, s.rnd) == 0 <==> EntryPasses(s, id) { }
  }

  /** Consistency, by the verdicts of the check. */
  lemma ConsistentParts(h: Hashing, s: State)
    ensures Consistent(h, s) <==>
      && |s.rnd| == s.nTried + s.nNew && AllPass(s.info, s.addr, s.rnd)
      && s.nTried == |Ids(s.info, {}, AsTried)| && s.nNew == |Ids(s.info, {}, AsNew)|
      && TriedOk(h, s.info, s.triedTable)
      && NewSlotsOk(h, s.info, s.newTable) && RefsExact(h, s.info, s.newTable)
      && !h.keyIsNull && CountersPass(h, s)
  {
    hide AllPass, EntryPasses, TriedOk, NewSlotsOk, RefsExact, CountersPass, Ids;
    VerdictsMatch(s);
  }

  lemma CountersMatch(h: Hashing, s: State, r: Recount)
    requires IsRecount(h, s.info, r)
    ensures CountersPass(h, s)
      <==> |r.local| <= |s.counts| && forall net :: net in s.counts ==> s.counts[net] == CountFor(r.local, net)
  {
    assert |r.local| == |r.local.Keys|;
    assert forall net :: CountFor(r.local, net) == TrueCounts(h, s.info, {}, net);
  }

  /** The last loop: compares the counters, network by network. */
  method CheckCounts(counts: map<Network, Counts>, local: map<Network, Counts>) returns (code: int)
    ensures code == 0
      <==> |local| <= |counts| && forall net :: net in counts ==> counts[net] == CountFor(local, net)
  {
    if |counts| < |local| { return -20; }
    var todo := counts;
    while todo != map[]
      invariant forall net :: net in todo ==> net in counts && todo[net] == counts[net]
      invariant forall net :: net in counts && net !in todo ==> counts[net] == CountFor(local, net)
      decreases |todo|
    {
      assert todo.Items != {};
      var entry :| entry in todo.Items;
      var (net, count) := entry;
      if CountFor(local, net) != count { return -21; }
      todo := todo - {net};
    }
    code := 0;
  }
}
