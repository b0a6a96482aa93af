/** Writing the address manager to a stream of records and reading it back.  The key of the hashes is a
    record; `hashing` gives the reader's hash functions for a key.  Containers without an order of their
    own are walked in an order that is an input. */
module AddrManStream {
  import opened Basics
  import opened AddrManState
  import opened AddrManInvariant
  import opened AddrManCheck

  const FILE_FORMAT := 4
  const V1_DETERMINISTIC := 1
  const V2_ASMAP := 2
  const LOWEST_COMPATIBLE := 4
  const INCOMPATIBILITY_BASE := 32

  /** The fields of an entry that are written. */
  datatype Saved = Saved(svc: Service, time: int, services: bv64, source: NetAddr, lastSuccess: int, attempts: int)

  datatype Stream = Stream(
    format: nat, compat: nat, key: nat, nNew: int, nTried: int, bucketCount: int,
    newEntries: seq<Saved>, triedEntries: seq<Saved>, buckets: seq<seq<int>>, asmap: nat)

  datatype Outcome = Loaded(state: State) | Corrupt | UnsupportedVersion | EndOfData | Inconsistent(state: State)

  function Save(e: Info): Saved { Saved(e.svc, e.time, e.services, e.source, e.lastSuccess, e.attempts) }

  function Load(v: Saved, pos: int): Info {
    Info(v.svc, v.time, v.services, v.source, 0, 0, v.lastSuccess, v.attempts, 0, false, pos)
  }

  /** The number of buckets is written with bit 30 flipped, so that the oldest readers refuse it. */
  function FlipBit30(n: int): int {
    if n / 0x4000_0000 % 2 == 1 then n - 0x4000_0000 else n + 0x4000_0000
  }

  // ---------------------------------------------------------------- writing

  /** The ids in `chosen`, in the order of the walk. */
  function Chosen(order: seq<int>, chosen: set<int>): seq<int> {
    if order == [] then []
    else
      var last := order[|order| - 1];
      Chosen(order[..|order| - 1], chosen) + if last in chosen then [last] else []
  }

  function Referenced(info: Infos): set<int> { set id | id in info && info[id].refCount != 0 }

  function InTried(info: Infos): set<int> { set id | id in info && info[id].inTried }

  predicate Within(ids: seq<int>, info: Infos) { forall i :: 0 <= i < |ids| ==> ids[i] in info }

  function SaveAll(info: Infos, ids: seq<int>): (entries: seq<Saved>)
    requires Within(ids, info)
    ensures |entries| == |ids|
  {
    seq(|ids|, i requires 0 <= i < |ids| => Save(info[ids[i]]))
  }

  /** The index of an id among those written; their number if it is not among them. */
  function IndexOf(ids: seq<int>, id: int): (i: nat)
    ensures i <= |ids| && (i < |ids| ==> ids[i] == id)
  {
    if ids == [] || ids[0] == id then 0 else 1 + IndexOf(ids[1..], id)
  }

  /** The occupied slots of one bucket from a position on. */
  function SlotsFrom(table: Table, b: int, i: nat): seq<Slot>
    requires i <= BUCKET_SIZE
    decreases BUCKET_SIZE - i
  {
    if i == BUCKET_SIZE then []
    else (if Slot(b, i) in table then [Slot(b, i)] else []) + SlotsFrom(table, b, i + 1)
  }

  function Indexes(table: Table, slots: seq<Slot>, ids: seq<int>): seq<int>
    requires forall k :: 0 <= k < |slots| ==> slots[k] in table
  {
    seq(|slots|, k requires 0 <= k < |slots| => IndexOf(ids, table[slots[k]]))
  }

  lemma {:induction false} SlotsAreOccupied(table: Table, b: int, i: nat)
    requires i <= BUCKET_SIZE
    ensures forall k :: 0 <= k < |SlotsFrom(table, b, i)| ==>
      var t := SlotsFrom(table, b, i)[k]; t in table && t.bucket == b && i <= t.pos < BUCKET_SIZE
    decreases BUCKET_SIZE - i
  {
    if i < BUCKET_SIZE {
      SlotsAreOccupied(table, b, i + 1);
    }
  }

  function BucketOf(table: Table, b: int, ids: seq<int>): seq<int> {
    SlotsAreOccupied(table, b, 0);
    Indexes(table, SlotsFrom(table, b, 0), ids)
  }

  function Buckets(table: Table, ids: seq<int>): seq<seq<int>> {
    seq(NEW_BUCKETS, b => BucketOf(table, b, ids))
  }

  ghost predicate Distinct(ids: seq<int>) { forall i, j :: 0 <= i < j < |ids| ==> ids[i] != ids[j] }

  ghost predicate IsOrder(order: seq<int>, info: Infos) {
    Distinct(order) && Within(order, info) && forall id :: id in info ==> id in order
  }

  lemma {:induction false} ChosenAreFrom(order: seq<int>, chosen: set<int>)
    ensures forall i :: 0 <= i < |Chosen(order, chosen)| ==>
      Chosen(order, chosen)[i] in order && Chosen(order, chosen)[i] in chosen
  {
    if order != [] {
      ChosenAreFrom(order[..|order| - 1], chosen);
    }
  }

  function NewIds(s: State, order: seq<int>): (ids: seq<int>)
    ensures Within(ids, s.info)
  {
    ChosenAreFrom(order, Referenced(s.info));
    Chosen(order, Referenced(s.info))
  }

  function TriedIds(s: State, order: seq<int>): (ids: seq<int>)
    ensures Within(ids, s.info)
  {
    ChosenAreFrom(order, InTried(s.info));
    Chosen(order, InTried(s.info))
  }

  function Serialize(s: State, order: seq<int>, key: nat, asmap: nat): Stream {
    Stream(FILE_FORMAT, INCOMPATIBILITY_BASE + LOWEST_COMPATIBLE, key, s.nNew, s.nTried, FlipBit30(NEW_BUCKETS),
           SaveAll(s.info, NewIds(s, order)), SaveAll(s.info, TriedIds(s, order)),
           Buckets(s.newTable, NewIds(s, order)), asmap)
  }

  // ---------------------------------------------------------------- reading

  /** Enters one more address, without any reference. */
  function LoadNew(h: Hashing, s: State, v: Saved): State {
    var id := s.idCount;
    s.(info := s.info[id := Load(v, |s.rnd|)], addr := s.addr[v.svc := id], rnd := s.rnd + [id],
       counts := Bump(s.counts, h.network(v.svc), 1, 0), idCount := id + 1)
  }

  function LoadAllNew(h: Hashing, s: State, entries: seq<Saved>): State {
    if entries == [] then s
    else LoadNew(h, LoadAllNew(h, s, entries[..|entries| - 1]), entries[|entries| - 1])
  }

  lemma LoadNoNew(h: Hashing, s: State, entries: seq<Saved>)
    ensures LoadAllNew(h, s, entries[..0]) == s
  {
  }

  lemma LoadOneNew(h: Hashing, s: State, entries: seq<Saved>, n: nat)
    requires n < |entries|
    ensures LoadAllNew(h, s, entries[..n + 1]) == LoadNew(h, LoadAllNew(h, s, entries[..n]), entries[n])
  {
    hide LoadNew;
    assert entries[..n + 1][..n] == entries[..n];
  }

  /** Enters a tried address; an invalid one, or one whose slot is taken, is lost. */
  function LoadTried(h: Hashing, s: State, v: Saved): State {
    var id, slot := s.idCount, h.TriedSlot(v.svc);
    if h.isValid(v.svc) && slot !in s.triedTable then
      s.(info := s.info[id := Load(v, |s.rnd|).(inTried := true)], addr := s.addr[v.svc := id], rnd := s.rnd + [id],
         triedTable := s.triedTable[slot := id],
         counts := Bump(s.counts, h.network(v.svc), 0, 1), idCount := id + 1)
    else s.(nTried := s.nTried - 1)
  }

  /** An address that is entered leaves the number of tried addresses alone. */
  lemma LoadTriedCounts(h: Hashing, s: State, v: Saved, n: int)
    requires h.isValid(v.svc) && h.TriedSlot(v.svc) !in s.triedTable
    ensures LoadTried(h, s.(nTried := n), v) == LoadTried(h, s, v).(nTried := n)
  {
    hide Bump;
  }

  function LoadAllTried(h: Hashing, s: State, entries: seq<Saved>): State {
    if entries == [] then s
    else LoadTried(h, LoadAllTried(h, s, entries[..|entries| - 1]), entries[|entries| - 1])
  }

  lemma LoadNoTried(h: Hashing, s: State, entries: seq<Saved>)
    ensures LoadAllTried(h, s, entries[..0]) == s
  {
  }

  lemma LoadOneTried(h: Hashing, s: State, entries: seq<Saved>, n: nat)
    requires n < |entries|
    ensures LoadAllTried(h, s, entries[..n + 1]) == LoadTried(h, LoadAllTried(h, s, entries[..n]), entries[n])
  {
    hide LoadTried;
    assert entries[..n + 1][..n] == entries[..n];
  }

  lemma LoadTriedEntered(h: Hashing, s: State, v: Saved, e: Info)
    requires h.isValid(v.svc) && h.TriedSlot(v.svc) !in s.triedTable
    requires e == Load(v, |s.rnd|).(inTried := true)
    ensures LoadTried(h, s, v)
      == s.(info := s.info[s.idCount := e], addr := s.addr[v.svc := s.idCount], rnd := s.rnd + [s.idCount],
            triedTable := s.triedTable[h.TriedSlot(v.svc) := s.idCount],
            counts := Bump(s.counts, h.network(v.svc), 0, 1), idCount := s.idCount + 1)
  {
    hide Load, Bump;
  }

  lemma LoadTriedLost(h: Hashing, s: State, v: Saved)
    requires !h.isValid(v.svc) || h.TriedSlot(v.svc) in s.triedTable
    ensures LoadTried(h, s, v) == s.(nTried := s.nTried - 1)
  {
  }

  datatype BucketEntry = BucketEntry(bucket: nat, index: int)

  /** The entries of one bucket that name an address from the new table. */
  function EntriesOf(indexes: seq<int>, b: nat, nNew: int): (entries: seq<BucketEntry>)
    ensures forall k :: 0 <= k < |entries| ==> 0 <= entries[k].index < nNew
  {
    if indexes == [] then []
    else
      var last := indexes[|indexes| - 1];
      EntriesOf(indexes[..|indexes| - 1], b, nNew) + if 0 <= last < nNew then [BucketEntry(b, last)] else []
  }

  /** The entries of the first `n` buckets. */
  function AllEntries(buckets: seq<seq<int>>, n: nat, nNew: int): (entries: seq<BucketEntry>)
    requires n <= |buckets|
    ensures forall k :: 0 <= k < |entries| ==> 0 <= entries[k].index < nNew
  {
    if n == 0 then [] else AllEntries(buckets, n - 1, nNew) + EntriesOf(buckets[n - 1], n - 1, nNew)
  }

  /** Gives an entry a reference: where it was, if the buckets are restored and the slot is free, or
      else in its home slot, if that is free. */
  function PlaceEntry(h: Hashing, s: State, restore: bool, entry: BucketEntry): (t: State)
    requires entry.index in s.info
    ensures t.info.Keys == s.info.Keys
  {
    var e := s.info[entry.index];
    if !h.isValid(e.svc) || e.refCount >= NEW_BUCKETS_PER_ADDRESS then s
    else
      var slot, home := h.NewSlot(e.svc, entry.bucket), h.HomeSlot(e.svc, e.source);
      if restore && slot !in s.newTable then PlaceNew(s, entry.index, slot)
      else if home !in s.newTable then PlaceNew(s, entry.index, home)
      else s
  }

  predicate Indexed(entries: seq<BucketEntry>, info: Infos) {
    forall k :: 0 <= k < |entries| ==> entries[k].index in info
  }

  function PlaceAll(h: Hashing, s: State, restore: bool, entries: seq<BucketEntry>): (t: State)
    requires Indexed(entries, s.info)
    ensures t.info.Keys == s.info.Keys
  {
    if entries == [] then s
    else PlaceEntry(h, PlaceAll(h, s, restore, entries[..|entries| - 1]), restore, entries[|entries| - 1])
  }

  /** What is true of every state while it is read, whatever the stream says. */
  ghost predicate Readable(s: State) {
    Positions(s.info, s.rnd) && s.idCount >= 0 && IdsBelow(s.info, s.idCount)
  }

  /** The ids are those below the next one. */
  ghost predicate Dense(s: State) { Readable(s) && forall id :: id in s.info <==> 0 <= id < s.idCount }

  lemma AppendKeepsReadable(s: State, t: State, e: Info)
    requires Readable(s) && e.randomPos == |s.rnd|
    requires t.info == s.info[s.idCount := e] && t.rnd == s.rnd + [s.idCount] && t.idCount == s.idCount + 1
    ensures Readable(t) && (Dense(s) ==> Dense(t))
  {
  }

  lemma SwapKeepsPositions(s: State, i: int, j: int)
    requires Positions(s.info, s.rnd) && 0 <= i < |s.rnd| && 0 <= j < |s.rnd|
    ensures CanSwap(s, i, j)
    ensures var t := SwapRandom(s, i, j); Positions(t.info, t.rnd) && t.info.Keys == s.info.Keys
    ensures var t := SwapRandom(s, i, j); |t.rnd| == |s.rnd| && t.rnd[j] == s.rnd[i] && t.idCount == s.idCount
  {
    if i != j {
      var t := SwapRandom(s, i, j);
      assert s.rnd[i] != s.rnd[j];
      PositionsSwapped(s.info, t.info, s.rnd, i, j);
    }
  }

  lemma ForgetKeepsPositions(info: Infos, rnd: seq<int>, id: int)
    requires Positions(info, rnd) && |rnd| > 0 && rnd[|rnd| - 1] == id
    ensures Positions(info - {id}, rnd[..|rnd| - 1])
  {
  }

  lemma OwnPosition(info: Infos, rnd: seq<int>, id: int)
    requires Positions(info, rnd) && id in info
    ensures 0 <= info[id].randomPos < |rnd| && rnd[info[id].randomPos] == id
  {
  }

  lemma DeleteKeepsReadable(h: Hashing, s: State, id: int)
    requires Readable(s) && id in s.info
    ensures CanDelete(s, id) && Readable(Delete(h, s, id))
  {
    hide SwapRandom, CanSwap, Positions;
    var last, at := |s.rnd| - 1, s.info[id].randomPos;
    OwnPosition(s.info, s.rnd, id);
    SwapKeepsPositions(s, at, last);
    var t := SwapRandom(s, at, last);
    ForgetKeepsPositions(t.info, t.rnd, id);
  }

  predicate Unused(info: Infos, id: int) { id in info && !info[id].inTried && info[id].refCount == 0 }

  /** Deletes the entries that got neither a reference nor a tried slot. */
  ghost function Prune(h: Hashing, s: State, order: seq<int>): (t: State)
    requires Readable(s)
    ensures Readable(t)
  {
    if order == [] then s
    else
      var t, id := Prune(h, s, order[..|order| - 1]), order[|order| - 1];
      if Unused(t.info, id) then
        DeleteKeepsReadable(h, t, id);
        Delete(h, t, id)
      else t
  }

  lemma {:induction false} ReadNewKeepsReadable(h: Hashing, s: State, entries: seq<Saved>)
    requires Dense(s)
    ensures var t := LoadAllNew(h, s, entries); Dense(t) && t.idCount == s.idCount + |entries|
  {
    if entries != [] {
      ReadNewKeepsReadable(h, s, entries[..|entries| - 1]);
      var t := LoadAllNew(h, s, entries[..|entries| - 1]);
      AppendKeepsReadable(t, LoadAllNew(h, s, entries), Load(entries[|entries| - 1], |t.rnd|));
    }
  }

  lemma {:induction false} ReadTriedKeepsReadable(h: Hashing, s: State, entries: seq<Saved>)
    requires Dense(s)
    ensures var t := LoadAllTried(h, s, entries); Dense(t) && t.idCount >= s.idCount
  {
    if entries != [] {
      ReadTriedKeepsReadable(h, s, entries[..|entries| - 1]);
      var t := LoadAllTried(h, s, entries[..|entries| - 1]);
      var e := Load(entries[|entries| - 1], |t.rnd|).(inTried := true);
      if LoadAllTried(h, s, entries).idCount > t.idCount {
        AppendKeepsReadable(t, LoadAllTried(h, s, entries), e);
      }
    }
  }

  lemma PlaceOneKeepsReadable(h: Hashing, s: State, restore: bool, entry: BucketEntry)
    requires Readable(s) && entry.index in s.info
    ensures Readable(PlaceEntry(h, s, restore, entry))
  {
    hide Readable, PlaceNew;
    var e := s.info[entry.index];
    PlaceNewKeepsReadable(s, entry.index, h.NewSlot(e.svc, entry.bucket));
    PlaceNewKeepsReadable(s, entry.index, h.HomeSlot(e.svc, e.source));
  }

  lemma PlaceNewKeepsReadable(s: State, id: int, slot: Slot)
    requires Readable(s) && id in s.info
    ensures Readable(PlaceNew(s, id, slot))
  {
  }

  lemma {:induction false} PlaceKeepsReadable(h: Hashing, s: State, restore: bool, entries: seq<BucketEntry>)
    requires Readable(s) && Indexed(entries, s.info)
    ensures Readable(PlaceAll(h, s, restore, entries))
  {
    hide PlaceEntry, Readable;
    if entries != [] {
      var n := |entries| - 1;
      PlaceKeepsReadable(h, s, restore, entries[..n]);
      PlaceOneKeepsReadable(h, PlaceAll(h, s, restore, entries[..n]), restore, entries[n]);
    }
  }

  /** The state when all addresses are read, before they get their references. */
  ghost function Addresses(h: Hashing, m: Stream): (s: State)
    requires m.nNew >= 0 && |m.newEntries| == m.nNew
    ensures Readable(s) && forall i :: 0 <= i < m.nNew ==> i in s.info
  {
    var start := EMPTY.(nNew := m.nNew, nTried := m.nTried);
    ReadNewKeepsReadable(h, start, m.newEntries);
    ReadTriedKeepsReadable(h, LoadAllNew(h, start, m.newEntries), m.triedEntries);
    LoadAllTried(h, LoadAllNew(h, start, m.newEntries), m.triedEntries)
  }

  lemma AddressesFacts(h: Hashing, m: Stream)
    requires m.nNew >= 0 && |m.newEntries| == m.nNew
    ensures Readable(Addresses(h, m)) && -1 !in Addresses(h, m).info
  {
  }

  lemma {:induction false} BucketsBelow(buckets: seq<seq<int>>, n: nat, nNew: int)
    requires n <= |buckets|
    ensures forall k :: 0 <= k < |AllEntries(buckets, n, nNew)| ==> AllEntries(buckets, n, nNew)[k].bucket < n
  {
    if n > 0 {
      BucketsBelow(buckets, n - 1, nNew);
      OneBucket(buckets[n - 1], n - 1, nNew);
    }
  }

  lemma {:induction false} OneBucket(indexes: seq<int>, b: nat, nNew: int)
    ensures forall k :: 0 <= k < |EntriesOf(indexes, b, nNew)| ==> EntriesOf(indexes, b, nNew)[k].bucket == b
  {
    if indexes != [] {
      OneBucket(indexes[..|indexes| - 1], b, nNew);
    }
  }

  /** The bucket entries name addresses that were read, in buckets that were written. */
  lemma EntriesFacts(h: Hashing, m: Stream, n: nat)
    requires m.nNew >= 0 && |m.newEntries| == m.nNew && n <= |m.buckets|
    ensures Indexed(AllEntries(m.buckets, n, m.nNew), Addresses(h, m).info)
    ensures forall k :: 0 <= k < |AllEntries(m.buckets, n, m.nNew)| ==> AllEntries(m.buckets, n, m.nNew)[k].bucket < n
  {
    hide Addresses, AllEntries;
    BucketsBelow(m.buckets, n, m.nNew);
  }

  function BucketCount(m: Stream): int {
    if m.format >= V1_DETERMINISTIC then FlipBit30(m.bucketCount) else m.bucketCount
  }

  predicate Restorable(m: Stream, asmap: nat) {
    BucketCount(m) == NEW_BUCKETS && (if m.format >= V2_ASMAP then m.asmap else 0) == asmap
  }

  /** The stream has as many records as it announces. */
  predicate Complete(m: Stream) {
    |m.newEntries| == m.nNew && |m.triedEntries| == m.nTried && |m.buckets| == Max(0, BucketCount(m))
  }

  predicate SizesInRange(m: Stream) {
    0 <= m.nNew <= NEW_BUCKETS * BUCKET_SIZE && 0 <= m.nTried <= TRIED_BUCKETS * BUCKET_SIZE
  }

  /** The state when all records are read: addresses, their references, and no entry without any. */
  ghost function Records(h: Hashing, m: Stream, asmap: nat, order: seq<int>): State
    requires m.nNew >= 0 && |m.newEntries| == m.nNew
  {
    var s, entries := Addresses(h, m), AllEntries(m.buckets, |m.buckets|, m.nNew);
    PlaceKeepsReadable(h, s, Restorable(m, asmap), entries);
    Prune(h, PlaceAll(h, s, Restorable(m, asmap), entries), order)
  }

  /** Reads a stream with the hash functions for its key. */
  ghost function Read(h: Hashing, m: Stream, asmap: nat, order: seq<int>): Outcome {
    if m.compat < INCOMPATIBILITY_BASE then Corrupt
    else if m.compat - INCOMPATIBILITY_BASE > FILE_FORMAT then UnsupportedVersion
    else if !SizesInRange(m) then Corrupt
    else if !Complete(m) then EndOfData
    else
      var t := Records(h, m, asmap, order);
      if Consistent(h, t) then Loaded(t) else Inconsistent(t)
  }

  ghost function Unserialize(hashing: nat -> Hashing, m: Stream, asmap: nat, order: seq<int>): Outcome {
    Read(hashing(m.key), m, asmap, order)
  }
}
