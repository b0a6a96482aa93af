/** Reading streams that were written with other buckets, by older versions, or by anybody: which addresses
    keep a place when places are scarce. */
module AddrManRebucket {
  import opened Basics
  import opened AddrManState
  import opened AddrManInvariant
  import opened AddrManCheck
  import opened AddrManStream

  // ---------------------------------------------------------------- how reading ends

  /** A stream is loaded exactly if the version it demands is between the first and the current one, its
      numbers are in range, all records are there, and the check passes for what was read. */
  lemma OutcomeMeans(h: Hashing, m: Stream, asmap: nat, order: seq<int>)
    ensures var outcome := Read(h, m, asmap, order);
      && (outcome == UnsupportedVersion <==> m.compat > 36)
      && (outcome == Corrupt <==>
            m.compat < 32 || (m.compat <= 36 && !(0 <= m.nNew <= 65536 && 0 <= m.nTried <= 16384)))
      && (outcome == EndOfData <==> 32 <= m.compat <= 36 && SizesInRange(m) && !Complete(m))
      && (outcome.Loaded? <==>
            && 32 <= m.compat <= 36 && SizesInRange(m) && Complete(m)
            && Consistent(h, Records(h, m, asmap, order)))
      && (outcome.Loaded? || outcome.Inconsistent? ==> outcome.state == Records(h, m, asmap, order))
  {
    hide Records, Consistent, Complete;
  }

  /** The stream as today's version would have written it. */
  function Modern(m: Stream): Stream {
    m.(format := 4, bucketCount := if m.format < 1 then FlipBit30(m.bucketCount) else m.bucketCount,
       asmap := if m.format < 2 then 0 else m.asmap)
  }

  lemma FlipTwice(n: int)
    ensures FlipBit30(FlipBit30(n)) == n
  {
    var q := n / 0x4000_0000;
    if q % 2 == 1 {
      assert (n - 0x4000_0000) / 0x4000_0000 == q - 1;
    } else {
      assert (n + 0x4000_0000) / 0x4000_0000 == q + 1;
    }
  }

  /** Formats differ in two points only: the first one has the number of buckets as it is, and only from
      the third on there is a checksum of the map of networks, without which it counts as zero. */
  lemma OldFormats(h: Hashing, m: Stream, asmap: nat, order: seq<int>)
    ensures Read(h, m, asmap, order) == Read(h, Modern(m), asmap, order)
  {
    FlipTwice(m.bucketCount);
    var n := Modern(m);
    hide FlipBit30;
    assert BucketCount(n) == BucketCount(m) && Restorable(n, asmap) == Restorable(m, asmap);
    hide BucketCount, Restorable, Consistent;
    assert Complete(n) == Complete(m);
    if m.nNew >= 0 && |m.newEntries| == m.nNew {
      assert Addresses(h, n) == Addresses(h, m);
      hide Addresses, AllEntries, Prune, PlaceAll;
      assert Records(h, n, asmap, order) == Records(h, m, asmap, order);
    }
    hide Records;
  }

  /** What is written is in the current format, which readers from the fourth format on understand, and names
      1024 buckets in a way that the oldest readers take for too many. */
  lemma WrittenAs(s: State, order: seq<int>, key: nat, asmap: nat)
    ensures var m := Serialize(s, order, key, asmap);
      && m.format == 4 && m.compat == 32 + 4 && m.bucketCount == 1024 + 0x4000_0000
      && BucketCount(m) == 1024 && m == Modern(m) && m.key == key && m.asmap == asmap
  {
    hide SaveAll, Buckets, NewIds, TriedIds;
    FlipTwice(NEW_BUCKETS);
    assert FlipBit30(1024) == 1024 + 0x4000_0000;
  }

  // ---------------------------------------------------------------- tried addresses

  predicate Wants(h: Hashing, v: Saved, slot: Slot) { h.isValid(v.svc) && h.TriedSlot(v.svc) == slot }

  /** The n-th address is the first valid one for the slot. */
  ghost predicate FirstTried(h: Hashing, entries: seq<Saved>, n: nat, slot: Slot) {
    n < |entries| && Wants(h, entries[n], slot) && forall j :: 0 <= j < n ==> !Wants(h, entries[j], slot)
  }

  /** The entry is what was saved, tried and without attempts. */
  predicate SavedAs(e: Info, v: Saved) {
    Save(e) == v && e.inTried && e.refCount == 0 && e.lastTry == 0 && e.lastCountAttempt == 0
  }

  /** The slot holds the first address that is valid for it. */
  ghost predicate FirstKept(h: Hashing, info: Infos, tried: Table, entries: seq<Saved>, slot: Slot) {
    slot in tried && tried[slot] in info
    && exists n: nat :: FirstTried(h, entries, n, slot) && SavedAs(info[tried[slot]], entries[n])
  }

  ghost predicate TriedRead(h: Hashing, s: State, t: State, entries: seq<Saved>) {
    && (forall slot :: slot in t.triedTable ==>
          FirstKept(h, t.info, t.triedTable, entries, slot) && t.triedTable[slot] < t.idCount)
    && (forall n :: 0 <= n < |entries| && h.isValid(entries[n].svc) ==>
          h.TriedSlot(entries[n].svc) in t.triedTable)
    && t.nTried == s.nTried - |entries| + |t.triedTable|
  }

  lemma StillFirst(h: Hashing, info: Infos, infoT: Infos, tried: Table, triedT: Table, entries: seq<Saved>, v: Saved,
                   slot: Slot)
    requires FirstKept(h, info, tried, entries, slot)
    requires slot in triedT && triedT[slot] == tried[slot] && tried[slot] in infoT
      && infoT[tried[slot]] == info[tried[slot]]
    ensures FirstKept(h, infoT, triedT, entries + [v], slot)
  {
    var n: nat :| FirstTried(h, entries, n, slot) && SavedAs(info[tried[slot]], entries[n]);
    var more := entries + [v];
    assert more[n] == entries[n] && forall j :: 0 <= j < n ==> more[j] == entries[j];
    assert FirstTried(h, more, n, slot);
  }

  lemma NowFirst(h: Hashing, info: Infos, tried: Table, entries: seq<Saved>, v: Saved, slot: Slot)
    requires Wants(h, v, slot) && slot in tried && tried[slot] in info && SavedAs(info[tried[slot]], v)
    requires forall j :: 0 <= j < |entries| ==> !Wants(h, entries[j], slot)
    ensures FirstKept(h, info, tried, entries + [v], slot)
  {
    var more := entries + [v];
    assert forall j :: 0 <= j < |entries| ==> more[j] == entries[j];
    assert FirstTried(h, more, |entries|, slot);
  }

  lemma TriedLost(h: Hashing, s: State, t: State, entries: seq<Saved>, v: Saved)
    requires TriedRead(h, s, t, entries) && (!h.isValid(v.svc) || h.TriedSlot(v.svc) in t.triedTable)
    ensures TriedRead(h, s, t.(nTried := t.nTried - 1), entries + [v])
  {
    hide FirstKept;
    forall slot | slot in t.triedTable ensures FirstKept(h, t.info, t.triedTable, entries + [v], slot) {
      Known(h, t.info, t.triedTable, entries, slot);
      StillFirst(h, t.info, t.info, t.triedTable, t.triedTable, entries, v, slot);
    }
  }

  lemma Known(h: Hashing, info: Infos, tried: Table, entries: seq<Saved>, slot: Slot)
    requires FirstKept(h, info, tried, entries, slot)
    ensures slot in tried && tried[slot] in info
  {
  }

  lemma TriedEntered(h: Hashing, s: State, t: State, u: State, entries: seq<Saved>, v: Saved, e: Info)
    requires TriedRead(h, s, t, entries) && h.isValid(v.svc) && h.TriedSlot(v.svc) !in t.triedTable && SavedAs(e, v)
    requires u.info == t.info[t.idCount := e] && u.triedTable == t.triedTable[h.TriedSlot(v.svc) := t.idCount]
    requires u.idCount == t.idCount + 1 && u.nTried == t.nTried
    ensures TriedRead(h, s, u, entries + [v])
  {
    hide FirstKept, SavedAs;
    var own := h.TriedSlot(v.svc);
    forall slot | slot in u.triedTable
      ensures FirstKept(h, u.info, u.triedTable, entries + [v], slot) && u.triedTable[slot] < u.idCount
    {
      if slot == own {
        NowFirst(h, u.info, u.triedTable, entries, v, own);
      } else {
        Known(h, t.info, t.triedTable, entries, slot);
        StillFirst(h, t.info, u.info, t.triedTable, u.triedTable, entries, v, slot);
      }
    }
    assert |u.triedTable| == |t.triedTable| + 1;
  }

  lemma TriedOneMore(h: Hashing, s: State, t: State, entries: seq<Saved>, v: Saved)
    requires TriedRead(h, s, t, entries)
    ensures TriedRead(h, s, LoadTried(h, t, v), entries + [v])
  {
    hide Bump, TriedRead;
    if h.isValid(v.svc) && h.TriedSlot(v.svc) !in t.triedTable {
      var e := Load(v, |t.rnd|).(inTried := true);
      TriedEntered(h, s, t, LoadTried(h, t, v), entries, v, e);
    } else {
      TriedLost(h, s, t, entries, v);
    }
  }

  /** Of the tried addresses, the first valid one for each slot is kept, as it was saved; the others are
      lost, and the number of tried addresses goes down for them. */
  lemma {:induction false} TriedFirstCome(h: Hashing, s: State, entries: seq<Saved>)
    requires s.triedTable == map[]
    ensures TriedRead(h, s, LoadAllTried(h, s, entries), entries)
  {
    hide LoadTried, TriedRead;
    if entries == [] {
      NoneTried(h, s);
    } else {
      var n := |entries| - 1;
      TriedFirstCome(h, s, entries[..n]);
      TriedOneMore(h, s, LoadAllTried(h, s, entries[..n]), entries[..n], entries[n]);
      assert entries[..n] + [entries[n]] == entries;
    }
  }

  lemma NoneTried(h: Hashing, s: State)
    requires s.triedTable == map[]
    ensures TriedRead(h, s, s, [])
  {
  }

  // ---------------------------------------------------------------- addresses that need a new bucket

  /** A valid address claims the slot that its own source gives it. */
  predicate Claims(h: Hashing, info: Infos, id: int, slot: Slot) {
    id in info && h.isValid(info[id].svc) && h.HomeSlot(info[id].svc, info[id].source) == slot
  }

  /** The k-th entry is the first one that claims the slot. */
  ghost predicate FirstClaim(h: Hashing, info: Infos, entries: seq<BucketEntry>, k: nat, slot: Slot) {
    && k < |entries| && Claims(h, info, entries[k].index, slot)
    && forall j :: 0 <= j < k ==> !Claims(h, info, entries[j].index, slot)
  }

  /** Each slot went to the first entry that claimed it, and to nobody only if nobody did. */
  ghost predicate FirstServed(h: Hashing, info: Infos, table: Table, entries: seq<BucketEntry>) {
    && (forall slot :: slot in table ==>
          exists k: nat :: FirstClaim(h, info, entries, k, slot) && table[slot] == entries[k].index)
    && (forall k, slot :: 0 <= k < |entries| && Claims(h, info, entries[k].index, slot) ==> slot in table)
  }

  /** Whether an entry holds its home slot. */
  predicate AtHome(h: Hashing, info: Infos, table: Table, id: int)
    requires id in info
  {
    var slot := h.HomeSlot(info[id].svc, info[id].source); slot in table && table[slot] == id
  }

  /** Entries have one reference if they hold their home slot, and none otherwise. */
  ghost predicate HomeCounted(h: Hashing, info: Infos, infoT: Infos, table: Table) {
    && infoT.Keys == info.Keys
    && forall id :: id in info ==> infoT[id] == info[id].(refCount := One(AtHome(h, info, table, id)))
  }

  lemma ServedStill(h: Hashing, info: Infos, table: Table, entries: seq<BucketEntry>, entry: BucketEntry)
    requires FirstServed(h, info, table, entries)
    requires forall slot :: Claims(h, info, entry.index, slot) ==> slot in table
    ensures FirstServed(h, info, table, entries + [entry])
  {
    hide Claims;
    var more := entries + [entry];
    forall slot | slot in table
      ensures exists k: nat :: FirstClaim(h, info, more, k, slot) && table[slot] == more[k].index
    {
      var k: nat :| FirstClaim(h, info, entries, k, slot) && table[slot] == entries[k].index;
      ClaimStill(h, info, entries, entry, k, slot);
    }
  }

  lemma ClaimStill(h: Hashing, info: Infos, entries: seq<BucketEntry>, entry: BucketEntry, k: nat, slot: Slot)
    requires FirstClaim(h, info, entries, k, slot)
    ensures FirstClaim(h, info, entries + [entry], k, slot) && (entries + [entry])[k] == entries[k]
  {
  }

  lemma ServedOne(h: Hashing, info: Infos, table: Table, entries: seq<BucketEntry>, entry: BucketEntry, home: Slot)
    requires FirstServed(h, info, table, entries) && home !in table && Claims(h, info, entry.index, home)
    ensures FirstServed(h, info, table[home := entry.index], entries + [entry])
  {
    var more, tableT := entries + [entry], table[home := entry.index];
    forall slot | slot in tableT
      ensures exists k: nat :: FirstClaim(h, info, more, k, slot) && tableT[slot] == more[k].index
    {
      if slot == home {
        assert FirstClaim(h, info, more, |entries|, home);
      } else {
        var k: nat :| FirstClaim(h, info, entries, k, slot) && table[slot] == entries[k].index;
        ClaimStill(h, info, entries, entry, k, slot);
      }
    }
  }

  lemma CountedOne(h: Hashing, info: Infos, infoT: Infos, table: Table, id: int)
    requires HomeCounted(h, info, infoT, table) && id in info
    requires var home := h.HomeSlot(info[id].svc, info[id].source); home !in table
    ensures infoT[id].refCount == 0
    ensures HomeCounted(h, info, infoT[id := infoT[id].(refCount := 1)],
                        table[h.HomeSlot(info[id].svc, info[id].source) := id])
  {
  }

  lemma CountsAtMostOne(h: Hashing, info: Infos, infoT: Infos, table: Table, id: int)
    requires HomeCounted(h, info, infoT, table) && id in info
    ensures id in infoT && infoT[id].svc == info[id].svc && infoT[id].source == info[id].source
    ensures infoT[id].refCount == One(AtHome(h, info, table, id))
  {
  }

  /** One more entry when the buckets are not restored. */
  lemma RebucketOne(h: Hashing, s: State, t: State, entries: seq<BucketEntry>, entry: BucketEntry)
    requires FirstServed(h, s.info, t.newTable, entries) && HomeCounted(h, s.info, t.info, t.newTable)
    requires entry.index in s.info
    ensures entry.index in t.info
    ensures var u := PlaceEntry(h, t, false, entry);
      && FirstServed(h, s.info, u.newTable, entries + [entry]) && HomeCounted(h, s.info, u.info, u.newTable)
      && u == t.(info := u.info, newTable := u.newTable)
  {
    hide FirstServed, HomeCounted;
    var id := entry.index;
    CountsAtMostOne(h, s.info, t.info, t.newTable, id);
    var home := h.HomeSlot(s.info[id].svc, s.info[id].source);
    if h.isValid(s.info[id].svc) && home !in t.newTable {
      ServedOne(h, s.info, t.newTable, entries, entry, home);
      CountedOne(h, s.info, t.info, t.newTable, id);
    } else {
      ServedStill(h, s.info, t.newTable, entries, entry);
    }
  }

  lemma NobodyServed(h: Hashing, s: State)
    requires s.newTable == map[] && forall id :: id in s.info ==> s.info[id].refCount == 0
    ensures FirstServed(h, s.info, s.newTable, []) && HomeCounted(h, s.info, s.info, s.newTable)
  {
  }

  /** When the buckets cannot be restored, each slot goes to the first address that claims it, and every
      address has one reference or none. */
  lemma {:induction false} Rebucketed(h: Hashing, s: State, entries: seq<BucketEntry>)
    requires s.newTable == map[] && (forall id :: id in s.info ==> s.info[id].refCount == 0)
    requires Indexed(entries, s.info)
    ensures var t := PlaceAll(h, s, false, entries);
      && FirstServed(h, s.info, t.newTable, entries) && HomeCounted(h, s.info, t.info, t.newTable)
      && t == s.(info := t.info, newTable := t.newTable)
  {
    hide FirstServed, HomeCounted, PlaceEntry;
    if entries == [] {
      NobodyServed(h, s);
    } else {
      var n := |entries| - 1;
      Rebucketed(h, s, entries[..n]);
      RebucketOne(h, s, PlaceAll(h, s, false, entries[..n]), entries[..n], entries[n]);
      assert entries[..n] + [entries[n]] == entries;
    }
  }

  /** In either case one entry of a bucket gives a valid address at most one reference more: in the slot
      where it was, if buckets are restored and that is free, or else in its home slot, if that is free. */
  lemma PlacedWhere(h: Hashing, s: State, restore: bool, entry: BucketEntry)
    requires entry.index in s.info
    ensures var t := PlaceEntry(h, s, restore, entry); var id := entry.index; var e := s.info[id];
      var was, home := h.NewSlot(e.svc, entry.bucket), h.HomeSlot(e.svc, e.source);
      && (t == s <==> !h.isValid(e.svc) || e.refCount >= 8 || ((restore ==> was in s.newTable) && home in s.newTable))
      && (t != s ==>
            && t.info == s.info[id := e.(refCount := e.refCount + 1)]
            && t.newTable == s.newTable[if restore && was !in s.newTable then was else home := id])
  {
    if PlaceEntry(h, s, restore, entry) != s {
      assert PlaceEntry(h, s, restore, entry).info[entry.index].refCount == s.info[entry.index].refCount + 1;
    }
    var e := s.info[entry.index];
    var slot := h.NewSlot(e.svc, entry.bucket);
    if slot !in s.newTable { assert PlaceNew(s, entry.index, slot).newTable != s.newTable; }
    var home := h.HomeSlot(e.svc, e.source);
    if home !in s.newTable { assert PlaceNew(s, entry.index, home).newTable != s.newTable; }
  }

  // ---------------------------------------------------------------- what remains

  lemma DeletedReadable(h: Hashing, s: State, id: int)
    requires Readable(s) && id in s.info
    ensures CanDelete(s, id)
    ensures var t := Delete(h, s, id);
      AllMoved(s.info - {id}, t.info) && t.newTable == s.newTable && t.triedTable == s.triedTable
  {
    DeleteKeepsReadable(h, s, id);
    hide Bump;
    var at, last := s.info[id].randomPos, |s.rnd| - 1;
    if at != last {
      assert s.rnd[at] != s.rnd[last];
      TwoPositions(s.info, s.rnd, at, last);
    }
  }

  /** These entries are left, moved in the random-order vector at most. */
  ghost predicate OnlyUsed(info: Infos, infoT: Infos, order: seq<int>) {
    && (forall id :: id in infoT <==> id in info && !(id in order && Unused(info, id)))
    && forall id :: id in infoT ==> Moved(info[id], infoT[id])
  }

  lemma DroppedOne(info: Infos, infoT: Infos, infoU: Infos, order: seq<int>, id: int)
    requires OnlyUsed(info, infoT, order)
    requires if Unused(infoT, id) then AllMoved(infoT - {id}, infoU) else infoU == infoT
    ensures OnlyUsed(info, infoU, order + [id])
  {
    forall x | x in infoU ensures x in infoT && Moved(info[x], infoU[x]) {
      if infoU != infoT { assert x in (infoT - {id}).Keys && Moved((infoT - {id})[x], infoU[x]); }
    }
    forall x | x in infoT && x !in infoU ensures x == id && Unused(infoT, id) {
      assert x != id ==> x in (infoT - {id}).Keys;
    }
    assert id in infoU ==> !Unused(infoT, id);
    assert forall x :: x in infoT ==> (Unused(infoT, x) <==> Unused(info, x));
  }

  /** Pruning deletes exactly the entries that have neither a reference nor a tried slot. */
  lemma {:induction false} PruneExact(h: Hashing, s: State, order: seq<int>)
    requires Readable(s)
    ensures var t := Prune(h, s, order);
      OnlyUsed(s.info, t.info, order) && t.newTable == s.newTable && t.triedTable == s.triedTable
  {
    hide Readable, Delete, CanDelete, Unused, OnlyUsed, AllMoved;
    if order == [] {
      NoneDropped(s.info);
    } else {
      var n := |order| - 1;
      PruneExact(h, s, order[..n]);
      var t := Prune(h, s, order[..n]);
      if Unused(t.info, order[n]) {
        UnusedIsKnown(t.info, order[n]);
        DeletedReadable(h, t, order[n]);
      }
      DroppedOne(s.info, t.info, Prune(h, s, order).info, order[..n], order[n]);
      assert order[..n] + [order[n]] == order;
    }
  }

  lemma UnusedIsKnown(info: Infos, id: int)
    requires Unused(info, id)
    ensures id in info
  {
  }

  lemma NoneDropped(info: Infos)
    ensures OnlyUsed(info, info, [])
  {
  }

  /** No address has a reference yet. */
  ghost predicate Unplaced(s: State) {
    s.newTable == map[] && forall id :: id in s.info ==> s.info[id].refCount == 0
  }

  lemma {:induction false} NewUnplaced(h: Hashing, s: State, entries: seq<Saved>)
    requires Unplaced(s)
    ensures Unplaced(LoadAllNew(h, s, entries))
  {
    hide Bump;
    if entries != [] {
      NewUnplaced(h, s, entries[..|entries| - 1]);
    }
  }

  lemma {:induction false} TriedUnplaced(h: Hashing, s: State, entries: seq<Saved>)
    requires Unplaced(s)
    ensures Unplaced(LoadAllTried(h, s, entries))
  {
    hide Bump;
    if entries != [] {
      TriedUnplaced(h, s, entries[..|entries| - 1]);
    }
  }

  /** Reading a stream with other buckets, or for another map of networks: of the new addresses exactly
      those are left that hold their home slot, which is the first that claims it, and with that one
      reference; the tried ones are all kept. */
  lemma RebucketedRead(h: Hashing, m: Stream, asmap: nat, order: seq<int>)
    requires m.nNew >= 0 && |m.newEntries| == m.nNew
    requires BucketCount(m) != 1024 || asmap != if m.format < 2 then 0 else m.asmap
    requires forall id :: id in Addresses(h, m).info ==> id in order
    ensures var s, t := Addresses(h, m), Records(h, m, asmap, order);
      && FirstServed(h, s.info, t.newTable, AllEntries(m.buckets, |m.buckets|, m.nNew))
      && t.triedTable == s.triedTable
      && (forall id :: id in t.info <==> id in s.info && (s.info[id].inTried || AtHome(h, s.info, t.newTable, id)))
      && (forall id :: id in t.info ==>
            Moved(s.info[id].(refCount := One(AtHome(h, s.info, t.newTable, id))), t.info[id]))
  {
    hide AllEntries, FirstServed, PlaceAll, Prune, LoadAllNew, LoadAllTried, Readable, BucketCount;
    var start := EMPTY.(nNew := m.nNew, nTried := m.nTried);
    NewUnplaced(h, start, m.newEntries);
    TriedUnplaced(h, LoadAllNew(h, start, m.newEntries), m.triedEntries);
    var s, entries := Addresses(h, m), AllEntries(m.buckets, |m.buckets|, m.nNew);
    hide Addresses;
    EntriesFacts(h, m, |m.buckets|);
    Rebucketed(h, s, entries);
    PlaceKeepsReadable(h, s, false, entries);
    var placed := PlaceAll(h, s, false, entries);
    PruneExact(h, placed, order);
    RebucketedLeft(h, s.info, placed.info, Records(h, m, asmap, order).info, placed.newTable, order);
  }

  lemma RebucketedLeft(h: Hashing, info: Infos, infoT: Infos, infoU: Infos, table: Table, order: seq<int>)
    requires HomeCounted(h, info, infoT, table) && OnlyUsed(infoT, infoU, order)
    requires forall id :: id in info ==> id in order
    ensures forall id :: id in infoU <==> id in info && (info[id].inTried || AtHome(h, info, table, id))
    ensures forall id :: id in infoU ==> Moved(info[id].(refCount := One(AtHome(h, info, table, id))), infoU[id])
  {
    hide AtHome;
    assert forall id :: id in infoT <==> id in info;
  }
}
