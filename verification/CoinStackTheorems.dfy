/** The coin cache hierarchy behaves like plain maps: one map per layer, of which only the top one
    is edited, and flushing or syncing a layer copies its map onto the layer below. */
module CoinStackTheorems {
  import opened Basics
  import opened CoinStack

  // ---------------------------------------------------------------- usage sums

  lemma {:induction false} TotalUsageWithout(m: Layer, o: OutPoint)
    requires o in m
    ensures TotalUsage(m) == m[o].coin.Usage() + TotalUsage(m - {o})
    decreases |m|
  {
    var p :| p in m && TotalUsage(m) == m[p].coin.Usage() + TotalUsage(m - {p});
    if p != o {
      TotalUsageWithout(m - {p}, o);
      TotalUsageWithout(m - {o}, p);
      assert m - {p} - {o} == m - {o} - {p};
    }
  }

  lemma TotalUsageUpdate(m: Layer, o: OutPoint, e: Entry)
    ensures TotalUsage(m[o := e])
         == TotalUsage(m) - (if o in m then m[o].coin.Usage() else 0) + e.coin.Usage()
  {
    TotalUsageWithout(m[o := e], o);
    assert m[o := e] - {o} == m - {o};
    if o in m {
      TotalUsageWithout(m, o);
    } else {
      assert m - {o} == m;
    }
  }

  // ---------------------------------------------------------------- one entry of a layer

  lemma OverlayUpdate(below: Utxos, m: Layer, o: OutPoint, e: Entry)
    ensures Overlay(below, m[o := e])
         == (if e.coin.IsSpent() then Overlay(below, m) - {o} else Overlay(below, m)[o := e.coin])
  {
  }

  lemma LayerUpdate(below: Utxos, m: Layer, o: OutPoint, e: Entry)
    requires LayerOk(m, below)
    ensures LayerOk(m[o := e], below) <==> EntryOk(o, e, below)
  {
    assert m[o := e][o] == e;
  }

  lemma OverlayDrop(below: Utxos, m: Layer, o: OutPoint)
    ensures Overlay(below, m - {o})
         == (if o in below then Overlay(below, m)[o := below[o]] else Overlay(below, m) - {o})
  {
  }

  // ---------------------------------------------------------------- reading changes nothing

  /** GetCoin and HaveCoin find exactly the coins of the view; AccessCoin, FetchCoin and they leave
      every layer's view as it was. */
  lemma {:induction false} ReadIsLookup(s: Stack, o: OutPoint)
    requires Valid(s)
    ensures var (t, found) := Read(s, o);
      && Valid(t) && View(t) == View(s) && Views(t) == Views(s)
      && (found.Some? && !found.value.IsSpent() <==> o in View(s))
      && (o in View(s) ==> found == Some(View(s)[o]))
      && (s.Cache? && found.Some? ==> !found.value.IsSpent())
    decreases s, 1
  {
    if s.Cache? {
      FetchIsLookup(s, o);
    }
  }

  lemma OverlayAt(below: Utxos, m: Layer, o: OutPoint)
    ensures o in m ==> (o in Overlay(below, m) <==> !m[o].coin.IsSpent())
    ensures o in m && o in Overlay(below, m) ==> Overlay(below, m)[o] == m[o].coin
    ensures o !in m ==> (o in Overlay(below, m) <==> o in below)
    ensures o !in m && o in below ==> Overlay(below, m)[o] == below[o]
  {
  }

  /** An entry that is loaded from below is sound and changes no view. */
  lemma LoadEntry(below: Utxos, m: Layer, o: OutPoint, coin: Coin)
    requires LayerOk(m, below) && o !in m
    requires if coin.IsSpent() then o !in below else o in below && below[o] == coin
    ensures var n := m[o := Entry(coin, false, coin.IsSpent())];
      LayerOk(n, below) && Overlay(below, n) == Overlay(below, m)
  {
    LayerUpdate(below, m, o, Entry(coin, false, coin.IsSpent()));
    OverlayUpdate(below, m, o, Entry(coin, false, coin.IsSpent()));
    OverlayAt(below, m, o);
    hide LayerOk, Overlay;
  }

  lemma {:induction false} FetchIsLookup(s: Stack, o: OutPoint)
    requires Valid(s) && s.Cache?
    ensures var f := Fetch(s, o);
      && Valid(f) && View(f) == View(s) && Views(f.base) == Views(s.base)
      && (o in f.entries && !f.entries[o].coin.IsSpent() <==> o in View(s))
      && (o in View(s) ==> f.entries[o].coin == View(s)[o])
    decreases s, 0
  {
    hide LayerOk, Overlay, TotalUsage, Read, Views;
    OverlayAt(View(s.base), s.entries, o);
    if o !in s.entries {
      ReadIsLookup(s.base, o);
      var (below, found) := Read(s.base, o);
      if found.Some? {
        var e := Entry(found.value, false, found.value.IsSpent());
        LoadEntry(View(s.base), s.entries, o, found.value);
        TotalUsageUpdate(s.entries, o, e);
        OverlayAt(View(s.base), s.entries[o := e], o);
      }
    }
  }

  /** One map per layer, database first. */
  ghost function Views(s: Stack): (v: seq<Utxos>)
    ensures |v| >= 1 && v[|v| - 1] == View(s)
  {
    (if s.Database? then [] else Views(s.base)) + [View(s)]
  }

  lemma ViewsSplit(s: Stack)
    requires s.Cache?
    ensures Views(s)[..|Views(s)| - 1] == Views(s.base)
  {
  }

  lemma ViewsTop(s: Stack, t: Stack)
    requires s.Cache? && t.Cache? && Views(t.base) == Views(s.base)
    ensures Views(t) == Views(s)[|Views(s)| - 1 := View(t)]
  {
  }

  // ---------------------------------------------------------------- editing the top layer

  /** AddCoin is map update for a spendable script and nothing for an unspendable one.  Without
      `possibleOverwrite` the layer invariant survives exactly when the caller kept its promise that
      no unspent coin is visible there; the code itself only checks its own layer. */
  lemma AddCoinIsUpdate(s: Stack, o: OutPoint, coin: Coin, possibleOverwrite: bool)
    requires Valid(s) && s.Cache? && !coin.IsSpent()
    requires !AddCoinThrows(s, o, coin, possibleOverwrite)
    ensures var t := AddCoin(s, o, coin, possibleOverwrite);
      && t.base == s.base
      && View(t) == (if coin.script.IsUnspendable() then View(s) else View(s)[o := coin])
      && (Valid(t) <==> (coin.script.IsUnspendable() || possibleOverwrite || o !in View(s)))
  {
    if !coin.script.IsUnspendable() {
      var e := AddCoin(s, o, coin, possibleOverwrite).entries[o];
      TotalUsageUpdate(s.entries, o, e);
      OverlayUpdate(View(s.base), s.entries, o, e);
      LayerUpdate(View(s.base), s.entries, o, e);
      assert o in s.entries ==> EntryOk(o, s.entries[o], View(s.base));
    }
  }

  /** The throw inside AddCoin happens only when the promise was broken, and leaves the usage counter
      short of the true sum whenever the coin it refused to overwrite owns heap memory. */
  lemma AddCoinThrowLosesCount(s: Stack, o: OutPoint, coin: Coin)
    requires Valid(s) && s.Cache? && AddCoinThrows(s, o, coin, false)
    ensures o in View(s)
    ensures var t := AddCoin(s, o, coin, false);
      && View(t) == View(s) && t.entries == s.entries
      && t.usage == TotalUsage(t.entries) - s.entries[o].coin.Usage()
      && (Valid(t) <==> s.entries[o].coin.Usage() == 0)
  {
  }

  lemma LayerSpend(below: Utxos, m: Layer, o: OutPoint)
    requires LayerOk(m, below) && o in m
    ensures m[o].isFresh ==>
      Overlay(below, m - {o}) == Overlay(below, m) - {o} && LayerOk(m - {o}, below)
    ensures !m[o].isFresh ==>
      var n := m[o := Entry(CLEARED, true, false)];
      Overlay(below, n) == Overlay(below, m) - {o} && LayerOk(n, below)
  {
    assert EntryOk(o, m[o], below);
    if m[o].isFresh {
      OverlayDrop(below, m, o);
    } else {
      OverlayUpdate(below, m, o, Entry(CLEARED, true, false));
      LayerUpdate(below, m, o, Entry(CLEARED, true, false));
    }
  }

  lemma SpendEntryIsRemoval(s: Stack, o: OutPoint)
    requires Valid(s) && s.Cache? && o in s.entries
    ensures var t := SpendEntry(s, o); Valid(t) && View(t) == View(s) - {o} && t.base == s.base
  {
    TotalUsageWithout(s.entries, o);
    TotalUsageUpdate(s.entries, o, Entry(CLEARED, true, false));
    LayerSpend(View(s.base), s.entries, o);
  }

  /** SpendCoin is removal, whatever flags the entry carried, and hands out the coin it removed. */
  lemma SpendCoinIsRemoval(s: Stack, o: OutPoint)
    requires Valid(s) && s.Cache?
    ensures var t := SpendCoin(s, o);
      Valid(t) && View(t) == View(s) - {o} && Views(t.base) == Views(s.base)
    ensures SpentCoin(s, o).IsSpent() <==> o !in View(s)
    ensures o in View(s) ==> SpentCoin(s, o) == View(s)[o]
  {
    FetchIsLookup(s, o);
    var f := Fetch(s, o);
    if o in f.entries {
      SpendEntryIsRemoval(f, o);
    }
  }

  lemma DropClean(below: Utxos, m: Layer, o: OutPoint)
    requires LayerOk(m, below) && o in m && !m[o].isDirty && !m[o].isFresh
    ensures LayerOk(m - {o}, below) && Overlay(below, m - {o}) == Overlay(below, m)
  {
    assert EntryOk(o, m[o], below);
    OverlayDrop(below, m, o);
    OverlayAt(below, m, o);
  }

  /** Uncache drops the entry exactly if it carries no flag, which is what the parent still shows, and
      touches nothing else. */
  lemma UncacheIsInvisible(s: Stack, o: OutPoint)
    requires Valid(s) && s.Cache?
    ensures var t := Uncache(s, o); Valid(t) && View(t) == View(s) && t.base == s.base && t.best == s.best
    ensures o in Uncache(s, o).entries ==> s.entries[o].isDirty || s.entries[o].isFresh
    ensures o in s.entries && (s.entries[o].isDirty || s.entries[o].isFresh) ==> Uncache(s, o) == s
    ensures Uncache(s, o).entries - {o} == s.entries - {o}
  {
    hide LayerOk, Overlay, TotalUsage;
    if Uncache(s, o) != s {
      TotalUsageWithout(s.entries, o);
      DropClean(View(s.base), s.entries, o);
    }
  }

  // ---------------------------------------------------------------- visiting a map in any order

  /** The order in which a loop over an unordered map visits its keys. */
  ghost predicate IsOrder(order: seq<OutPoint>, m: Layer) {
    && (forall i, j :: 0 <= i < j < |order| ==> order[i] != order[j])
    && (forall o :: o in order <==> o in m)
  }

  function MergeOne(parent: Layer, o: OutPoint, e: Entry): Layer {
    match MergeEntry(EntryAt(parent, o), e)
    case None => parent - {o}
    case Some(n) => parent[o := n]
  }

  /** The parent's entries after the first `i` visits. */
  ghost function MergeInOrder(parent: Layer, child: Layer, order: seq<OutPoint>, i: nat): Layer
    requires i <= |order| && forall o :: o in order ==> o in child
  {
    if i == 0 then parent
    else MergeOne(MergeInOrder(parent, child, order, i - 1), order[i - 1], child[order[i - 1]])
  }

  function WriteOne(records: Utxos, keepsNull: OutPoint -> bool, o: OutPoint, e: Entry): Utxos {
    if !e.isDirty then records
    else if e.coin.IsSpent() && !keepsNull(o) then records - {o}
    else records[o := e.coin]
  }

  ghost function WriteInOrder(records: Utxos, keepsNull: OutPoint -> bool, child: Layer, order: seq<OutPoint>,
                              i: nat): Utxos
    requires i <= |order| && forall o :: o in order ==> o in child
  {
    if i == 0 then records
    else WriteOne(WriteInOrder(records, keepsNull, child, order, i - 1), keepsNull, order[i - 1], child[order[i - 1]])
  }

  /** What an erasing loop has left of the visited map. */
  ghost function Rest(m: Layer, order: seq<OutPoint>, i: nat): Layer
    requires i <= |order|
  {
    if i == 0 then m else Rest(m, order, i - 1) - {order[i - 1]}
  }

  lemma {:induction false} RestIsUnvisited(m: Layer, order: seq<OutPoint>, i: nat)
    requires i <= |order|
    ensures Rest(m, order, i).Keys == m.Keys - (set k | 0 <= k < i :: order[k])
  {
    if i > 0 {
      RestIsUnvisited(m, order, i - 1);
    }
  }

  lemma NothingLeft(m: Layer, order: seq<OutPoint>)
    requires IsOrder(order, m)
    ensures Rest(m, order, |order|) == map[]
  {
    RestIsUnvisited(m, order, |order|);
    assert forall o :: o in m ==> o in order;
  }

  function CleanOne(m: Layer, o: OutPoint): Layer
    requires o in m
  {
    if m[o].coin.IsSpent() then m - {o} else m[o := Entry(m[o].coin, false, false)]
  }

  lemma OneMoreVisit(order: seq<OutPoint>, i: nat, o: OutPoint)
    requires 0 < i <= |order|
    ensures o in order[..i] <==> o in order[..i - 1] || o == order[i - 1]
  {
    assert order[..i] == order[..i - 1] + [order[i - 1]];
  }

  lemma {:induction false} MergeInOrderAt(parent: Layer, child: Layer, order: seq<OutPoint>, i: nat, o: OutPoint)
    requires IsOrder(order, child) && i <= |order|
    ensures EntryAt(MergeInOrder(parent, child, order, i), o)
         == if o in order[..i] then MergedAt(parent, child, o) else EntryAt(parent, o)
  {
    if i > 0 {
      MergeInOrderAt(parent, child, order, i - 1, o);
      OneMoreVisit(order, i, o);
    }
  }

  lemma {:induction false} WriteInOrderAt(records: Utxos, keepsNull: OutPoint -> bool, child: Layer,
                                          order: seq<OutPoint>, i: nat, o: OutPoint)
    requires IsOrder(order, child) && i <= |order|
    ensures RecordAt(WriteInOrder(records, keepsNull, child, order, i), o)
         == if o in order[..i] then WrittenAt(records, keepsNull, child, o) else RecordAt(records, o)
  {
    if i > 0 {
      WriteInOrderAt(records, keepsNull, child, order, i - 1, o);
      OneMoreVisit(order, i, o);
      hide IsOrder;
    }
  }

  /** One more visit: the parent's entry at the visited outpoint is still the original one. */
  lemma NextVisit(parent: Layer, child: Layer, order: seq<OutPoint>, i: nat)
    requires IsOrder(order, child) && i < |order|
    ensures MisappliedAt(MergeInOrder(parent, child, order, i), child, order[i])
      <==> MisappliedAt(parent, child, order[i])
  {
    MergeInOrderAt(parent, child, order, i, order[i]);
    assert EntryAt(MergeInOrder(parent, child, order, i), order[i]) == EntryAt(parent, order[i]);
  }

  lemma NoneMisapplied(parent: Layer, child: Layer, order: seq<OutPoint>)
    requires IsOrder(order, child)
    requires forall k :: 0 <= k < |order| ==> !MisappliedAt(parent, child, order[k])
    ensures !Misapplied(parent, child)
  {
    forall o ensures !MisappliedAt(parent, child, o) {
      assert o in child ==> o in order;
    }
  }

  lemma SameLayer(m: Layer, n: Layer)
    requires forall o :: EntryAt(m, o) == EntryAt(n, o)
    ensures m == n
  {
    assert forall o :: o in m <==> EntryAt(m, o).Some?;
    assert forall o :: o in n <==> EntryAt(n, o).Some?;
    assert forall o :: o in m ==> m[o] == EntryAt(m, o).value;
  }

  lemma SameRecords(m: Utxos, n: Utxos)
    requires forall o :: RecordAt(m, o) == RecordAt(n, o)
    ensures m == n
  {
    assert forall o :: o in m <==> RecordAt(m, o).Some?;
    assert forall o :: o in n <==> RecordAt(n, o).Some?;
    assert forall o :: o in m ==> m[o] == RecordAt(m, o).value;
  }

  /** The order in which BatchWrite visits the child's entries does not matter. */
  lemma MergeOrderIrrelevant(parent: Layer, child: Layer, order: seq<OutPoint>)
    requires IsOrder(order, child)
    ensures MergeInOrder(parent, child, order, |order|) == Merge(parent, child)
  {
    forall o ensures EntryAt(MergeInOrder(parent, child, order, |order|), o) == EntryAt(Merge(parent, child), o) {
      MergeInOrderAt(parent, child, order, |order|, o);
    }
    SameLayer(MergeInOrder(parent, child, order, |order|), Merge(parent, child));
  }

  lemma WriteOrderIrrelevant(records: Utxos, keepsNull: OutPoint -> bool, child: Layer, order: seq<OutPoint>)
    requires IsOrder(order, child)
    ensures WriteInOrder(records, keepsNull, child, order, |order|) == Written(records, keepsNull, child)
  {
    var w, n := WriteInOrder(records, keepsNull, child, order, |order|), Written(records, keepsNull, child);
    forall o ensures RecordAt(w, o) == RecordAt(n, o) {
      WriteInOrderAt(records, keepsNull, child, order, |order|, o);
    }
    SameRecords(w, n);
  }

  ghost function CleanInOrder(m: Layer, order: seq<OutPoint>): (r: Layer)
    requires forall o :: o in order ==> o in m
    requires forall i, j :: 0 <= i < j < |order| ==> order[i] != order[j]
    ensures forall o :: o !in order ==> EntryAt(r, o) == EntryAt(m, o)
    ensures forall o :: o in order ==> EntryAt(r, o) == EntryAt(Cleaned(m), o)
  {
    if order == [] then m
    else
      var last := |order| - 1;
      assert order == order[..last] + [order[last]];
      var r := CleanInOrder(m, order[..last]);
      assert EntryAt(r, order[last]) == EntryAt(m, order[last]);
      CleanOne(r, order[last])
  }

  /** The merge of two sound layers, at one outpoint. */
  lemma MergeAt(parent: Layer, child: Layer, below: Utxos, o: OutPoint)
    requires LayerOk(parent, below) && LayerOk(child, Overlay(below, parent))
    ensures !MisappliedAt(parent, child, o)
    ensures var merged := Merge(parent, child); var over := Overlay(Overlay(below, parent), child);
      && (o in merged ==> EntryOk(o, merged[o], below))
      && (o in Overlay(below, merged) <==> o in over)
      && (o in over ==> Overlay(below, merged)[o] == over[o])
  {
    if o in parent { assert EntryOk(o, parent[o], below); }
    if o in child { assert EntryOk(o, child[o], Overlay(below, parent)); }
    hide LayerOk;
    OverlayAt(below, parent, o);
    OverlayAt(Overlay(below, parent), child, o);
    OverlayAt(below, Merge(parent, child), o);
    hide Overlay;
  }

  /** The heart of Flush and Sync: merging a sound child layer into a sound parent layer throws
      nothing, leaves the parent sound, and makes the parent show what the child showed. */
  lemma MergeMovesViewDown(parent: Layer, child: Layer, below: Utxos)
    requires LayerOk(parent, below)
    requires LayerOk(child, Overlay(below, parent))
    ensures !Misapplied(parent, child)
    ensures LayerOk(Merge(parent, child), below)
    ensures Overlay(below, Merge(parent, child)) == Overlay(Overlay(below, parent), child)
  {
    hide Overlay, Merge, EntryOk, MisappliedAt;
    forall o ensures !MisappliedAt(parent, child, o) { MergeAt(parent, child, below, o); }
    var merged, over := Merge(parent, child), Overlay(Overlay(below, parent), child);
    forall o | o in merged ensures EntryOk(o, merged[o], below) { MergeAt(parent, child, below, o); }
    forall o
      ensures o in Overlay(below, merged) <==> o in over
      ensures o in over ==> Overlay(below, merged)[o] == over[o]
    {
      MergeAt(parent, child, below, o);
    }
  }

  lemma WrittenMovesViewDown(records: Utxos, keepsNull: OutPoint -> bool, child: Layer)
    requires LayerOk(child, Unspent(records))
    ensures Unspent(Written(records, keepsNull, child)) == Overlay(Unspent(records), child)
  {
    var w := Written(records, keepsNull, child);
    forall o
      ensures o in Unspent(w) <==> o in Overlay(Unspent(records), child)
      ensures o in Unspent(w) ==> Unspent(w)[o] == Overlay(Unspent(records), child)[o]
    {
      if o in child { assert EntryOk(o, child[o], Unspent(records)); }
    }
  }

  /** A valid stack never throws while a layer is written to the one below, and the lower stack ends
      valid, showing what the whole stack showed, with every map under it untouched. */
  lemma BatchWriteMovesViewDown(s: Stack, hash: BlockHash)
    requires Valid(s) && s.Cache?
    ensures !BatchWriteThrows(s.base, s.entries)
    ensures var b := BatchWrite(s.base, s.entries, hash);
      && Valid(b) && View(b) == View(s) && b.Cache? == s.base.Cache?
      && Views(b) == Views(s.base)[|Views(s.base)| - 1 := View(s)]
  {
    var b := BatchWrite(s.base, s.entries, hash);
    match s.base
    case Database(records, keepsNull, _) =>
      WrittenMovesViewDown(records, keepsNull, s.entries);
    case Cache(entries, _, _, base) =>
      MergeMovesViewDown(entries, s.entries, View(base));
      ViewsTop(s.base, b);
  }

  /** No layer of a valid stack can make a Flush or Sync throw. */
  ghost predicate NothingMisapplied(s: Stack) {
    s.Cache? ==> !BatchWriteThrows(s.base, s.entries) && NothingMisapplied(s.base)
  }

  lemma {:induction false} ValidNeverThrows(s: Stack)
    requires Valid(s)
    ensures NothingMisapplied(s)
  {
    if s.Cache? {
      BatchWriteMovesViewDown(s, s.best);
      ValidNeverThrows(s.base);
    }
  }

  lemma EmptyLayer(below: Utxos)
    ensures LayerOk(map[], below) && Overlay(below, map[]) == below && TotalUsage(map[]) == 0
  {
  }

  lemma FlushKeepsView(s: Stack)
    requires Valid(s) && s.Cache?
    ensures !BatchWriteThrows(s.base, s.entries)
    ensures var t := Flush(s);
      Valid(t) && View(t) == View(s) && View(t.base) == View(s)
        && Views(t.base) == Views(s.base)[|Views(s.base)| - 1 := View(s)]
    ensures Flush(s).entries == map[] && Flush(s).usage == 0
  {
    BatchWriteMovesViewDown(s, s.best);
    hide LayerOk, Overlay, TotalUsage, BatchWrite, BatchWriteThrows, Views;
    EmptyLayer(View(Flush(s).base));
  }

  /** After a sync a coin is cached exactly if it was cached unspent before, and without flags. */
  ghost predicate UnspentCleaned(m: Layer, n: Layer) {
    forall o ::
      && (o in n <==> o in m && !m[o].coin.IsSpent())
      && (o in n ==> n[o].coin == m[o].coin && !n[o].isDirty && !n[o].isFresh)
  }

  /** Sync keeps the unspent entries, cleaned of their flags: the parent now shows the same coins. */
  lemma SyncKeepsView(s: Stack)
    requires Valid(s) && s.Cache?
    ensures !BatchWriteThrows(s.base, s.entries)
    ensures var t := Sync(s);
      Valid(t) && View(t) == View(s) && View(t.base) == View(s)
        && Views(t.base) == Views(s.base)[|Views(s.base)| - 1 := View(s)]
    ensures UnspentCleaned(s.entries, Sync(s).entries) && Sync(s).base == Flush(s).base
  {
    BatchWriteMovesViewDown(s, s.best);
    CleanedLayer(View(s.base), s.entries);
    CleanedIs(s.entries);
    var t := Sync(s);
    assert View(t.base) == View(s) == Overlay(View(s.base), s.entries);
  }

  lemma CleanedIs(m: Layer)
    ensures UnspentCleaned(m, Cleaned(m))
  {
  }

  lemma CleanedLayer(below: Utxos, m: Layer)
    ensures LayerOk(Cleaned(m), Overlay(below, m))
    ensures Overlay(Overlay(below, m), Cleaned(m)) == Overlay(below, m)
  {
  }

  /** The best block seen from the top survives Flush and Sync when the layer has its own hash; a layer
      that never read or set its hash writes null down and uncovers what lies below the parent. */
  lemma FlushBestBlock(s: Stack)
    requires s.Cache? && AcceptsHash(s.base, s.best)
    ensures s.best == 0 ==> s.base.Cache?
    ensures s.best != 0 ==> BestBlock(Flush(s)) == BestBlock(Sync(s)) == BestBlock(s)
    ensures s.best == 0 ==> BestBlock(Flush(s)) == BestBlock(Sync(s)) == BestBlock(s.base.base)
    ensures BestBlock(Flush(s)) == BestBlock(s)
      <==> s.best != 0 || s.base.best == 0 || s.base.best == BestBlock(s.base.base)
  {
  }

  /** A valid stack that loses its best block: a new cache that nobody asked for it, over one with block 2,
      over a database with block 1. */
  lemma BestBlockLost(keepsNull: OutPoint -> bool)
    ensures var s := Cache(map[], 0, 0, Cache(map[], 0, 2, Database(map[], keepsNull, 1)));
      Valid(s) && BestBlock(s) == 2 && BestBlock(Flush(s)) == 1 && BestBlock(Sync(s)) == 1
  {
    FlushBestBlock(Cache(map[], 0, 0, Cache(map[], 0, 2, Database(map[], keepsNull, 1))));
  }

  // ---------------------------------------------------------------- every run

  /** Operations that no view on top may notice.  `Below` runs one on a lower layer. */
  datatype Quiet = Get(o: OutPoint) | Drop(o: OutPoint) | FlushDown | SyncDown | Below(q: Quiet)

  datatype Step =
    | Silent(q: Quiet)
    | Add(o: OutPoint, coin: Coin, possibleOverwrite: bool)
    | Spend(o: OutPoint)
    | SetBest(hash: BlockHash)
    | PushCache
    | PopCache

  predicate QuietEnabled(s: Stack, q: Quiet) {
    match q
    case Get(_) => true
    case Drop(_) => s.Cache?
    case FlushDown => s.Cache? && AcceptsHash(s.base, s.best)
    case SyncDown => s.Cache? && AcceptsHash(s.base, s.best)
    case Below(r) => s.Cache? && QuietEnabled(s.base, r)
  }

  /** What callers must respect: only an outpoint that is not visible may be added without
      `possibleOverwrite`, spent coins are never added, and the database is not edited directly. */
  ghost predicate Enabled(s: Stack, step: Step) {
    match step
    case Silent(q) => QuietEnabled(s, q)
    case Add(o, coin, possibleOverwrite) =>
      s.Cache? && !coin.IsSpent() && (possibleOverwrite || o !in View(s))
    case PushCache => true
    case _ => s.Cache?
  }

  ghost function DoQuiet(s: Stack, q: Quiet): Stack
    requires QuietEnabled(s, q)
    decreases q
  {
    match q
    case Get(o) => Read(s, o).0
    case Drop(o) => Uncache(s, o)
    case FlushDown => Flush(s)
    case SyncDown => Sync(s)
    case Below(r) => s.(base := DoQuiet(s.base, r))
  }

  ghost function Do(s: Stack, step: Step): Stack
    requires Enabled(s, step)
  {
    match step
    case Silent(q) => DoQuiet(s, q)
    case Add(o, coin, possibleOverwrite) => AddCoin(s, o, coin, possibleOverwrite)
    case Spend(o) => SpendCoin(s, o)
    case SetBest(hash) => Cache(s.entries, s.usage, hash, s.base)
    case PushCache => Cache(map[], 0, 0, s)
    case PopCache => s.base
  }

  /** The same steps on plain maps. */
  ghost function PlainQuiet(v: seq<Utxos>, q: Quiet): (r: seq<Utxos>)
    requires |v| >= 1
    ensures |r| == |v| && r[|r| - 1] == v[|v| - 1]
    decreases q
  {
    match q
    case Get(_) => v
    case Drop(_) => v
    case FlushDown => if |v| == 1 then v else v[|v| - 2 := v[|v| - 1]]
    case SyncDown => if |v| == 1 then v else v[|v| - 2 := v[|v| - 1]]
    case Below(r) => if |v| == 1 then v else PlainQuiet(v[..|v| - 1], r) + [v[|v| - 1]]
  }

  ghost function Plain(v: seq<Utxos>, step: Step): (r: seq<Utxos>)
    requires |v| >= 1
    ensures |r| >= 1
  {
    var top := v[|v| - 1];
    match step
    case Silent(q) => PlainQuiet(v, q)
    case Add(o, coin, _) => if coin.script.IsUnspendable() then v else v[|v| - 1 := top[o := coin]]
    case Spend(o) => v[|v| - 1 := top - {o}]
    case SetBest(_) => v
    case PushCache => v + [top]
    case PopCache => if |v| == 1 then v else v[..|v| - 1]
  }

  lemma SameBelow(s: Stack, b: Stack)
    requires Valid(s) && s.Cache? && Valid(b) && View(b) == View(s.base)
    ensures Valid(s.(base := b)) && View(s.(base := b)) == View(s)
  {
    hide LayerOk, Overlay, TotalUsage;
  }

  lemma BelowViews(v: seq<Utxos>, w: seq<Utxos>, top: Utxos, r: Quiet)
    requires |v| >= 1 && w == PlainQuiet(v, r)
    ensures PlainQuiet(v + [top], Below(r)) == w + [top]
  {
    assert (v + [top])[..|v|] == v;
    assert |v + [top]| == |v| + 1 && (v + [top])[|v|] == top;
  }

  /** Copying the top map one layer down, on plain maps. */
  lemma PushedViews(v: seq<Utxos>, top: Utxos)
    requires |v| >= 1
    ensures PlainQuiet(v + [top], FlushDown) == PlainQuiet(v + [top], SyncDown) == v[|v| - 1 := top] + [top]
    ensures forall o :: PlainQuiet(v + [top], Get(o)) == PlainQuiet(v + [top], Drop(o)) == v + [top]
  {
  }

  lemma PushIsPlain(s: Stack, t: Stack)
    requires s.Cache? && t.Cache? && View(t) == View(s)
    requires Views(t.base) == Views(s.base)[|Views(s.base)| - 1 := View(s)]
    ensures Views(t) == PlainQuiet(Views(s), FlushDown) == PlainQuiet(Views(s), SyncDown)
  {
    hide View, PlainQuiet;
    PushedViews(Views(s.base), View(s));
  }

  lemma ValidBelow(s: Stack)
    requires Valid(s) && s.Cache?
    ensures Valid(s.base)
  {
  }

  lemma SameViews(s: Stack, t: Stack)
    requires s.Cache? && t.Cache? && t.base == s.base && View(t) == View(s)
    ensures Views(t) == Views(s)
  {
    hide View;
  }

  lemma ReadKeepsKind(s: Stack, o: OutPoint)
    ensures Read(s, o).0.Cache? == s.Cache?
  {
  }

  lemma LookupIsPlain(s: Stack, t: Stack, o: OutPoint)
    requires Views(t) == Views(s)
    ensures Views(t) == PlainQuiet(Views(s), Get(o)) == PlainQuiet(Views(s), Drop(o))
  {
    hide Views;
  }

  lemma BelowIsPlain(s: Stack, r: Quiet, b: Stack)
    requires Valid(s) && s.Cache? && Valid(b) && Views(b) == PlainQuiet(Views(s.base), r)
    ensures var t := s.(base := b); Valid(t) && Views(t) == PlainQuiet(Views(s), Below(r))
  {
    hide Valid, View, PlainQuiet;
    SameBelow(s, b);
    BelowViews(Views(s.base), Views(b), View(s), r);
    assert Views(s) == Views(s.base) + [View(s)];
  }

  /** A quiet step at any depth keeps every layer sound and copies maps downwards only. */
  lemma {:induction false} QuietIsPlain(s: Stack, q: Quiet)
    requires Valid(s) && QuietEnabled(s, q)
    ensures var t := DoQuiet(s, q);
      Valid(t) && t.Cache? == s.Cache? && Views(t) == PlainQuiet(Views(s), q)
    decreases q
  {
    hide Read, Uncache, Flush, Sync, Valid, View, Views, PlainQuiet, BatchWriteThrows;
    match q
    case Get(o) =>
      ReadIsLookup(s, o);
      LookupIsPlain(s, Read(s, o).0, o);
      ReadKeepsKind(s, o);
    case Drop(o) =>
      UncacheIsInvisible(s, o);
      SameViews(s, Uncache(s, o));
      LookupIsPlain(s, Uncache(s, o), o);
    case FlushDown =>
      FlushKeepsView(s);
      PushIsPlain(s, Flush(s));
    case SyncDown =>
      SyncKeepsView(s);
      PushIsPlain(s, Sync(s));
    case Below(r) =>
      ValidBelow(s);
      QuietIsPlain(s.base, r);
      BelowIsPlain(s, r, DoQuiet(s.base, r));
  }

  lemma StepIsPlain(s: Stack, step: Step)
    requires Valid(s) && Enabled(s, step)
    ensures Valid(Do(s, step)) && Views(Do(s, step)) == Plain(Views(s), step)
  {
    hide LayerOk, Overlay, TotalUsage, DoQuiet, PlainQuiet, QuietEnabled, SpendCoin;
    match step
    case Silent(q) => QuietIsPlain(s, q);
    case Add(o, coin, possibleOverwrite) =>
      OverlayAt(View(s.base), s.entries, o);
      AddCoinIsUpdate(s, o, coin, possibleOverwrite);
      ViewsTop(s, AddCoin(s, o, coin, possibleOverwrite));
    case Spend(o) =>
      SpendCoinIsRemoval(s, o);
      ViewsTop(s, SpendCoin(s, o));
    case SetBest(hash) =>
      ViewsTop(s, Cache(s.entries, s.usage, hash, s.base));
    case PushCache =>
      EmptyLayer(View(s));
    case PopCache =>
      ViewsSplit(s);
  }

  ghost predicate EnabledAll(s: Stack, steps: seq<Step>)
    decreases |steps|
  {
    steps == [] || (Enabled(s, steps[0]) && EnabledAll(Do(s, steps[0]), steps[1..]))
  }

  ghost function Run(s: Stack, steps: seq<Step>): Stack
    requires EnabledAll(s, steps)
    decreases |steps|
  {
    if steps == [] then s else Run(Do(s, steps[0]), steps[1..])
  }

  ghost function PlainRun(v: seq<Utxos>, steps: seq<Step>): seq<Utxos>
    requires |v| >= 1
    decreases |steps|
  {
    if steps == [] then v else PlainRun(Plain(v, steps[0]), steps[1..])
  }

  /** Every run of the hierarchy, of any depth, is a run of plain maps, and every layer stays sound. */
  lemma {:induction false} RunIsPlain(s: Stack, steps: seq<Step>)
    requires Valid(s) && EnabledAll(s, steps)
    ensures Valid(Run(s, steps)) && Views(Run(s, steps)) == PlainRun(Views(s), steps)
    decreases |steps|
  {
    if steps != [] {
      StepIsPlain(s, steps[0]);
      RunIsPlain(Do(s, steps[0]), steps[1..]);
    }
  }
}
