/** What the caches hold after an operation, beyond what their views show: which entries come and go, and
    what traces of a coin are left. */
module CoinCacheContents {
  import opened Basics
  import opened CoinStack
  import opened CoinStackTheorems

  /** Dropping a coin that a lookup loaded undoes the loading in this layer. */
  lemma UncacheUndoesFetch(s: Stack, o: OutPoint)
    requires Valid(s) && s.Cache? && o !in s.entries && o in View(s)
    ensures var f := Fetch(s, o);
      && o in f.entries && f.entries == s.entries[o := Entry(View(s)[o], false, false)]
      && Uncache(f, o) == s.(base := f.base)
  {
    hide Valid, View, Views, Read;
    FetchIsLookup(s, o);
    LoadedIsClean(s, o);
    assert s.entries[o := Entry(View(s)[o], false, false)] - {o} == s.entries;
  }

  lemma LoadedIsClean(s: Stack, o: OutPoint)
    requires s.Cache? && o !in s.entries
    ensures var f := Fetch(s, o);
      && f == s.(entries := f.entries, usage := f.usage, base := f.base)
      && (o !in f.entries ==> f.entries == s.entries && f.usage == s.usage)
      && (o in f.entries ==> var e := f.entries[o];
            f.entries == s.entries[o := e] && !e.isDirty && e.isFresh == e.coin.IsSpent()
            && f.usage == s.usage + e.coin.Usage())
  {
  }

  /** A lookup that finds nothing leaves this layer alone, unless the database below keeps a spent record:
      then the cache remembers it as fresh, so that it is never written. */
  lemma FetchOfNothing(s: Stack, o: OutPoint)
    requires Valid(s) && s.Cache? && o !in s.entries && o !in View(s)
    ensures var f := Fetch(s, o);
      if s.base.Database? && o in s.base.records
      then f.entries == s.entries[o := Entry(s.base.records[o], false, true)]
      else f.entries == s.entries && f.usage == s.usage
  {
    ReadIsLookup(s.base, o);
  }

  /** A coin that is added and spent again before the next flush leaves no trace at all, unless an entry
      for an older coin, spent but not yet flushed, has to stay, or overwriting was allowed and the layer
      cannot know that nothing is there below.  Whenever the parent shows a coin the trace stays. */
  lemma SpendAfterAdd(s: Stack, o: OutPoint, coin: Coin, possibleOverwrite: bool)
    requires Valid(s) && s.Cache? && !coin.IsSpent() && !coin.script.IsUnspendable()
    requires possibleOverwrite || o !in View(s)
    ensures var had := if o in s.entries then s.entries[o] else Entry(CLEARED, false, false);
      var noTrace := had.isFresh || (!possibleOverwrite && !had.isDirty);
      var t := SpendCoin(AddCoin(s, o, coin, possibleOverwrite), o);
      && t.entries == (if noTrace then s.entries - {o} else s.entries[o := Entry(CLEARED, true, false)])
      && t.base == s.base && t.usage == TotalUsage(t.entries)
      && (noTrace ==> o !in View(s.base))
  {
    hide Valid, View, Views, EntryOk;
    AddIsLegal(s, o, coin, possibleOverwrite);
    AddThenSpend(s, o, coin, possibleOverwrite);
    AddCoinIsUpdate(s, o, coin, possibleOverwrite);
    var a := AddCoin(s, o, coin, possibleOverwrite);
    SpendCoinIsRemoval(a, o);
    ValidUsage(SpendCoin(a, o));
  }

  lemma ValidUsage(s: Stack)
    requires Valid(s) && s.Cache?
    ensures s.usage == TotalUsage(s.entries)
  {
  }

  /** A caller who keeps the promise meets no throw, and what it adds without a trace is not below. */
  lemma AddIsLegal(s: Stack, o: OutPoint, coin: Coin, possibleOverwrite: bool)
    requires Valid(s) && s.Cache? && (possibleOverwrite || o !in View(s))
    ensures !AddCoinThrows(s, o, coin, possibleOverwrite)
    ensures var had := if o in s.entries then s.entries[o] else Entry(CLEARED, false, false);
      had.isFresh || (!possibleOverwrite && !had.isDirty) ==> o !in View(s.base)
  {
    OverlayAt(View(s.base), s.entries, o);
    if o in s.entries { assert EntryOk(o, s.entries[o], View(s.base)); }
  }

  lemma AddThenSpend(s: Stack, o: OutPoint, coin: Coin, possibleOverwrite: bool)
    requires s.Cache? && !coin.script.IsUnspendable() && !AddCoinThrows(s, o, coin, possibleOverwrite)
    ensures var had := if o in s.entries then s.entries[o] else Entry(CLEARED, false, false);
      var noTrace := had.isFresh || (!possibleOverwrite && !had.isDirty);
      var t := SpendCoin(AddCoin(s, o, coin, possibleOverwrite), o);
      && t.entries == (if noTrace then s.entries - {o} else s.entries[o := Entry(CLEARED, true, false)])
      && t.base == s.base && t.best == s.best
      && t.usage == s.usage - had.coin.Usage()
  {
    var e := AddCoin(s, o, coin, possibleOverwrite).entries[o];
    assert s.entries[o := e] - {o} == s.entries - {o};
  }

  /** In particular nothing is left of a coin at a new outpoint: adding and spending it is undone. */
  lemma SpendUndoesAdd(s: Stack, o: OutPoint, coin: Coin)
    requires Valid(s) && s.Cache? && !coin.IsSpent() && !coin.script.IsUnspendable()
    requires o !in s.entries && o !in View(s)
    ensures SpendCoin(AddCoin(s, o, coin, false), o) == s
  {
    AddIsLegal(s, o, coin, false);
    AddThenSpend(s, o, coin, false);
    assert s.entries - {o} == s.entries;
  }

  /** Merging ignores entries that are not dirty. */
  lemma MergeIgnoresClean(parent: Layer, child: Layer, o: OutPoint)
    requires o in child ==> !child[o].isDirty
    ensures EntryAt(Merge(parent, child), o) == EntryAt(parent, o)
  {
  }

  /** A dirty entry goes down as dirty, with the coin of the child; it is fresh if the lower of the two
      layers that know the outpoint says so, and if it is spent and fresh, nothing remains of it. */
  lemma MergePassesDirty(parent: Layer, child: Layer, o: OutPoint)
    requires o in child && child[o].isDirty
    ensures var wasFresh := (if o in parent then parent[o] else child[o]).isFresh; var merged := Merge(parent, child);
      && (o in merged <==> !(child[o].coin.IsSpent() && wasFresh))
      && (o in merged ==> merged[o] == Entry(child[o].coin, true, wasFresh))
  {
  }

  /** So a coin that is created in one batch and spent in a later one leaves nothing in the parent. */
  lemma CreatedThenSpent(parent: Layer, first: Layer, second: Layer, o: OutPoint)
    requires o !in parent && o in first && first[o].isDirty && first[o].isFresh && !first[o].coin.IsSpent()
    requires o in second && second[o].isDirty && second[o].coin.IsSpent()
    ensures o !in Merge(Merge(parent, first), second)
  {
    MergePassesDirty(parent, first, o);
  }

  /** The database holds what the dirty entries say, and a spent one only where it keeps such records. */
  lemma WrittenRecords(records: Utxos, keepsNull: OutPoint -> bool, child: Layer, o: OutPoint)
    ensures var w := Written(records, keepsNull, child);
      if o in child && child[o].isDirty
      then (o in w <==> !child[o].coin.IsSpent() || keepsNull(o)) && (o in w ==> w[o] == child[o].coin)
      else RecordAt(w, o) == RecordAt(records, o)
  {
  }
}
