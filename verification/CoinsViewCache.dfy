/** The database view and the write-back cache view, as objects that are updated in place.  Every
    method is proved to turn the object's stack value (`Abs()`) into the value that the matching
    function of CoinStack gives. */
module CoinsViewCache {
  import opened Basics
  import opened CoinStack
  import opened CoinStackTheorems

  class CoinsViewDB {
    var records: Utxos
    var best: BlockHash
    const keepsNull: OutPoint -> bool

    constructor (records: Utxos, keepsNull: OutPoint -> bool, best: BlockHash)
      ensures Abs() == Database(records, keepsNull, best)
    {
      this.records, this.keepsNull, this.best := records, keepsNull, best;
    }

    ghost function Abs(): Stack
      reads this
    {
      Database(records, keepsNull, best)
    }

    method GetCoin(o: OutPoint) returns (found: Option<Coin>)
      ensures found == Read(Abs(), o).1
    {
      found := if o in records then Some(records[o]) else None;
    }

    /** Writes the dirty entries of `coins`, visiting them in any order; returns what is left of it. */
    method BatchWrite(coins: Layer, hash: BlockHash, erase: bool) returns (left: Layer)
      requires hash != 0
      modifies this
      ensures Abs() == CoinStack.BatchWrite(old(Abs()), coins, hash)
      ensures left == if erase then map[] else coins
    {
      var order := IterationOrder(coins);
      left := coins;
      for i := 0 to |order|
        invariant left == if erase then Rest(coins, order, i) else coins
        invariant best == old(best)
        invariant records == WriteInOrder(old(records), keepsNull, coins, order, i)
      {
        records := CoinStackTheorems.WriteOne(records, keepsNull, order[i], coins[order[i]]);
        if erase { left := left - {order[i]}; }
      }
      best := hash;
      NothingLeft(coins, order);
      WriteOrderIrrelevant(old(records), keepsNull, coins, order);
    }
  }

  /** Some order of the keys: a loop over an unordered map promises no particular one. */
  method IterationOrder(m: Layer) returns (order: seq<OutPoint>)
    ensures IsOrder(order, m)
  {
    order := [];
    var todo := m.Keys;
    while todo != {}
      invariant todo <= m.Keys
      invariant forall i, j :: 0 <= i < j < |order| ==> order[i] != order[j]
      invariant forall o :: o in order <==> o in m && o !in todo
      decreases |todo|
    {
      var o :| o in todo;
      order := order + [o];
      todo := todo - {o};
    }
  }

  /** A view pointer: the database, or another cache. */
  datatype Base = ToDb(db: CoinsViewDB) | ToCache(cache: CoinsViewCache)

  class CoinsViewCache {
    const base: Base
    var cacheCoins: Layer
    var cachedCoinsUsage: int
    var hashBlock: BlockHash

    ghost const Repr: set<object>
    ghost const Depth: nat

    /** The chain of base pointers is finite and never comes back to this object. */
    ghost predicate Linked()
      ensures Linked() ==> this in Repr
      decreases Depth
    {
      match base
      case ToDb(db) => Repr == {this, db}
      case ToCache(c) => c.Depth < Depth && c.Linked() && this !in c.Repr && Repr == {this} + c.Repr
    }

    ghost function AbsBase(): Stack
      requires Linked()
      reads Repr - {this}
      decreases Depth, 0
    {
      match base
      case ToDb(db) => db.Abs()
      case ToCache(c) => c.Abs()
    }

    ghost function Abs(): (s: Stack)
      requires Linked()
      reads Repr
      ensures s.Cache?
      decreases Depth, 1
    {
      Cache(cacheCoins, cachedCoinsUsage, hashBlock, AbsBase())
    }

    constructor OnDb(db: CoinsViewDB)
      ensures Linked() && Abs() == Cache(map[], 0, 0, db.Abs())
    {
      base, cacheCoins, cachedCoinsUsage, hashBlock := ToDb(db), map[], 0, 0;
      Repr, Depth := {this, db}, 0;
    }

    constructor OnCache(c: CoinsViewCache)
      requires c.Linked()
      ensures Linked() && Abs() == Cache(map[], 0, 0, c.Abs())
    {
      base, cacheCoins, cachedCoinsUsage, hashBlock := ToCache(c), map[], 0, 0;
      Repr, Depth := {this} + c.Repr, c.Depth + 1;
    }

    /** Loads the coin from the base when this cache has no entry for it. */
    method FetchCoin(o: OutPoint)
      requires Linked()
      modifies Repr
      ensures Abs() == Fetch(old(Abs()), o)
      decreases Depth, 0
    {
      if o in cacheCoins { return; }
      var found: Option<Coin>;
      match base {
        case ToDb(db) => found := db.GetCoin(o);
        case ToCache(c) => found := c.GetCoin(o);
      }
      if found.Some? {
        cacheCoins := cacheCoins[o := Entry(found.value, false, found.value.IsSpent())];
        cachedCoinsUsage := cachedCoinsUsage + found.value.Usage();
      }
    }

    method GetCoin(o: OutPoint) returns (found: Option<Coin>)
      requires Linked()
      modifies Repr
      ensures (Abs(), found) == Read(old(Abs()), o)
      ensures old(Valid(Abs())) ==>
        && Valid(Abs()) && View(Abs()) == old(View(Abs()))
        && found == RecordAt(View(Abs()), o)
      decreases Depth, 1
    {
      ghost var was := Abs();
      FetchCoin(o);
      found := if o in cacheCoins && !cacheCoins[o].coin.IsSpent() then Some(cacheCoins[o].coin) else None;
      if Valid(was) { ReadIsLookup(was, o); }
    }

    method HaveCoin(o: OutPoint) returns (have: bool)
      requires Linked()
      modifies Repr
      ensures Abs() == Read(old(Abs()), o).0
      ensures old(Valid(Abs())) ==> (have <==> o in old(View(Abs())))
    {
      ghost var was := Abs();
      FetchCoin(o);
      have := o in cacheCoins && !cacheCoins[o].coin.IsSpent();
      if Valid(was) { ReadIsLookup(was, o); }
    }

    /** Returns a cleared coin where nothing was found; otherwise what the cache holds, spent or not. */
    method AccessCoin(o: OutPoint) returns (coin: Coin)
      requires Linked()
      modifies Repr
      ensures Abs() == Fetch(old(Abs()), o)
      ensures old(Valid(Abs())) ==> (coin.IsSpent() <==> o !in old(View(Abs())))
      ensures old(Valid(Abs())) && !coin.IsSpent() ==> coin == old(View(Abs()))[o]
    {
      ghost var was := Abs();
      FetchCoin(o);
      coin := if o in cacheCoins then cacheCoins[o].coin else CLEARED;
      if Valid(was) { FetchIsLookup(was, o); }
    }

    method AddCoin(o: OutPoint, coin: Coin, possibleOverwrite: bool) returns (threw: bool)
      requires Linked()
      requires !coin.IsSpent()
      modifies `cacheCoins, `cachedCoinsUsage
      ensures Abs() == CoinStack.AddCoin(old(Abs()), o, coin, possibleOverwrite)
      ensures threw <==> AddCoinThrows(old(Abs()), o, coin, possibleOverwrite)
    {
      if coin.script.IsUnspendable() { return false; }
      var inserted := o !in cacheCoins;
      var entry := if inserted then Entry(CLEARED, false, false) else cacheCoins[o];
      var markFresh := false;
      if !inserted {
        cachedCoinsUsage := cachedCoinsUsage - entry.coin.Usage();
      }
      if !possibleOverwrite {
        if !entry.coin.IsSpent() {
          return true;
        }
        markFresh := !entry.isDirty;
      }
      cacheCoins := cacheCoins[o := Entry(coin, true, entry.isFresh || markFresh)];
      cachedCoinsUsage := cachedCoinsUsage + coin.Usage();
      threw := false;
    }

    method SpendCoin(o: OutPoint) returns (found: bool, moveOut: Coin)
      requires Linked()
      modifies Repr
      ensures Abs() == CoinStack.SpendCoin(old(Abs()), o)
      ensures found <==> o in Fetch(old(Abs()), o).entries
      ensures moveOut == SpentCoin(old(Abs()), o)
    {
      FetchCoin(o);
      if o !in cacheCoins { return false, CLEARED; }
      cachedCoinsUsage := cachedCoinsUsage - cacheCoins[o].coin.Usage();
      moveOut := cacheCoins[o].coin;
      if cacheCoins[o].isFresh {
        cacheCoins := cacheCoins - {o};
      } else {
        cacheCoins := cacheCoins[o := Entry(CLEARED, true, false)];
      }
      found := true;
    }

    method Uncache(o: OutPoint)
      requires Linked()
      modifies `cacheCoins, `cachedCoinsUsage
      ensures Abs() == CoinStack.Uncache(old(Abs()), o)
      ensures o in cacheCoins ==> cacheCoins[o].isDirty || cacheCoins[o].isFresh
    {
      if o in cacheCoins && !cacheCoins[o].isDirty && !cacheCoins[o].isFresh {
        cachedCoinsUsage := cachedCoinsUsage - cacheCoins[o].coin.Usage();
        cacheCoins := cacheCoins - {o};
      }
    }

    method GetBestBlock() returns (hash: BlockHash)
      requires Linked()
      modifies Repr
      ensures hash == BestBlock(old(Abs())) == BestBlock(Abs())
      ensures hashBlock == hash && cacheCoins == old(cacheCoins) && cachedCoinsUsage == old(cachedCoinsUsage)
      ensures View(Abs()) == old(View(Abs())) && (old(Valid(Abs())) ==> Valid(Abs()))
      decreases Depth
    {
      if hashBlock == 0 {
        match base {
          case ToDb(db) => hashBlock := db.best;
          case ToCache(c) => var h := c.GetBestBlock(); hashBlock := h;
        }
      }
      hash := hashBlock;
    }

    method SetBestBlock(hash: BlockHash)
      requires Linked()
      modifies `hashBlock
      ensures Abs() == Cache(old(Abs()).entries, old(Abs()).usage, hash, old(Abs()).base)
    {
      hashBlock := hash;
    }

    /** Merges the dirty entries of a child's map, visited in any order, into this cache; returns
        what is left of that map.  Throws exactly when a FRESH entry meets an unspent one here. */
    method BatchWrite(coins: Layer, hash: BlockHash, erase: bool) returns (threw: bool, left: Layer)
      requires Linked()
      modifies `cacheCoins, `cachedCoinsUsage, `hashBlock
      ensures threw <==> BatchWriteThrows(old(Abs()), coins)
      ensures !threw ==> Abs() == CoinStack.BatchWrite(old(Abs()), coins, hash)
      ensures !threw ==> left == if erase then map[] else coins
    {
      var order := IterationOrder(coins);
      threw, left := MergeAll(coins, order, erase);
      if threw {
        return;
      }
      hashBlock := hash;
      NoneMisapplied(old(cacheCoins), coins, order);
      MergeOrderIrrelevant(old(cacheCoins), coins, order);
    }

    /** BatchWrite's loop. */
    method MergeAll(coins: Layer, order: seq<OutPoint>, erase: bool) returns (threw: bool, left: Layer)
      requires IsOrder(order, coins)
      modifies `cacheCoins, `cachedCoinsUsage
      ensures threw ==> Misapplied(old(cacheCoins), coins)
      ensures !threw ==> forall k :: 0 <= k < |order| ==> !MisappliedAt(old(cacheCoins), coins, order[k])
      ensures !threw ==> cacheCoins == MergeInOrder(old(cacheCoins), coins, order, |order|)
      ensures cachedCoinsUsage == old(cachedCoinsUsage) - TotalUsage(old(cacheCoins)) + TotalUsage(cacheCoins)
      ensures !threw ==> left == if erase then map[] else coins
    {
      left := coins;
      for i := 0 to |order|
        invariant left == if erase then Rest(coins, order, i) else coins
        invariant cacheCoins == MergeInOrder(old(cacheCoins), coins, order, i)
        invariant cachedCoinsUsage == old(cachedCoinsUsage) - TotalUsage(old(cacheCoins)) + TotalUsage(cacheCoins)
        invariant forall k :: 0 <= k < i ==> !MisappliedAt(old(cacheCoins), coins, order[k])
      {
        NextVisit(old(cacheCoins), coins, order, i);
        var misapplied := MergeInto(coins, order[i]);
        if misapplied {
          return true, left;
        }
        if erase { left := left - {order[i]}; }
      }
      threw := false;
      NothingLeft(coins, order);
    }

    /** The body of BatchWrite's loop. */
    method MergeInto(coins: Layer, o: OutPoint) returns (misapplied: bool)
      requires o in coins
      modifies `cacheCoins, `cachedCoinsUsage
      ensures misapplied <==> MisappliedAt(old(cacheCoins), coins, o)
      ensures !misapplied ==> cacheCoins == MergeOne(old(cacheCoins), o, coins[o])
      ensures cachedCoinsUsage == old(cachedCoinsUsage) - TotalUsage(old(cacheCoins)) + TotalUsage(cacheCoins)
    {
      var e := coins[o];
      misapplied := false;
      if !e.isDirty {
        return;
      }
      if o !in cacheCoins {
        if !(e.isFresh && e.coin.IsSpent()) {
          TotalUsageUpdate(cacheCoins, o, Entry(e.coin, true, e.isFresh));
          cacheCoins := cacheCoins[o := Entry(e.coin, true, e.isFresh)];
          cachedCoinsUsage := cachedCoinsUsage + e.coin.Usage();
        }
      } else {
        var us := cacheCoins[o];
        if e.isFresh && !us.coin.IsSpent() {
          return true;
        }
        if us.isFresh && e.coin.IsSpent() {
          TotalUsageWithout(cacheCoins, o);
          cachedCoinsUsage := cachedCoinsUsage - us.coin.Usage();
          cacheCoins := cacheCoins - {o};
        } else {
          TotalUsageUpdate(cacheCoins, o, Entry(e.coin, true, us.isFresh));
          cachedCoinsUsage := cachedCoinsUsage - us.coin.Usage() + e.coin.Usage();
          cacheCoins := cacheCoins[o := Entry(e.coin, true, us.isFresh)];
        }
      }
    }

    /** Writes this cache to its base. */
    method WriteToBase(erase: bool) returns (threw: bool, left: Layer)
      requires Linked()
      requires AcceptsHash(AbsBase(), hashBlock)
      modifies Repr - {this}
      ensures threw <==> BatchWriteThrows(old(AbsBase()), cacheCoins)
      ensures !threw ==> AbsBase() == CoinStack.BatchWrite(old(AbsBase()), cacheCoins, hashBlock)
      ensures !threw ==> left == if erase then map[] else cacheCoins
    {
      match base {
        case ToDb(db) => left := db.BatchWrite(cacheCoins, hashBlock, erase); threw := false;
        case ToCache(c) => threw, left := c.BatchWrite(cacheCoins, hashBlock, erase);
      }
    }

    /** In a valid stack nothing is thrown: neither the misapplied FRESH flag nor the check that
        BatchWrite erased every entry. */
    method Flush() returns (threw: bool)
      requires Linked()
      requires AcceptsHash(AbsBase(), hashBlock)
      modifies Repr
      ensures threw <==> BatchWriteThrows(old(AbsBase()), old(cacheCoins))
      ensures !threw ==> Abs() == CoinStack.Flush(old(Abs()))
      ensures !threw ==> cacheCoins == map[] && cachedCoinsUsage == 0
      ensures old(Valid(Abs())) ==> !threw && Valid(Abs()) && View(Abs()) == View(AbsBase()) == old(View(Abs()))
    {
      ghost var was := Abs();
      var left: Layer;
      threw, left := WriteToBase(true);
      if !threw {
        cacheCoins := left;
        if cacheCoins != map[] {
          threw := true;
          return;
        }
        cachedCoinsUsage := 0;
        assert Abs() == CoinStack.Flush(was);
      }
      if Valid(was) {
        FlushKeepsView(was);
      }
    }

    /** Writes this cache to its base, then drops spent entries and cleans the flags of the rest. */
    method Sync() returns (threw: bool)
      requires Linked()
      requires AcceptsHash(AbsBase(), hashBlock)
      modifies Repr
      ensures threw <==> BatchWriteThrows(old(AbsBase()), old(cacheCoins))
      ensures !threw ==> Abs() == CoinStack.Sync(old(Abs()))
      ensures !threw ==> UnspentCleaned(old(cacheCoins), cacheCoins)
      ensures old(Valid(Abs())) ==> !threw && Valid(Abs()) && View(Abs()) == View(AbsBase()) == old(View(Abs()))
    {
      ghost var was := Abs();
      var left: Layer;
      threw, left := WriteToBase(false);
      if !threw {
        cacheCoins := left;
        CleanUp();
        CleanedIs(was.entries);
        assert Abs() == CoinStack.Sync(was);
      }
      if Valid(was) {
        SyncKeepsView(was);
      }
    }

    method CleanUp()
      requires Linked()
      modifies `cacheCoins, `cachedCoinsUsage
      ensures cacheCoins == Cleaned(old(cacheCoins))
      ensures cachedCoinsUsage == old(cachedCoinsUsage) - TotalUsage(old(cacheCoins)) + TotalUsage(cacheCoins)
    {
      var order := IterationOrder(cacheCoins);
      for i := 0 to |order|
        invariant cacheCoins == CleanInOrder(old(cacheCoins), order[..i])
        invariant cachedCoinsUsage == old(cachedCoinsUsage) - TotalUsage(old(cacheCoins)) + TotalUsage(cacheCoins)
      {
        var o := order[i];
        assert order[..i + 1][..i] == order[..i];
        assert EntryAt(cacheCoins, o) == EntryAt(old(cacheCoins), o);
        var e := cacheCoins[o];
        if e.coin.IsSpent() {
          TotalUsageWithout(cacheCoins, o);
          cachedCoinsUsage := cachedCoinsUsage - e.coin.Usage();
          cacheCoins := cacheCoins - {o};
        } else {
          TotalUsageUpdate(cacheCoins, o, Entry(e.coin, false, false));
          cacheCoins := cacheCoins[o := Entry(e.coin, false, false)];
        }
      }
      assert order[..|order|] == order;
      SameLayer(cacheCoins, Cleaned(old(cacheCoins)));
    }

    /** The run-time self check passes exactly when all flags are legal and the usage is exact. */
    method SanityCheck() returns (ok: bool)
      requires Linked()
      ensures ok <==>
        (forall o :: o in cacheCoins ==> LegalFlags(cacheCoins[o])) && cachedCoinsUsage == TotalUsage(cacheCoins)
      ensures Valid(Abs()) ==> ok
    {
      var todo := cacheCoins;
      var recomputed := 0;
      while todo != map[]
        invariant forall o :: o in todo ==> o in cacheCoins && todo[o] == cacheCoins[o]
        invariant forall o :: o in cacheCoins && o !in todo ==> LegalFlags(cacheCoins[o])
        invariant recomputed + TotalUsage(todo) == TotalUsage(cacheCoins)
        decreases |todo|
      {
        var o :| o in todo;
        var e := todo[o];
        var attr := (if e.isDirty then 1 else 0) + (if e.isFresh then 2 else 0) + (if e.coin.IsSpent() then 4 else 0);
        if attr == 2 || attr == 4 || attr == 7 {
          return false;
        }
        recomputed := recomputed + e.coin.Usage();
        TotalUsageWithout(todo, o);
        todo := todo - {o};
      }
      ok := recomputed == cachedCoinsUsage;
    }
  }
}
