/** The values held by the coin cache hierarchy, and what each operation of the hierarchy does to
    them.  A `Stack` is the whole state of a view: a database at the bottom and any number of
    write-back caches on top of it.  The classes in CoinsViewCache.dfy are proved against the
    functions here; the theorems about those functions are in CoinStackTheorems.dfy. */
module CoinStack {
  import opened Basics

  datatype OutPoint = OutPoint(hash: nat, n: nat)

  /** A script and the number of heap bytes its buffer occupies, which is whatever the allocator
      made it. */
  datatype Script = Script(bytes: seq<bv8>, heapBytes: nat)
  {
    predicate IsUnspendable() {
      (|bytes| > 0 && bytes[0] == OP_RETURN) || |bytes| > MAX_SCRIPT_SIZE
    }
  }

  const OP_RETURN: bv8 := 0x6a
  const MAX_SCRIPT_SIZE := 10000

  datatype Coin = Coin(value: int, script: Script, coinBase: bool, height: nat)
  {
    predicate IsSpent() { value == -1 }

    function Usage(): nat { script.heapBytes }
  }

  const CLEARED := Coin(-1, Script([], 0), false, 0)

  datatype Entry = Entry(coin: Coin, isDirty: bool, isFresh: bool)

  type Layer = map<OutPoint, Entry>
  type Utxos = map<OutPoint, Coin>

  /** Block hashes are numbers; 0 is the null hash. */
  type BlockHash = nat

  /** `records` may hold nulled coins.  `keepsNull` says for which outpoints the database keeps such
      a record instead of erasing it when a spent coin is written. */
  datatype Stack =
    | Database(records: Utxos, keepsNull: OutPoint -> bool, best: BlockHash)
    | Cache(entries: Layer, usage: int, best: BlockHash, base: Stack)

  // ---------------------------------------------------------------- what a stack means

  /** The unspent coins seen through a layer whose parent shows `below`. */
  ghost function Overlay(below: Utxos, entries: Layer): Utxos {
    map o | o in below.Keys + entries.Keys && (o in entries ==> !entries[o].coin.IsSpent())
      :: if o in entries then entries[o].coin else below[o]
  }

  ghost function Unspent(records: Utxos): Utxos {
    map o | o in records && !records[o].IsSpent() :: records[o]
  }

  /** The plain map from outpoints to unspent coins that a stack stands for. */
  ghost function View(s: Stack): Utxos {
    match s
    case Database(records, _, _) => Unspent(records)
    case Cache(entries, _, _, base) => Overlay(View(base), entries)
  }

  function BestBlock(s: Stack): BlockHash {
    if s.Database? || s.best != 0 then s.best else BestBlock(s.base)
  }

  /** Heap bytes of all coins in a layer. */
  ghost function TotalUsage(m: Layer): nat {
    if m == map[] then 0
    else
      var o :| o in m;
      m[o].coin.Usage() + TotalUsage(m - {o})
  }

  // ---------------------------------------------------------------- the layer invariant

  /** The five states an entry may be in. */
  predicate LegalFlags(e: Entry) {
    || (!e.coin.IsSpent() && e.isDirty)
    || (!e.coin.IsSpent() && !e.isFresh && !e.isDirty)
    || (e.coin.IsSpent() && e.isFresh && !e.isDirty)
    || (e.coin.IsSpent() && !e.isFresh && e.isDirty)
  }

  ghost predicate EntryOk(o: OutPoint, e: Entry, below: Utxos) {
    && LegalFlags(e)
    && (e.isFresh ==> o !in below)
    && (!e.isDirty && !e.coin.IsSpent() ==> o in below && below[o] == e.coin)
  }

  ghost predicate LayerOk(entries: Layer, below: Utxos) {
    forall o :: o in entries ==> EntryOk(o, entries[o], below)
  }

  ghost predicate Valid(s: Stack) {
    s.Cache? ==>
      && Valid(s.base)
      && LayerOk(s.entries, View(s.base))
      && s.usage == TotalUsage(s.entries)
  }

  // ---------------------------------------------------------------- reading

  /** What CCoinsView::GetCoin returns and does: a lookup may load coins into the caches it passes. */
  function Read(s: Stack, o: OutPoint): (Stack, Option<Coin>)
    decreases s, 1
  {
    if s.Database? then
      (s, if o in s.records then Some(s.records[o]) else None)
    else
      var f := Fetch(s, o);
      (f, if o in f.entries && !f.entries[o].coin.IsSpent() then Some(f.entries[o].coin) else None)
  }

  function Fetch(s: Stack, o: OutPoint): (r: Stack)
    requires s.Cache?
    ensures r.Cache?
    decreases s, 0
  {
    if o in s.entries then s
    else
      var (below, found) := Read(s.base, o);
      match found
      case None => s.(base := below)
      case Some(coin) =>
        s.(entries := s.entries[o := Entry(coin, false, coin.IsSpent())],
           usage := s.usage + coin.Usage(),
           base := below)
  }

  // ---------------------------------------------------------------- changing the top layer

  predicate AddCoinThrows(s: Stack, o: OutPoint, coin: Coin, possibleOverwrite: bool)
    requires s.Cache?
  {
    && !coin.script.IsUnspendable()
    && !possibleOverwrite
    && o in s.entries && !s.entries[o].coin.IsSpent()
  }

  function AddCoin(s: Stack, o: OutPoint, coin: Coin, possibleOverwrite: bool): Stack
    requires s.Cache?
  {
    if coin.script.IsUnspendable() then s
    else
      var had := if o in s.entries then s.entries[o] else Entry(CLEARED, false, false);
      if AddCoinThrows(s, o, coin, possibleOverwrite) then
        s.(usage := s.usage - had.coin.Usage())
      else
        var markFresh := had.isFresh || (!possibleOverwrite && !had.isDirty);
        s.(entries := s.entries[o := Entry(coin, true, markFresh)],
           usage := s.usage - had.coin.Usage() + coin.Usage())
  }

  function SpendCoin(s: Stack, o: OutPoint): (r: Stack)
    requires s.Cache?
    ensures r.Cache?
  {
    var f := Fetch(s, o);
    if o in f.entries then SpendEntry(f, o) else f
  }

  /** The coin that SpendCoin moves out to its caller. */
  function SpentCoin(s: Stack, o: OutPoint): Coin
    requires s.Cache?
  {
    var f := Fetch(s, o);
    if o in f.entries then f.entries[o].coin else CLEARED
  }

  function SpendEntry(s: Stack, o: OutPoint): (r: Stack)
    requires s.Cache? && o in s.entries
    ensures r.Cache?
  {
    var left := s.usage - s.entries[o].coin.Usage();
    if s.entries[o].isFresh then s.(entries := s.entries - {o}, usage := left)
    else s.(entries := s.entries[o := Entry(CLEARED, true, false)], usage := left)
  }

  function Uncache(s: Stack, o: OutPoint): (r: Stack)
    requires s.Cache?
    ensures r.Cache?
  {
    if o in s.entries && !s.entries[o].isDirty && !s.entries[o].isFresh then
      s.(entries := s.entries - {o}, usage := s.usage - s.entries[o].coin.Usage())
    else s
  }

  // ---------------------------------------------------------------- writing a layer down

  /** A dirty FRESH entry written onto an unspent entry of the parent. */
  predicate MisappliedAt(parent: Layer, child: Layer, o: OutPoint) {
    && o in child && child[o].isDirty && child[o].isFresh
    && o in parent && !parent[o].coin.IsSpent()
  }

  ghost predicate Misapplied(parent: Layer, child: Layer) {
    exists o :: MisappliedAt(parent, child, o)
  }

  /** What the parent's entry becomes when the child's entry is merged into it. */
  function MergeEntry(mine: Option<Entry>, theirs: Entry): Option<Entry> {
    if !theirs.isDirty then mine
    else
      match mine
      case None =>
        if theirs.isFresh && theirs.coin.IsSpent() then None
        else Some(Entry(theirs.coin, true, theirs.isFresh))
      case Some(e) =>
        if e.isFresh && theirs.coin.IsSpent() then None
        else Some(Entry(theirs.coin, true, e.isFresh))
  }

  function EntryAt(m: Layer, o: OutPoint): Option<Entry> {
    if o in m then Some(m[o]) else None
  }

  function MergedAt(parent: Layer, child: Layer, o: OutPoint): Option<Entry> {
    if o in child then MergeEntry(EntryAt(parent, o), child[o]) else EntryAt(parent, o)
  }

  ghost function Merge(parent: Layer, child: Layer): Layer {
    map o | o in parent.Keys + child.Keys && MergedAt(parent, child, o).Some?
      :: MergedAt(parent, child, o).value
  }

  function RecordAt(m: Utxos, o: OutPoint): Option<Coin> {
    if o in m then Some(m[o]) else None
  }

  function WrittenAt(records: Utxos, keepsNull: OutPoint -> bool, child: Layer, o: OutPoint): Option<Coin> {
    if o in child && child[o].isDirty then
      if child[o].coin.IsSpent() && !keepsNull(o) then None else Some(child[o].coin)
    else RecordAt(records, o)
  }

  ghost function Written(records: Utxos, keepsNull: OutPoint -> bool, child: Layer): Utxos {
    map o | o in records.Keys + child.Keys && WrittenAt(records, keepsNull, child, o).Some?
      :: WrittenAt(records, keepsNull, child, o).value
  }

  /** The database refuses a null block hash (it asserts that it is not null). */
  predicate AcceptsHash(s: Stack, hash: BlockHash) { s.Database? ==> hash != 0 }

  ghost predicate BatchWriteThrows(s: Stack, child: Layer) {
    s.Cache? && Misapplied(s.entries, child)
  }

  ghost function BatchWrite(s: Stack, child: Layer, hash: BlockHash): Stack {
    match s
    case Database(records, keepsNull, _) => Database(Written(records, keepsNull, child), keepsNull, hash)
    case Cache(entries, usage, _, base) =>
      var merged := Merge(entries, child);
      Cache(merged, usage - TotalUsage(entries) + TotalUsage(merged), hash, base)
  }

  ghost function Flush(s: Stack): (r: Stack)
    requires s.Cache?
    ensures r.Cache?
  {
    s.(entries := map[], usage := 0, base := BatchWrite(s.base, s.entries, s.best))
  }

  ghost function Cleaned(entries: Layer): Layer {
    map o | o in entries && !entries[o].coin.IsSpent() :: Entry(entries[o].coin, false, false)
  }

  ghost function Sync(s: Stack): (r: Stack)
    requires s.Cache?
    ensures r.Cache?
  {
    s.(entries := Cleaned(s.entries),
       usage := s.usage - TotalUsage(s.entries) + TotalUsage(Cleaned(s.entries)),
       base := BatchWrite(s.base, s.entries, s.best))
  }
}
