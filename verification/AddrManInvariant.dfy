/** What it means for the redundant structures of the address manager to agree, and the proof that
    each building block keeps them in agreement. */
module AddrManInvariant {
  import opened AddrManState

  type Infos = map<int, Info>

  /** Only ids that were handed out are in use. */
  ghost predicate IdsBelow(info: Infos, idCount: int) { forall id :: id in info ==> 0 <= id < idCount }

  /** Every address in the address map belongs to the entry that it leads to. */
  ghost predicate AddrOk(info: Infos, addr: map<Service, int>) {
    forall a :: a in addr ==> addr[a] in info && info[addr[a]].svc == a
  }

  /** Every id knows its place in the random-order vector, and the other way round. */
  ghost predicate Positions(info: Infos, rnd: seq<int>) {
    && (forall id :: id in info ==> 0 <= info[id].randomPos < |rnd| && rnd[info[id].randomPos] == id)
    && (forall i :: 0 <= i < |rnd| ==> rnd[i] in info && info[rnd[i]].randomPos == i)
  }

  /** Ids, addresses and the random-order vector name the same entries, one to one. */
  ghost predicate IndexOk(info: Infos, addr: map<Service, int>, rnd: seq<int>, idCount: int) {
    && IdsBelow(info, idCount)
    && (forall id :: id in info ==> info[id].svc in addr && addr[info[id].svc] == id)
    && AddrOk(info, addr)
    && Positions(info, rnd)
  }

  /** Every tried entry is in exactly its own slot, and nothing else is in the tried table. */
  ghost predicate TriedOk(h: Hashing, info: Infos, tried: Table) {
    && (forall t :: t in tried ==>
          tried[t] in info && info[tried[t]].inTried && t == h.TriedSlot(info[tried[t]].svc))
    && (forall id :: id in info && info[id].inTried ==>
          h.TriedSlot(info[id].svc) in tried && tried[h.TriedSlot(info[id].svc)] == id)
  }

  predicate HeldAt(h: Hashing, table: Table, id: int, svc: Service, b: int) {
    h.NewSlot(svc, b) in table && table[h.NewSlot(svc, b)] == id
  }

  /** The buckets of the new table that hold an entry. */
  ghost function Held(h: Hashing, table: Table, id: int, svc: Service): set<int> {
    set b | 0 <= b < NEW_BUCKETS && HeldAt(h, table, id, svc, b)
  }

  /** Every occupied slot of the new table is the right one for an entry that is not tried. */
  ghost predicate NewSlotsOk(h: Hashing, info: Infos, table: Table) {
    forall t :: t in table ==>
      && table[t] in info && !info[table[t]].inTried
      && 0 <= t.bucket < NEW_BUCKETS && t == h.NewSlot(info[table[t]].svc, t.bucket)
  }

  /** Reference counts are exact and within their limits; only a `loose` entry may have none. */
  ghost predicate RefsOk(h: Hashing, info: Infos, table: Table, loose: set<int>) {
    forall id :: id in info ==>
      && info[id].refCount == |Held(h, table, id, info[id].svc)|
      && info[id].refCount <= NEW_BUCKETS_PER_ADDRESS
      && (!info[id].inTried && id !in loose ==> info[id].refCount >= 1)
      && (info[id].inTried ==> info[id].refCount == 0 && id !in loose)
  }

  datatype Class = Uncounted | AsNew | AsTried

  /** How an id is counted; entries in `limbo` are between the tables and not counted at all. */
  function ClassOf(info: Infos, limbo: set<int>, id: int): Class {
    if id !in info || id in limbo then Uncounted
    else if info[id].inTried then AsTried
    else AsNew
  }

  ghost function Ids(info: Infos, limbo: set<int>, c: Class): set<int> {
    set id | id in info && ClassOf(info, limbo, id) == c
  }

  ghost function IdsOn(h: Hashing, info: Infos, limbo: set<int>, c: Class, net: Network): set<int> {
    set id | id in info && ClassOf(info, limbo, id) == c && h.network(info[id].svc) == net
  }

  ghost function TrueCounts(h: Hashing, info: Infos, limbo: set<int>, net: Network): Counts {
    Counts(|IdsOn(h, info, limbo, AsNew, net)|, |IdsOn(h, info, limbo, AsTried, net)|)
  }

  /** All counters are exact. */
  ghost predicate CountsOk(h: Hashing, info: Infos, limbo: set<int>, nNew: int, nTried: int, counts: map<Network,
                           Counts>) {
    && nNew == |Ids(info, limbo, AsNew)|
    && nTried == |Ids(info, limbo, AsTried)|
    && forall net :: CountFor(counts, net) == TrueCounts(h, info, limbo, net)
  }

  ghost predicate TimesOk(info: Infos) {
    forall id :: id in info ==>
      && info[id].lastTry >= 0 && info[id].lastSuccess >= 0
      && (info[id].inTried ==> info[id].lastSuccess != 0)
  }

  /** Agreement of the structures in the middle of an operation: entries in `limbo` are out of both
      tables and counters, `loose` ones may have no reference yet. */
  ghost predicate Core(h: Hashing, s: State, limbo: set<int>, loose: set<int>) {
    && IndexOk(s.info, s.addr, s.rnd, s.idCount)
    && TriedOk(h, s.info, s.triedTable)
    && NewSlotsOk(h, s.info, s.newTable)
    && RefsOk(h, s.info, s.newTable, loose + limbo)
    && CountsOk(h, s.info, limbo, s.nNew, s.nTried, s.counts)
    && TimesOk(s.info)
    && (forall id :: id in limbo ==> id in s.info)
    && s.idCount >= 0
  }

  /** Waiting collisions are few and name ids already handed out; the slot that a known one is
      waiting for is occupied. */
  ghost predicate CollisionsOk(h: Hashing, s: State) {
    && |s.collisions| <= SET_TRIED_COLLISION_SIZE
    && (forall id :: id in s.collisions ==> 0 <= id < s.idCount)
    && (forall id :: id in s.collisions && id in s.info ==> h.TriedSlot(s.info[id].svc) in s.triedTable)
  }

  ghost predicate Inv(h: Hashing, s: State) {
    Core(h, s, {}, {}) && CollisionsOk(h, s) && !h.keyIsNull
  }

  // ---------------------------------------------------------------- sizes after one change

  lemma SizeStep(a: set<int>, b: set<int>, x: int)
    requires forall y :: y != x ==> (y in a <==> y in b)
    ensures |b| == |a| + (if x in b then 1 else 0) - (if x in a then 1 else 0)
  {
    forall y ensures y in a - {x} <==> y in b - {x} { }
    assert a - {x} == b - {x};
    assert |a - {x}| == |a| - (if x in a then 1 else 0);
    assert |b - {x}| == |b| - (if x in b then 1 else 0);
  }

  function One(b: bool): int { if b then 1 else 0 }

  /** Only this id may have changed its class or come or gone. */
  ghost predicate OnlyAt(info: Infos, infoT: Infos, limbo: set<int>, limboT: set<int>, id: int) {
    forall x :: x != id ==>
      && (x in info <==> x in infoT) && (x in limbo <==> x in limboT)
      && (x in info ==> info[x].svc == infoT[x].svc && info[x].inTried == infoT[x].inTried)
  }

  lemma IdsStep(info: Infos, infoT: Infos, limbo: set<int>, limboT: set<int>, id: int, c: Class)
    requires OnlyAt(info, infoT, limbo, limboT, id) && c != Uncounted
    ensures |Ids(infoT, limboT, c)|
      == |Ids(info, limbo, c)| + One(ClassOf(infoT, limboT, id) == c) - One(ClassOf(info, limbo, id) == c)
  {
    SizeStep(Ids(info, limbo, c), Ids(infoT, limboT, c), id);
  }

  lemma IdsOnStep(h: Hashing, info: Infos, infoT: Infos, limbo: set<int>, limboT: set<int>, id: int, svc: Service,
                  c: Class, net: Network)
    requires OnlyAt(info, infoT, limbo, limboT, id) && c != Uncounted
    requires (id in info ==> info[id].svc == svc) && (id in infoT ==> infoT[id].svc == svc)
    ensures |IdsOn(h, infoT, limboT, c, net)| == |IdsOn(h, info, limbo, c, net)|
      + if net == h.network(svc) then One(ClassOf(infoT, limboT, id) == c) - One(ClassOf(info, limbo, id) == c) else 0
  {
    SizeStep(IdsOn(h, info, limbo, c, net), IdsOn(h, infoT, limboT, c, net), id);
  }

  /** Exact counters stay exact when they move by the change of class of the one id that changed. */
  lemma CountsStep(h: Hashing, info: Infos, infoT: Infos, limbo: set<int>, limboT: set<int>, id: int, svc: Service,
                   nNew: int, nTried: int, counts: map<Network, Counts>)
    requires CountsOk(h, info, limbo, nNew, nTried, counts)
    requires OnlyAt(info, infoT, limbo, limboT, id)
    requires (id in info ==> info[id].svc == svc) && (id in infoT ==> infoT[id].svc == svc)
    ensures var dNew := One(ClassOf(infoT, limboT, id) == AsNew) - One(ClassOf(info, limbo, id) == AsNew);
      var dTried := One(ClassOf(infoT, limboT, id) == AsTried) - One(ClassOf(info, limbo, id) == AsTried);
      && CountsOk(h, infoT, limboT, nNew + dNew, nTried + dTried, Bump(counts, h.network(svc), dNew, dTried))
      && (dNew == dTried == 0 ==> CountsOk(h, infoT, limboT, nNew, nTried, counts))
  {
    hide OnlyAt, Ids, IdsOn, ClassOf;
    IdsStep(info, infoT, limbo, limboT, id, AsNew);
    IdsStep(info, infoT, limbo, limboT, id, AsTried);
    var dNew := One(ClassOf(infoT, limboT, id) == AsNew) - One(ClassOf(info, limbo, id) == AsNew);
    var dTried := One(ClassOf(infoT, limboT, id) == AsTried) - One(ClassOf(info, limbo, id) == AsTried);
    var countsT := Bump(counts, h.network(svc), dNew, dTried);
    forall net
      ensures CountFor(countsT, net) == TrueCounts(h, infoT, limboT, net)
      ensures dNew == dTried == 0 ==> CountFor(counts, net) == TrueCounts(h, infoT, limboT, net)
    {
      assert CountFor(counts, net) == TrueCounts(h, info, limbo, net);
      IdsOnStep(h, info, infoT, limbo, limboT, id, svc, AsNew, net);
      IdsOnStep(h, info, infoT, limbo, limboT, id, svc, AsTried, net);
    }
  }

  /** Changing one slot changes how often an address is held only in that slot's bucket. */
  lemma HeldStep(h: Hashing, before: Table, after: Table, slot: Slot, id: int, svc: Service)
    requires 0 <= slot.bucket < NEW_BUCKETS
    requires forall t :: t != slot ==> (t in before <==> t in after) && (t in before ==> before[t] == after[t])
    ensures |Held(h, after, id, svc)| == |Held(h, before, id, svc)|
      + One(HeldAt(h, after, id, svc, slot.bucket)) - One(HeldAt(h, before, id, svc, slot.bucket))
  {
    SizeStep(Held(h, before, id, svc), Held(h, after, id, svc), slot.bucket);
  }

  // ---------------------------------------------------------------- single facts of the parts

  lemma PositionOf(info: Infos, addr: map<Service, int>, rnd: seq<int>, idCount: int, id: int)
    requires IndexOk(info, addr, rnd, idCount) && id in info
    ensures 0 <= info[id].randomPos < |rnd| && rnd[info[id].randomPos] == id
    ensures 0 <= id < idCount && info[id].svc in addr && addr[info[id].svc] == id
  {
  }

  lemma PositionAt(info: Infos, addr: map<Service, int>, rnd: seq<int>, idCount: int, i: int)
    requires IndexOk(info, addr, rnd, idCount) && 0 <= i < |rnd|
    ensures rnd[i] in info && info[rnd[i]].randomPos == i
  {
  }

  lemma FreshId(info: Infos, addr: map<Service, int>, rnd: seq<int>, idCount: int)
    requires IndexOk(info, addr, rnd, idCount)
    ensures idCount !in info
  {
  }

  lemma HeldSomewhere(h: Hashing, info: Infos, table: Table, slot: Slot)
    requires NewSlotsOk(h, info, table) && slot in table
    ensures |Held(h, table, table[slot], info[table[slot]].svc)| >= 1
  {
    var id := table[slot];
    assert HeldAt(h, table, id, info[id].svc, slot.bucket);
    assert slot.bucket in Held(h, table, id, info[id].svc);
  }

  lemma NewSlotFacts(h: Hashing, info: Infos, table: Table, slot: Slot, loose: set<int>)
    requires NewSlotsOk(h, info, table) && RefsOk(h, info, table, loose) && slot in table
    ensures var id := table[slot];
      && id in info && !info[id].inTried && 1 <= info[id].refCount <= NEW_BUCKETS_PER_ADDRESS
      && 0 <= slot.bucket < NEW_BUCKETS && slot == h.NewSlot(info[id].svc, slot.bucket)
  {
    HeldSomewhere(h, info, table, slot);
  }

  lemma TriedSlotFacts(h: Hashing, info: Infos, tried: Table, table: Table, slot: Slot, loose: set<int>)
    requires TriedOk(h, info, tried) && RefsOk(h, info, table, loose) && slot in tried
    ensures var id := tried[slot];
      && id in info && info[id].inTried && info[id].refCount == 0 && id !in loose
      && slot == h.TriedSlot(info[id].svc)
  {
  }

  lemma LooseNotTried(h: Hashing, info: Infos, table: Table, id: int, loose: set<int>)
    requires RefsOk(h, info, table, loose) && id in loose && id in info
    ensures !info[id].inTried
  {
  }

  lemma RefsWeaken(h: Hashing, info: Infos, table: Table, loose: set<int>, looser: set<int>)
    requires RefsOk(h, info, table, loose) && loose <= looser
    requires forall id :: id in looser && id !in loose && id in info ==> !info[id].inTried
    ensures RefsOk(h, info, table, looser)
  {
  }

  lemma RefsTighten(h: Hashing, info: Infos, table: Table, id: int, loose: set<int>)
    requires RefsOk(h, info, table, loose) && (id in info ==> info[id].refCount >= 1)
    ensures RefsOk(h, info, table, loose - {id})
  {
  }

  // ---------------------------------------------------------------- changes of one entry

  /** An entry changes in fields that a part does not look at. */
  lemma IndexFrame(info: Infos, infoT: Infos, addr: map<Service, int>, rnd: seq<int>, idCount: int)
    requires IndexOk(info, addr, rnd, idCount) && info.Keys == infoT.Keys
    requires forall x :: x in info ==> infoT[x].svc == info[x].svc && infoT[x].randomPos == info[x].randomPos
    ensures IndexOk(infoT, addr, rnd, idCount)
  {
  }

  lemma TriedFrame(h: Hashing, info: Infos, infoT: Infos, tried: Table)
    requires TriedOk(h, info, tried) && info.Keys == infoT.Keys
    requires forall x :: x in info ==> infoT[x].svc == info[x].svc && infoT[x].inTried == info[x].inTried
    ensures TriedOk(h, infoT, tried)
  {
    forall t | t in tried
      ensures tried[t] in infoT && infoT[tried[t]].inTried && t == h.TriedSlot(infoT[tried[t]].svc)
    {
      var id := tried[t];
      assert id in info && infoT[id].svc == info[id].svc && infoT[id].inTried == info[id].inTried;
    }
  }

  lemma NewFrame(h: Hashing, info: Infos, infoT: Infos, table: Table, loose: set<int>)
    requires NewSlotsOk(h, info, table) && RefsOk(h, info, table, loose) && info.Keys == infoT.Keys
    requires forall x :: x in info ==>
      infoT[x].svc == info[x].svc && infoT[x].inTried == info[x].inTried && infoT[x].refCount == info[x].refCount
    ensures NewSlotsOk(h, infoT, table) && RefsOk(h, infoT, table, loose)
  {
    forall t | t in table
      ensures table[t] in infoT && !infoT[table[t]].inTried && t == h.NewSlot(infoT[table[t]].svc, t.bucket)
    {
      var id := table[t];
      assert id in info && infoT[id].svc == info[id].svc && infoT[id].inTried == info[id].inTried;
    }
  }

  lemma CountsFrame(h: Hashing, info: Infos, infoT: Infos, limbo: set<int>, nNew: int, nTried: int,
                    counts: map<Network, Counts>)
    requires CountsOk(h, info, limbo, nNew, nTried, counts) && info.Keys == infoT.Keys
    requires forall x :: x in info ==> infoT[x].svc == info[x].svc && infoT[x].inTried == info[x].inTried
    ensures CountsOk(h, infoT, limbo, nNew, nTried, counts)
  {
    assert Ids(infoT, limbo, AsNew) == Ids(info, limbo, AsNew);
    assert Ids(infoT, limbo, AsTried) == Ids(info, limbo, AsTried);
    forall net ensures TrueCounts(h, infoT, limbo, net) == TrueCounts(h, info, limbo, net) {
      assert IdsOn(h, infoT, limbo, AsNew, net) == IdsOn(h, info, limbo, AsNew, net);
      assert IdsOn(h, infoT, limbo, AsTried, net) == IdsOn(h, info, limbo, AsTried, net);
    }
  }

  /** Fields that no table depends on may differ. */
  predicate SameRole(a: Info, b: Info) {
    a.svc == b.svc && a.refCount == b.refCount && a.inTried == b.inTried && a.randomPos == b.randomPos
  }

  lemma SetInfoKeepsCore(h: Hashing, s: State, id: int, e: Info, limbo: set<int>, loose: set<int>)
    requires Core(h, s, limbo, loose) && id in s.info && SameRole(s.info[id], e)
    requires e.lastTry >= 0 && e.lastSuccess >= 0 && (e.inTried ==> e.lastSuccess != 0)
    ensures Core(h, SetInfo(s, id, e), limbo, loose)
  {
    hide IndexOk, TriedOk, NewSlotsOk, RefsOk, CountsOk;
    var infoT := s.info[id := e];
    assert infoT.Keys == s.info.Keys;
    CountsFrame(h, s.info, infoT, limbo, s.nNew, s.nTried, s.counts);
    IndexFrame(s.info, infoT, s.addr, s.rnd, s.idCount);
    TriedFrame(h, s.info, infoT, s.triedTable);
    NewFrame(h, s.info, infoT, s.newTable, loose + limbo);
  }

  // ---------------------------------------------------------------- Create

  lemma CreateNew(h: Hashing, info: Infos, table: Table, id: int, e: Info)
    requires NewSlotsOk(h, info, table) && RefsOk(h, info, table, {}) && id !in info
    requires e.refCount == 0 && !e.inTried
    ensures NewSlotsOk(h, info[id := e], table) && RefsOk(h, info[id := e], table, {id})
  {
    forall b | 0 <= b < NEW_BUCKETS ensures !HeldAt(h, table, id, e.svc, b) { }
    assert Held(h, table, id, e.svc) == {};
  }

  lemma CreateIndex(info: Infos, addr: map<Service, int>, rnd: seq<int>, idCount: int, e: Info)
    requires IndexOk(info, addr, rnd, idCount) && e.svc !in addr && idCount >= 0 && e.randomPos == |rnd|
    ensures IndexOk(info[idCount := e], addr[e.svc := idCount], rnd + [idCount], idCount + 1)
  {
  }

  lemma CreateTried(h: Hashing, info: Infos, tried: Table, id: int, e: Info)
    requires TriedOk(h, info, tried) && id !in info && !e.inTried
    ensures TriedOk(h, info[id := e], tried)
  {
  }

  lemma CreateKeepsCore(h: Hashing, s: State, a: Address, source: NetAddr)
    requires Core(h, s, {}, {}) && a.svc !in s.addr
    ensures Core(h, Create(h, s, a, source), {}, {s.idCount})
  {
    hide IndexOk, TriedOk, NewSlotsOk, RefsOk, CountsOk, TimesOk, Bump;
    FreshId(s.info, s.addr, s.rnd, s.idCount);
    var id, e := s.idCount, Create(h, s, a, source).info[s.idCount];
    CreateIndex(s.info, s.addr, s.rnd, s.idCount, e);
    CreateTried(h, s.info, s.triedTable, id, e);
    var none: set<int> := {};
    assert none + none == none && {id} + none == {id};
    CreateNew(h, s.info, s.newTable, id, e);
    CreateCounts(h, s.info, id, e, s.nNew, s.nTried, s.counts);
    CreateTimes(s.info, id, e);
  }

  lemma CreateTimes(info: Infos, id: int, e: Info)
    requires TimesOk(info) && e.lastTry == 0 && e.lastSuccess == 0 && !e.inTried
    ensures TimesOk(info[id := e])
  {
  }

  lemma CreateCounts(h: Hashing, info: Infos, id: int, e: Info, nNew: int, nTried: int, counts: map<Network, Counts>)
    requires CountsOk(h, info, {}, nNew, nTried, counts) && id !in info && !e.inTried
    ensures CountsOk(h, info[id := e], {}, nNew + 1, nTried, Bump(counts, h.network(e.svc), 1, 0))
  {
    hide CountsOk;
    CountsStep(h, info, info[id := e], {}, {}, id, e.svc, nNew, nTried, counts);
  }

  // ---------------------------------------------------------------- SwapRandom

  predicate Moved(e: Info, f: Info) { f == e.(randomPos := f.randomPos) }

  /** All entries are as before, up to their places in the random-order vector. */
  ghost predicate AllMoved(info: Infos, infoT: Infos) {
    && infoT.Keys == info.Keys
    && forall x :: x in info ==> Moved(info[x], infoT[x])
  }

  function SwappedPos(rnd: seq<int>, i: int, j: int, x: int, pos: int): int
    requires 0 <= i < |rnd| && 0 <= j < |rnd|
  {
    if x == rnd[i] then j else if x == rnd[j] then i else pos
  }

  lemma TwoPositions(info: Infos, rnd: seq<int>, i: int, j: int)
    requires 0 <= i < |rnd| && 0 <= j < |rnd| && rnd[i] in info && rnd[j] in info && rnd[i] != rnd[j]
    ensures var infoT := WithPosition(WithPosition(info, rnd[i], j), rnd[j], i);
      && AllMoved(info, infoT)
      && (forall x :: x in info ==> infoT[x].randomPos == SwappedPos(rnd, i, j, x, info[x].randomPos))
  {
  }

  lemma PositionsSwapped(info: Infos, infoT: Infos, rnd: seq<int>, i: int, j: int)
    requires Positions(info, rnd) && 0 <= i < |rnd| && 0 <= j < |rnd| && infoT.Keys == info.Keys
    requires forall x :: x in info ==> infoT[x].randomPos == SwappedPos(rnd, i, j, x, info[x].randomPos)
    ensures Positions(infoT, rnd[i := rnd[j]][j := rnd[i]])
  {
    var rndT := rnd[i := rnd[j]][j := rnd[i]];
    forall k | 0 <= k < |rndT| ensures rndT[k] in infoT && infoT[rndT[k]].randomPos == k {
      assert rnd[k] in info && info[rnd[k]].randomPos == k;
      assert rnd[i] in info && info[rnd[i]].randomPos == i;
      assert rnd[j] in info && info[rnd[j]].randomPos == j;
      if k == j {
      } else if k == i {
      }
    }
    forall id | id in infoT ensures 0 <= infoT[id].randomPos < |rndT| && rndT[infoT[id].randomPos] == id {
      assert rnd[info[id].randomPos] == id;
    }
  }

  lemma SwapIndex(info: Infos, infoT: Infos, addr: map<Service, int>, rnd: seq<int>, idCount: int, i: int, j: int)
    requires IndexOk(info, addr, rnd, idCount) && 0 <= i < |rnd| && 0 <= j < |rnd|
    requires infoT.Keys == info.Keys
    requires forall x :: x in info ==> infoT[x].svc == info[x].svc
    requires forall x :: x in info ==> infoT[x].randomPos == SwappedPos(rnd, i, j, x, info[x].randomPos)
    ensures IndexOk(infoT, addr, rnd[i := rnd[j]][j := rnd[i]], idCount)
  {
    hide Positions;
    PositionsSwapped(info, infoT, rnd, i, j);
  }

  /** Two entries have changed places in the random-order vector and nothing else happened. */
  ghost predicate Swapped(s: State, t: State, i: int, j: int)
    requires 0 <= i < |s.rnd| && 0 <= j < |s.rnd|
  {
    && t == s.(info := t.info, rnd := t.rnd) && t.rnd == s.rnd[i := s.rnd[j]][j := s.rnd[i]]
    && AllMoved(s.info, t.info) && IndexOk(t.info, t.addr, t.rnd, t.idCount)
  }

  lemma SwapRandomFacts(s: State, i: int, j: int)
    requires IndexOk(s.info, s.addr, s.rnd, s.idCount) && 0 <= i < |s.rnd| && 0 <= j < |s.rnd|
    ensures CanSwap(s, i, j) && Swapped(s, SwapRandom(s, i, j), i, j)
  {
    hide IndexOk;
    PositionAt(s.info, s.addr, s.rnd, s.idCount, i);
    PositionAt(s.info, s.addr, s.rnd, s.idCount, j);
    if i != j {
      TwoPositions(s.info, s.rnd, i, j);
      hide WithPosition, AllMoved;
      var infoT := WithPosition(WithPosition(s.info, s.rnd[i], j), s.rnd[j], i);
      MovedServices(s.info, infoT);
      SwapIndex(s.info, infoT, s.addr, s.rnd, s.idCount, i, j);
    } else {
      assert s.rnd[i := s.rnd[j]][j := s.rnd[i]] == s.rnd;
    }
  }

  lemma MovedServices(info: Infos, infoT: Infos)
    requires AllMoved(info, infoT)
    ensures infoT.Keys == info.Keys && forall x :: x in info ==> infoT[x].svc == info[x].svc
  {
    forall x | x in info ensures infoT[x].svc == info[x].svc {
      assert Moved(info[x], infoT[x]);
    }
  }

  lemma MovedKeepsCore(h: Hashing, s: State, t: State, limbo: set<int>, loose: set<int>)
    requires Core(h, s, limbo, loose) && t == s.(info := t.info, rnd := t.rnd)
    requires AllMoved(s.info, t.info) && IndexOk(t.info, t.addr, t.rnd, t.idCount)
    ensures Core(h, t, limbo, loose)
  {
    hide IndexOk, TriedOk, NewSlotsOk, RefsOk, CountsOk;
    CountsFrame(h, s.info, t.info, limbo, s.nNew, s.nTried, s.counts);
    TriedFrame(h, s.info, t.info, s.triedTable);
    NewFrame(h, s.info, t.info, s.newTable, loose + limbo);
  }

  lemma SwapRandomKeepsCore(h: Hashing, s: State, i: int, j: int, limbo: set<int>, loose: set<int>)
    requires Core(h, s, limbo, loose) && 0 <= i < |s.rnd| && 0 <= j < |s.rnd|
    ensures CanSwap(s, i, j) && Core(h, SwapRandom(s, i, j), limbo, loose)
    ensures AllMoved(s.info, SwapRandom(s, i, j).info)
  {
    SwapRandomFacts(s, i, j);
    hide IndexOk, TriedOk, NewSlotsOk, RefsOk, CountsOk;
    MovedKeepsCore(h, s, SwapRandom(s, i, j), limbo, loose);
  }

  // ---------------------------------------------------------------- Delete

  lemma DropIndex(info: Infos, addr: map<Service, int>, rnd: seq<int>, idCount: int, id: int)
    requires IndexOk(info, addr, rnd, idCount) && id in info && |rnd| > 0 && info[id].randomPos == |rnd| - 1
    ensures IndexOk(info - {id}, addr - {info[id].svc}, rnd[..|rnd| - 1], idCount)
  {
  }

  lemma DropTried(h: Hashing, info: Infos, tried: Table, id: int)
    requires TriedOk(h, info, tried) && id in info && !info[id].inTried
    ensures TriedOk(h, info - {id}, tried)
  {
  }

  /** An entry without references is in no slot of the new table. */
  lemma UnreferencedNotHeld(h: Hashing, info: Infos, table: Table, id: int)
    requires NewSlotsOk(h, info, table) && id in info && |Held(h, table, id, info[id].svc)| == 0
    ensures forall y :: y in table ==> table[y] != id
  {
    forall y | y in table ensures table[y] != id {
      HeldSomewhere(h, info, table, y);
    }
  }

  lemma DropNew(h: Hashing, info: Infos, table: Table, id: int, loose: set<int>)
    requires NewSlotsOk(h, info, table) && RefsOk(h, info, table, loose) && id in info && info[id].refCount == 0
    ensures NewSlotsOk(h, info - {id}, table) && RefsOk(h, info - {id}, table, loose - {id})
  {
    UnreferencedNotHeld(h, info, table, id);
  }

  predicate SameElsewhere(s: State, t: State) {
    && t.triedTable == s.triedTable && t.nTried == s.nTried
    && t.collisions == s.collisions && t.idCount == s.idCount && t.lastGood == s.lastGood
  }

  ghost predicate Deleted(h: Hashing, s: State, t: State, id: int)
    requires id in s.info
  {
    && SameElsewhere(s, t) && t.newTable == s.newTable
    && t.nNew == s.nNew - 1 && t.counts == Bump(s.counts, h.network(s.info[id].svc), -1, 0)
    && AllMoved(s.info - {id}, t.info)
    && IndexOk(t.info, t.addr, t.rnd, t.idCount)
  }

  /** Deleting forgets one entry and moves others in the random-order vector. */
  lemma DeleteFacts(h: Hashing, s: State, id: int)
    requires IndexOk(s.info, s.addr, s.rnd, s.idCount) && id in s.info
    ensures CanDelete(s, id)
    ensures Deleted(h, s, Delete(h, s, id), id)
  {
    hide SwapRandom, CanSwap, IndexOk, Swapped, Forget, Deleted;
    PositionOf(s.info, s.addr, s.rnd, s.idCount, id);
    SwapRandomFacts(s, s.info[id].randomPos, |s.rnd| - 1);
    ForgetFacts(h, s, SwapRandom(s, s.info[id].randomPos, |s.rnd| - 1), id);
  }

  lemma ForgetFacts(h: Hashing, s: State, u: State, id: int)
    requires id in s.info && 0 <= s.info[id].randomPos < |s.rnd| && s.rnd[s.info[id].randomPos] == id
    requires Swapped(s, u, s.info[id].randomPos, |s.rnd| - 1)
    ensures id in u.info && |u.rnd| > 0
    ensures Deleted(h, s, Forget(h, u, id), id)
  {
    hide IndexOk, Bump, AllMoved;
    MovedServices(s.info, u.info);
    DropLast(s.info, u.info, u.addr, u.rnd, u.idCount, id);
  }

  lemma DropLast(info: Infos, infoT: Infos, addr: map<Service, int>, rnd: seq<int>, idCount: int, id: int)
    requires IndexOk(infoT, addr, rnd, idCount) && AllMoved(info, infoT)
    requires id in info && |rnd| > 0 && rnd[|rnd| - 1] == id
    ensures IndexOk(infoT - {id}, addr - {info[id].svc}, rnd[..|rnd| - 1], idCount)
    ensures AllMoved(info - {id}, infoT - {id})
  {
    PositionAt(infoT, addr, rnd, idCount, |rnd| - 1);
    hide IndexOk;
    MovedServices(info, infoT);
    DropIndex(infoT, addr, rnd, idCount, id);
    MovedRest(info, infoT, id);
  }

  lemma MovedRest(info: Infos, infoT: Infos, id: int)
    requires AllMoved(info, infoT)
    ensures AllMoved(info - {id}, infoT - {id})
  {
  }

  lemma DeleteKeepsCore(h: Hashing, s: State, id: int, limbo: set<int>, loose: set<int>)
    requires Core(h, s, limbo, loose) && id in s.info && id !in limbo
    requires !s.info[id].inTried && s.info[id].refCount == 0
    ensures CanDelete(s, id) && Core(h, Delete(h, s, id), limbo, loose - {id})
  {
    DeleteFacts(h, s, id);
    hide IndexOk, TriedOk, NewSlotsOk, RefsOk, CountsOk;
    var t := Delete(h, s, id);
    hide Delete;
    ForgetKeepsCore(h, s, t, id, limbo, loose);
  }

  lemma ForgetKeepsCore(h: Hashing, s: State, t: State, id: int, limbo: set<int>, loose: set<int>)
    requires Core(h, s, limbo, loose) && id in s.info && id !in limbo
    requires !s.info[id].inTried && s.info[id].refCount == 0
    requires Deleted(h, s, t, id)
    ensures Core(h, t, limbo, loose - {id})
  {
    hide IndexOk, TriedOk, NewSlotsOk, RefsOk, CountsOk;
    var rest := s.info - {id};
    DropTried(h, s.info, s.triedTable, id);
    TriedFrame(h, rest, t.info, s.triedTable);
    DropNew(h, s.info, s.newTable, id, loose + limbo);
    assert loose + limbo - {id} == loose - {id} + limbo;
    NewFrame(h, rest, t.info, s.newTable, loose - {id} + limbo);
    CountsStep(h, s.info, rest, limbo, limbo, id, s.info[id].svc, s.nNew, s.nTried, s.counts);
    CountsFrame(h, rest, t.info, limbo, t.nNew, t.nTried, t.counts);
  }

  // ---------------------------------------------------------------- slots of the new table

  lemma RefChange(h: Hashing, s: State, id: int, r: int, limbo: set<int>, loose: set<int>)
    requires Core(h, s, limbo, loose) && id in s.info
    ensures var infoT := s.info[id := s.info[id].(refCount := r)];
      && IndexOk(infoT, s.addr, s.rnd, s.idCount) && TriedOk(h, infoT, s.triedTable)
      && CountsOk(h, infoT, limbo, s.nNew, s.nTried, s.counts) && TimesOk(infoT)
  {
    hide IndexOk, TriedOk, NewSlotsOk, RefsOk, CountsOk;
    var infoT := s.info[id := s.info[id].(refCount := r)];
    assert infoT.Keys == s.info.Keys;
    IndexFrame(s.info, infoT, s.addr, s.rnd, s.idCount);
    TriedFrame(h, s.info, infoT, s.triedTable);
    CountsFrame(h, s.info, infoT, limbo, s.nNew, s.nTried, s.counts);
  }

  lemma DropSlotNew(h: Hashing, info: Infos, table: Table, slot: Slot, loose: set<int>)
    requires NewSlotsOk(h, info, table) && RefsOk(h, info, table, loose) && slot in table
    ensures var id := table[slot]; var infoT := info[id := info[id].(refCount := info[id].refCount - 1)];
      NewSlotsOk(h, infoT, table - {slot}) && RefsOk(h, infoT, table - {slot}, loose + {id})
  {
    var id := table[slot];
    var infoT, tableT := info[id := info[id].(refCount := info[id].refCount - 1)], table - {slot};
    forall x | x in infoT ensures infoT[x].refCount == |Held(h, tableT, x, infoT[x].svc)| {
      HeldStep(h, table, tableT, slot, x, info[x].svc);
      assert info[x].refCount == |Held(h, table, x, info[x].svc)|;
    }
  }

  lemma DropSlotKeepsCore(h: Hashing, s: State, slot: Slot, limbo: set<int>, loose: set<int>)
    requires Core(h, s, limbo, loose) && slot in s.newTable
    ensures Core(h, DropSlot(s, slot), limbo, loose + {s.newTable[slot]})
  {
    NewSlotFacts(h, s.info, s.newTable, slot, loose + limbo);
    hide IndexOk, TriedOk, NewSlotsOk, RefsOk, CountsOk;
    var id := s.newTable[slot];
    RefChange(h, s, id, s.info[id].refCount - 1, limbo, loose);
    DropSlotNew(h, s.info, s.newTable, slot, loose + limbo);
    assert loose + limbo + {id} == loose + {id} + limbo;
  }

  lemma PlaceSlotNew(h: Hashing, info: Infos, table: Table, id: int, slot: Slot, loose: set<int>)
    requires NewSlotsOk(h, info, table) && RefsOk(h, info, table, loose) && id in info && !info[id].inTried
    requires 0 <= slot.bucket < NEW_BUCKETS && slot == h.NewSlot(info[id].svc, slot.bucket)
    requires slot !in table && info[id].refCount < NEW_BUCKETS_PER_ADDRESS
    ensures var infoT := info[id := info[id].(refCount := info[id].refCount + 1)];
      NewSlotsOk(h, infoT, table[slot := id]) && RefsOk(h, infoT, table[slot := id], loose - {id})
  {
    var infoT, tableT := info[id := info[id].(refCount := info[id].refCount + 1)], table[slot := id];
    forall x | x in infoT ensures infoT[x].refCount == |Held(h, tableT, x, infoT[x].svc)| {
      HeldStep(h, table, tableT, slot, x, info[x].svc);
      assert info[x].refCount == |Held(h, table, x, info[x].svc)|;
    }
  }

  lemma PlaceNewKeepsCore(h: Hashing, s: State, id: int, slot: Slot, limbo: set<int>, loose: set<int>)
    requires Core(h, s, limbo, loose) && id in s.info && !s.info[id].inTried
    requires 0 <= slot.bucket < NEW_BUCKETS && slot == h.NewSlot(s.info[id].svc, slot.bucket)
    requires slot !in s.newTable && s.info[id].refCount < NEW_BUCKETS_PER_ADDRESS
    ensures Core(h, PlaceNew(s, id, slot), limbo, loose - {id})
  {
    hide IndexOk, TriedOk, NewSlotsOk, RefsOk, CountsOk;
    var t := PlaceNew(s, id, slot);
    RefChange(h, s, id, s.info[id].refCount + 1, limbo, loose);
    PlaceSlotNew(h, s.info, s.newTable, id, slot, loose + limbo);
    RefsWeaken(h, t.info, t.newTable, loose + limbo - {id}, loose - {id} + limbo);
  }

  /** Only the place in the vector and the reference count of an entry may differ. */
  predicate Recounted(e: Info, f: Info) { f == e.(randomPos := f.randomPos, refCount := f.refCount) }

  ghost predicate ClearedOf(info: Infos, infoT: Infos, id: int) {
    && (forall x :: x in infoT ==> x in info && Recounted(info[x], infoT[x]))
    && (forall x :: x in info && x != id ==> x in infoT && Moved(info[x], infoT[x]))
  }

  lemma MovedAndRecounted(info: Infos, infoT: Infos, id: int)
    requires id in info && AllMoved(info[id := info[id].(refCount := info[id].refCount - 1)] - {id}, infoT)
    ensures ClearedOf(info, infoT, id)
  {
  }

  lemma DropSlotFacts(s: State, slot: Slot)
    requires IndexOk(s.info, s.addr, s.rnd, s.idCount) && slot in s.newTable && s.newTable[slot] in s.info
    ensures var id := s.newTable[slot]; var u := DropSlot(s, slot);
      && SameElsewhere(s, u) && u.newTable == s.newTable - {slot}
      && u.info == s.info[id := s.info[id].(refCount := s.info[id].refCount - 1)]
      && IndexOk(u.info, u.addr, u.rnd, u.idCount)
  {
    var id := s.newTable[slot];
    IndexFrame(s.info, s.info[id := s.info[id].(refCount := s.info[id].refCount - 1)], s.addr, s.rnd, s.idCount);
    hide IndexOk;
  }

  lemma ClearNewFacts(h: Hashing, s: State, slot: Slot)
    requires IndexOk(s.info, s.addr, s.rnd, s.idCount)
    requires slot in s.newTable ==> s.newTable[slot] in s.info
    ensures CanClear(s, slot)
    ensures var t := ClearNew(h, s, slot);
      && SameElsewhere(s, t) && t.newTable == s.newTable - {slot}
      && (slot !in s.newTable ==> t == s)
      && (slot in s.newTable ==> ClearedOf(s.info, t.info, s.newTable[slot]))
  {
    assert slot !in s.newTable ==> s.newTable - {slot} == s.newTable;
    if slot in s.newTable {
      var id, u := s.newTable[slot], DropSlot(s, slot);
      DropSlotFacts(s, slot);
      DeleteFacts(h, u, id);
      hide DropSlot, Delete, CanDelete, IndexOk, Bump;
      if u.info[id].refCount == 0 {
        MovedAndRecounted(s.info, Delete(h, u, id).info, id);
      } else {
        OnlyRecounted(s.info, id, u.info[id]);
      }
      hide ClearedOf, AllMoved;
    }
  }

  lemma OnlyRecounted(info: Infos, id: int, e: Info)
    requires id in info && Recounted(info[id], e)
    ensures ClearedOf(info, info[id := e], id)
  {
  }

  lemma CoreSlot(h: Hashing, s: State, slot: Slot, limbo: set<int>, loose: set<int>)
    requires Core(h, s, limbo, loose) && slot in s.newTable
    ensures var id := s.newTable[slot]; id in s.info && !s.info[id].inTried && s.info[id].refCount >= 1
  {
    NewSlotFacts(h, s.info, s.newTable, slot, loose + limbo);
  }

  /** An entry that lost a slot goes if that was its last one. */
  lemma LastSlotKeepsCore(h: Hashing, u: State, id: int, limbo: set<int>, loose: set<int>)
    requires Core(h, u, limbo, loose + {id}) && id in u.info && !u.info[id].inTried && id !in limbo && id !in loose
    ensures u.info[id].refCount == 0 ==>
      CanDelete(u, id) && Core(h, Delete(h, u, id), limbo, loose) && id !in Delete(h, u, id).info
    ensures u.info[id].refCount >= 1 ==> Core(h, u, limbo, loose)
  {
    hide IndexOk, TriedOk, NewSlotsOk, RefsOk, CountsOk, TimesOk;
    assert loose + {id} - {id} == loose && loose + {id} + limbo - {id} == loose + limbo;
    if u.info[id].refCount == 0 {
      DeleteFacts(h, u, id);
      DeleteKeepsCore(h, u, id, limbo, loose + {id});
    } else if u.info[id].refCount >= 1 {
      RefsTighten(h, u.info, u.newTable, id, loose + {id} + limbo);
    }
  }

  /** Clearing a slot drops its entry exactly when that was the entry's last reference. */
  lemma ClearNewKeepsCore(h: Hashing, s: State, slot: Slot, limbo: set<int>, loose: set<int>)
    requires Core(h, s, limbo, loose)
    requires slot in s.newTable ==> s.newTable[slot] !in limbo && s.newTable[slot] !in loose
    ensures CanClear(s, slot) && Core(h, ClearNew(h, s, slot), limbo, loose)
    ensures slot in s.newTable ==>
      s.newTable[slot] in s.info
      && (s.newTable[slot] in ClearNew(h, s, slot).info <==> s.info[s.newTable[slot]].refCount > 1)
  {
    hide Core, Delete, CanDelete;
    if slot in s.newTable {
      CoreSlot(h, s, slot, limbo, loose);
      DropSlotKeepsCore(h, s, slot, limbo, loose);
      LastSlotKeepsCore(h, DropSlot(s, slot), s.newTable[slot], limbo, loose);
    }
  }

  // ---------------------------------------------------------------- in and out of the counters

  lemma UncountNewKeepsCore(h: Hashing, s: State, id: int, limbo: set<int>, loose: set<int>)
    requires Core(h, s, limbo, loose) && id in s.info && !s.info[id].inTried && id !in limbo
    ensures Core(h, CountNew(h, s, id, -1), limbo + {id}, loose - {id})
  {
    hide IndexOk, TriedOk, NewSlotsOk, RefsOk, CountsOk;
    CountsStep(h, s.info, s.info, limbo, limbo + {id}, id, s.info[id].svc, s.nNew, s.nTried, s.counts);
    RefsWeaken(h, s.info, s.newTable, loose + limbo, loose - {id} + (limbo + {id}));
  }

  lemma CountNewKeepsCore(h: Hashing, s: State, id: int, limbo: set<int>, loose: set<int>)
    requires Core(h, s, limbo, loose) && id in limbo && s.info[id].refCount >= 1
    ensures Core(h, CountNew(h, s, id, 1), limbo - {id}, loose - {id})
  {
    LooseNotTried(h, s.info, s.newTable, id, loose + limbo);
    hide IndexOk, TriedOk, NewSlotsOk, RefsOk, CountsOk;
    CountsStep(h, s.info, s.info, limbo, limbo - {id}, id, s.info[id].svc, s.nNew, s.nTried, s.counts);
    RefsTighten(h, s.info, s.newTable, id, loose + limbo);
    assert loose + limbo - {id} == loose - {id} + (limbo - {id});
  }

  // ---------------------------------------------------------------- in and out of the tried table

  lemma DemoteNew(h: Hashing, info: Infos, table: Table, id: int, loose: set<int>)
    requires NewSlotsOk(h, info, table) && RefsOk(h, info, table, loose) && id in info && info[id].inTried
    ensures var infoT := info[id := info[id].(inTried := false)];
      NewSlotsOk(h, infoT, table) && RefsOk(h, infoT, table, loose + {id})
  {
  }

  lemma DemoteTried(h: Hashing, info: Infos, tried: Table, slot: Slot)
    requires TriedOk(h, info, tried) && slot in tried
    ensures TriedOk(h, info[tried[slot] := info[tried[slot]].(inTried := false)], tried - {slot})
  {
  }

  lemma DemoteKeepsCore(h: Hashing, s: State, slot: Slot, limbo: set<int>, loose: set<int>)
    requires Core(h, s, limbo, loose) && slot in s.triedTable
    ensures s.triedTable[slot] in s.info && Core(h, Demote(h, s, slot), limbo + {s.triedTable[slot]}, loose)
  {
    hide IndexOk, TriedOk, NewSlotsOk, RefsOk, CountsOk, TimesOk;
    TriedSlotFacts(h, s.info, s.triedTable, s.newTable, slot, loose + limbo);
    var id := s.triedTable[slot];
    TurnFrame(s, id, false);
    DemoteTried(h, s.info, s.triedTable, slot);
    DemoteNew(h, s.info, s.newTable, id, loose + limbo);
    assert loose + limbo + {id} == loose + (limbo + {id});
    TurnCounts(h, s, id, limbo, limbo + {id});
  }

  lemma TurnCounts(h: Hashing, s: State, id: int, limbo: set<int>, limboT: set<int>)
    requires CountsOk(h, s.info, limbo, s.nNew, s.nTried, s.counts) && id in s.info
    requires (s.info[id].inTried && id !in limbo && limboT == limbo + {id})
          || (!s.info[id].inTried && id in limbo && limboT == limbo - {id})
    ensures var b := id in limbo; var d := if b then 1 else -1;
      CountsOk(h, s.info[id := s.info[id].(inTried := b)], limboT, s.nNew, s.nTried + d, Bump(s.counts,
          h.network(s.info[id].svc), 0, d))
  {
    hide CountsOk;
    var infoT := s.info[id := s.info[id].(inTried := id in limbo)];
    CountsStep(h, s.info, infoT, limbo, limboT, id, s.info[id].svc, s.nNew, s.nTried, s.counts);
  }

  lemma TurnFrame(s: State, id: int, b: bool)
    requires IndexOk(s.info, s.addr, s.rnd, s.idCount) && id in s.info
    requires TimesOk(s.info) && (b ==> s.info[id].lastSuccess != 0)
    ensures IndexOk(s.info[id := s.info[id].(inTried := b)], s.addr, s.rnd, s.idCount)
    ensures TimesOk(s.info[id := s.info[id].(inTried := b)])
  {
  }

  lemma PromoteNew(h: Hashing, info: Infos, table: Table, id: int, loose: set<int>)
    requires NewSlotsOk(h, info, table) && RefsOk(h, info, table, loose) && id in info && info[id].refCount == 0
    ensures var infoT := info[id := info[id].(inTried := true)];
      NewSlotsOk(h, infoT, table) && RefsOk(h, infoT, table, loose - {id})
  {
    UnreferencedNotHeld(h, info, table, id);
  }

  lemma PromoteTried(h: Hashing, info: Infos, tried: Table, id: int)
    requires TriedOk(h, info, tried) && id in info && h.TriedSlot(info[id].svc) !in tried
    ensures TriedOk(h, info[id := info[id].(inTried := true)], tried[h.TriedSlot(info[id].svc) := id])
  {
  }

  lemma PromoteKeepsCore(h: Hashing, s: State, id: int, limbo: set<int>, loose: set<int>)
    requires Core(h, s, limbo, loose) && id in limbo && s.info[id].refCount == 0
    requires h.TriedSlot(s.info[id].svc) !in s.triedTable && s.info[id].lastSuccess != 0
    ensures Core(h, Promote(h, s, id), limbo - {id}, loose - {id})
  {
    LooseNotTried(h, s.info, s.newTable, id, loose + limbo);
    hide IndexOk, TriedOk, NewSlotsOk, RefsOk, CountsOk, TimesOk;
    TurnFrame(s, id, true);
    PromoteTried(h, s.info, s.triedTable, id);
    PromoteNew(h, s.info, s.newTable, id, loose + limbo);
    TurnCounts(h, s, id, limbo, limbo - {id});
    assert loose + limbo - {id} == loose - {id} + (limbo - {id});
  }

  // ---------------------------------------------------------------- single facts of the core

  lemma CoreTriedSlot(h: Hashing, s: State, limbo: set<int>, loose: set<int>, slot: Slot)
    requires Core(h, s, limbo, loose) && slot in s.triedTable
    ensures var id := s.triedTable[slot];
      && id in s.info && s.info[id].inTried && s.info[id].refCount == 0 && id !in limbo && id !in loose
      && slot == h.TriedSlot(s.info[id].svc)
  {
    TriedSlotFacts(h, s.info, s.triedTable, s.newTable, slot, loose + limbo);
  }

  lemma CoreNewSlot(h: Hashing, s: State, limbo: set<int>, loose: set<int>, slot: Slot)
    requires Core(h, s, limbo, loose) && slot in s.newTable
    ensures var id := s.newTable[slot];
      && id in s.info && !s.info[id].inTried && 1 <= s.info[id].refCount <= NEW_BUCKETS_PER_ADDRESS
      && 0 <= slot.bucket < NEW_BUCKETS && slot == h.NewSlot(s.info[id].svc, slot.bucket)
  {
    NewSlotFacts(h, s.info, s.newTable, slot, loose + limbo);
  }

  lemma CoreEntry(h: Hashing, s: State, limbo: set<int>, loose: set<int>, id: int)
    requires Core(h, s, limbo, loose) && id in s.info
    ensures 0 <= id < s.idCount && s.info[id].svc in s.addr && s.addr[s.info[id].svc] == id
    ensures s.info[id].refCount == |Held(h, s.newTable, id, s.info[id].svc)| <= NEW_BUCKETS_PER_ADDRESS
    ensures s.info[id].lastTry >= 0 && s.info[id].lastSuccess >= 0
    ensures s.info[id].inTried ==> s.info[id].lastSuccess != 0
    ensures s.info[id].inTried ==>
      h.TriedSlot(s.info[id].svc) in s.triedTable && s.triedTable[h.TriedSlot(s.info[id].svc)] == id
    ensures !s.info[id].inTried && id !in limbo && id !in loose ==> s.info[id].refCount >= 1
  {
    PositionOf(s.info, s.addr, s.rnd, s.idCount, id);
  }

  lemma CoreAddress(h: Hashing, s: State, limbo: set<int>, loose: set<int>, svc: Service)
    requires Core(h, s, limbo, loose) && svc in s.addr
    ensures s.addr[svc] in s.info && s.info[s.addr[svc]].svc == svc
  {
  }

  lemma CoreLimbo(h: Hashing, s: State, limbo: set<int>, loose: set<int>, id: int)
    requires Core(h, s, limbo, loose) && id in limbo
    ensures id in s.info && !s.info[id].inTried
  {
    LooseNotTried(h, s.info, s.newTable, id, loose + limbo);
  }

  lemma CoreClear(h: Hashing, s: State, limbo: set<int>, loose: set<int>, slot: Slot)
    requires Core(h, s, limbo, loose)
    ensures CanClear(s, slot)
    ensures var t := ClearNew(h, s, slot);
      && SameElsewhere(s, t) && t.newTable == s.newTable - {slot}
      && (slot !in s.newTable ==> t == s)
      && (slot in s.newTable ==> ClearedOf(s.info, t.info, s.newTable[slot]))
  {
    hide IndexOk;
    ClearNewFacts(h, s, slot);
  }

  lemma CoreDeletable(h: Hashing, s: State, limbo: set<int>, loose: set<int>, id: int)
    requires Core(h, s, limbo, loose) && id in s.info
    ensures CanDelete(s, id) && Deleted(h, s, Delete(h, s, id), id)
  {
    hide IndexOk, Deleted;
    DeleteFacts(h, s, id);
  }

  lemma CoreIds(h: Hashing, s: State, limbo: set<int>, loose: set<int>)
    requires Core(h, s, limbo, loose)
    ensures s.idCount >= 0
    ensures forall svc :: svc in s.addr ==> s.addr[svc] >= 0
  {
  }
}
