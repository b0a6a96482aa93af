/** The state of the address manager as a value, and what each of its operations makes of it.  The
    class in AddrManImpl.dfy is proved against these functions; AddrManInvariant.dfy proves that they
    keep the five redundant structures in agreement.

    Hashes, address groups and address classes are unknown functions (`Hashing`), clocks and random
    numbers are inputs: what is proved holds for any of them. */
module AddrManState {

  const TRIED_BUCKETS := 256
  const NEW_BUCKETS := 1024
  const BUCKET_SIZE := 64
  const NEW_BUCKETS_PER_ADDRESS := 8
  const HORIZON := 30 * 24 * 3600
  const RETRIES := 3
  const MAX_FAILURES := 10
  const MIN_FAIL := 7 * 24 * 3600
  const REPLACEMENT := 4 * 3600
  const SET_TRIED_COLLISION_SIZE := 10
  const TEST_WINDOW := 40 * 60

  type TriedBucket = x: int | 0 <= x < TRIED_BUCKETS
  type NewBucket = x: int | 0 <= x < NEW_BUCKETS
  type Position = x: int | 0 <= x < BUCKET_SIZE

  type NetAddr = nat
  type Network = nat
  datatype Service = Service(net: NetAddr, port: nat)
  datatype Address = Address(svc: Service, time: int, services: bv64)

  datatype Info = Info(
    svc: Service, time: int, services: bv64, source: NetAddr,
    lastTry: int, lastCountAttempt: int, lastSuccess: int, attempts: int,
    refCount: int, inTried: bool, randomPos: int)

  datatype Hashing = Hashing(
    keyIsNull: bool,
    triedBucket: Service -> TriedBucket,
    newBucket: (Service, NetAddr) -> NewBucket,
    position: (Service, bool, int) -> Position,
    network: Service -> Network,
    netClass: Service -> Network,
    isRoutable: Service -> bool,
    isValid: Service -> bool)
  {
    /** The one slot of the tried table where an address may be. */
    function TriedSlot(svc: Service): Slot {
      var b := triedBucket(svc);
      Slot(b, position(svc, false, b))
    }

    /** The one slot of a bucket of the new table where an address may be. */
    function NewSlot(svc: Service, bucket: int): Slot {
      Slot(bucket, position(svc, true, bucket))
    }

    function HomeSlot(svc: Service, source: NetAddr): Slot {
      NewSlot(svc, newBucket(svc, source))
    }
  }

  datatype Slot = Slot(bucket: int, pos: int)
  type Table = map<Slot, int>

  datatype Counts = Counts(nNew: int, nTried: int)

  /** `fresh` is the new table (only occupied slots are keys), `rnd` the random-order vector. */
  datatype State = State(
    info: map<int, Info>, addr: map<Service, int>, rnd: seq<int>,
    newTable: Table, triedTable: Table,
    nNew: int, nTried: int, counts: map<Network, Counts>,
    collisions: set<int>, idCount: int, lastGood: int)

  const EMPTY := State(map[], map[], [], map[], map[], 0, 0, map[], {}, 0, 1)

  function CountFor(counts: map<Network, Counts>, net: Network): Counts {
    if net in counts then counts[net] else Counts(0, 0)
  }

  function Bump(counts: map<Network, Counts>, net: Network, dNew: int, dTried: int): map<Network, Counts> {
    var c := CountFor(counts, net);
    counts[net := Counts(c.nNew + dNew, c.nTried + dTried)]
  }

  function IsTerrible(e: Info, now: int): bool {
    if now - e.lastTry <= 60 then false
    else if e.time > now + 600 then true
    else if now - e.time > HORIZON then true
    else if e.lastSuccess == 0 && e.attempts >= RETRIES then true
    else now - e.lastSuccess > MIN_FAIL && e.attempts >= MAX_FAILURES
  }

  // ---------------------------------------------------------------- building blocks

  function SetInfo(s: State, id: int, e: Info): State {
    s.(info := s.info[id := e])
  }

  function Create(h: Hashing, s: State, a: Address, source: NetAddr): State {
    var id := s.idCount;
    s.(info := s.info[id := Info(a.svc, a.time, a.services, source, 0, 0, 0, 0, 0, false, |s.rnd|)],
       addr := s.addr[a.svc := id],
       rnd := s.rnd + [id],
       nNew := s.nNew + 1,
       counts := Bump(s.counts, h.network(a.svc), 1, 0),
       idCount := s.idCount + 1)
  }

  predicate CanSwap(s: State, i: int, j: int) {
    0 <= i < |s.rnd| && 0 <= j < |s.rnd| && s.rnd[i] in s.info && s.rnd[j] in s.info
  }

  function SwapRandom(s: State, i: int, j: int): State
    requires CanSwap(s, i, j)
  {
    if i == j then s
    else
      s.(info := WithPosition(WithPosition(s.info, s.rnd[i], j), s.rnd[j], i),
         rnd := s.rnd[i := s.rnd[j]][j := s.rnd[i]])
  }

  function WithPosition(info: map<int, Info>, id: int, pos: int): (r: map<int, Info>)
    requires id in info
    ensures r.Keys == info.Keys
  {
    info[id := info[id].(randomPos := pos)]
  }

  predicate CanDelete(s: State, id: int) {
    id in s.info && |s.rnd| > 0 && CanSwap(s, s.info[id].randomPos, |s.rnd| - 1)
  }

  function Delete(h: Hashing, s: State, id: int): State
    requires CanDelete(s, id)
  {
    Forget(h, SwapRandom(s, s.info[id].randomPos, |s.rnd| - 1), id)
  }

  /** Removes an entry that is last in the random-order vector. */
  function Forget(h: Hashing, s: State, id: int): State
    requires id in s.info && |s.rnd| > 0
  {
    s.(counts := Bump(s.counts, h.network(s.info[id].svc), -1, 0),
       rnd := s.rnd[..|s.rnd| - 1],
       addr := s.addr - {s.info[id].svc},
       info := s.info - {id},
       nNew := s.nNew - 1)
  }

  /** Takes one reference to its entry out of the new table. */
  function DropSlot(s: State, slot: Slot): State
    requires slot in s.newTable && s.newTable[slot] in s.info
  {
    var id := s.newTable[slot];
    SetInfo(s, id, s.info[id].(refCount := s.info[id].refCount - 1)).(newTable := s.newTable - {slot})
  }

  predicate CanClear(s: State, slot: Slot) {
    slot in s.newTable ==>
      s.newTable[slot] in s.info
      && (s.info[s.newTable[slot]].refCount == 1 ==> CanDelete(DropSlot(s, slot), s.newTable[slot]))
  }

  function ClearNew(h: Hashing, s: State, slot: Slot): State
    requires CanClear(s, slot)
  {
    if slot !in s.newTable then s
    else
      var id := s.newTable[slot];
      var t := DropSlot(s, slot);
      if t.info[id].refCount == 0 then Delete(h, t, id) else t
  }

  /** Enters one more reference to an entry into the new table. */
  function PlaceNew(s: State, id: int, slot: Slot): State
    requires id in s.info
  {
    SetInfo(s, id, s.info[id].(refCount := s.info[id].refCount + 1)).(newTable := s.newTable[slot := id])
  }

  function CountNew(h: Hashing, s: State, id: int, d: int): State
    requires id in s.info
  {
    s.(nNew := s.nNew + d, counts := Bump(s.counts, h.network(s.info[id].svc), d, 0))
  }

  /** Takes an entry out of the tried table. */
  function Demote(h: Hashing, s: State, slot: Slot): State
    requires slot in s.triedTable && s.triedTable[slot] in s.info
  {
    var id := s.triedTable[slot];
    SetInfo(s, id, s.info[id].(inTried := false))
      .(triedTable := s.triedTable - {slot}, nTried := s.nTried - 1,
        counts := Bump(s.counts, h.network(s.info[id].svc), 0, -1))
  }

  function Promote(h: Hashing, s: State, id: int): State
    requires id in s.info
  {
    SetInfo(s, id, s.info[id].(inTried := true))
      .(triedTable := s.triedTable[h.TriedSlot(s.info[id].svc) := id], nTried := s.nTried + 1,
        counts := Bump(s.counts, h.network(s.info[id].svc), 0, 1))
  }
}
