/** The cuckoo cache as an object over arrays, with its bit-packed collection flags, proved against
    the functions of CuckooState. */
module CuckooCache {
  import opened Basics
  import opened CuckooState
  import opened CuckooTheorems

  type Bit = k: int | 0 <= k < 8

  function Mask(k: Bit): bv8 {
    match k
    case 0 => 0x01
    case 1 => 0x02
    case 2 => 0x04
    case 3 => 0x08
    case 4 => 0x10
    case 5 => 0x20
    case 6 => 0x40
    case _ => 0x80
  }

  /** Whether the k-th flag of a byte is set, and the byte with it set or cleared. */
  predicate BitIsSet(m: bv8, k: Bit) { (Mask(k) & m) != 0 }

  function WithBit(m: bv8, k: Bit): bv8 { m | Mask(k) }

  function WithoutBit(m: bv8, k: Bit): bv8 { m & !Mask(k) }

  lemma SettingABit(m: bv8, k: Bit, j: Bit)
    ensures BitIsSet(WithBit(m, k), j) <==> k == j || BitIsSet(m, j)
    ensures BitIsSet(WithoutBit(m, k), j) <==> k != j && BitIsSet(m, j)
    ensures BitIsSet(0xFF, j)
  {
    SettingOneBit(m, k, j);
    ClearingOneBit(m, k, j);
    AllBitsSet(j);
    hide BitIsSet, WithBit, WithoutBit;
  }

  lemma SettingOneBit(m: bv8, k: Bit, j: Bit)
    ensures BitIsSet(WithBit(m, k), j) <==> k == j || BitIsSet(m, j)
  {
  }

  lemma ClearingOneBit(m: bv8, k: Bit, j: Bit)
    ensures BitIsSet(WithoutBit(m, k), j) <==> k != j && BitIsSet(m, j)
  {
  }

  lemma AllBitsSet(j: Bit)
    ensures BitIsSet(0xFF, j)
  {
  }

  /** The flags that a row of bytes stands for. */
  function Unpacked(bytes: seq<bv8>): (flags: seq<bool>)
    ensures |flags| == 8 * |bytes|
  {
    seq(8 * |bytes|, s requires 0 <= s < 8 * |bytes| => BitIsSet(bytes[s / 8], s % 8))
  }

  lemma SetFlag(bytes: seq<bv8>, s: nat)
    requires s < 8 * |bytes|
    ensures Unpacked(bytes[s / 8 := WithBit(bytes[s / 8], s % 8)]) == Unpacked(bytes)[s := true]
  {
    hide Mask, BitIsSet, WithBit;
    var after := Unpacked(bytes[s / 8 := WithBit(bytes[s / 8], s % 8)]);
    forall t | 0 <= t < |after| ensures after[t] == Unpacked(bytes)[s := true][t] {
      SettingABit(bytes[s / 8], s % 8, t % 8);
    }
  }

  lemma UnsetFlag(bytes: seq<bv8>, s: nat)
    requires s < 8 * |bytes|
    ensures Unpacked(bytes[s / 8 := WithoutBit(bytes[s / 8], s % 8)]) == Unpacked(bytes)[s := false]
  {
    hide Mask, BitIsSet, WithoutBit;
    var after := Unpacked(bytes[s / 8 := WithoutBit(bytes[s / 8], s % 8)]);
    forall t | 0 <= t < |after| ensures after[t] == Unpacked(bytes)[s := false][t] {
      SettingABit(bytes[s / 8], s % 8, t % 8);
    }
  }

  /** Eight flags to a byte. */
  class BitPackedFlags {
    const mem: array<bv8>

    ghost function Flags(): (flags: seq<bool>)
      reads mem
      ensures |flags| == 8 * mem.Length
    {
      Unpacked(mem[..])
    }

    constructor (size: nat)
      ensures fresh(mem) && |Flags()| >= size
      ensures forall s :: 0 <= s < |Flags()| ==> Flags()[s]
    {
      mem := new bv8[(size + 7) / 8](_ => 0xFF);
      new;
      hide Mask, BitIsSet;
      forall s | 0 <= s < |Flags()| ensures Flags()[s] { SettingABit(0, 0, s % 8); }
    }

    method Set(s: nat)
      requires s < |Flags()|
      modifies mem
      ensures Flags() == old(Flags())[s := true]
    {
      hide Mask, BitIsSet, WithBit, Unpacked;
      SetFlag(mem[..], s);
      ghost var was := mem[..];
      mem[s / 8] := WithBit(mem[s / 8], s % 8);
      assert mem[..] == was[s / 8 := WithBit(was[s / 8], s % 8)];
    }

    method Unset(s: nat)
      requires s < |Flags()|
      modifies mem
      ensures Flags() == old(Flags())[s := false]
    {
      hide Mask, BitIsSet, WithoutBit, Unpacked;
      UnsetFlag(mem[..], s);
      ghost var was := mem[..];
      mem[s / 8] := WithoutBit(mem[s / 8], s % 8);
      assert mem[..] == was[s / 8 := WithoutBit(was[s / 8], s % 8)];
    }

    method IsSet(s: nat) returns (isSet: bool)
      requires s < |Flags()|
      ensures isSet == Flags()[s]
    {
      isSet := BitIsSet(mem[s / 8], s % 8);
    }
  }

  class CuckooCache<E(==)> {
    const cfg: Config<E>
    const table: array<E>
    const collectionFlags: BitPackedFlags
    const epochFlags: array<bool>
    var counter: nat

    /** The parts are distinct objects of the right sizes. */
    ghost predicate Shape() {
      && Ready(cfg)
      && table.Length == epochFlags.Length == cfg.size <= 8 * collectionFlags.mem.Length
      && var t: object := table; var m: object := collectionFlags.mem; var f: object := epochFlags;
         t != m && t != f && m != f
    }

    ghost function Abs(): (c: Cache<E>)
      requires Shape()
      reads this, table, collectionFlags.mem, epochFlags
      ensures Shaped(cfg, c)
    {
      Cache(table[..], collectionFlags.Flags()[..cfg.size], epochFlags[..], counter)
    }

    /** Sets the table up with default elements.  The depth limit is the rounded logarithm of the size,
        which is at least one. */
    constructor Setup(newSize: nat, hash: (E, nat) -> U32, depthLimit: nat, blank: E)
      requires depthLimit >= 1
      ensures Shape() && cfg == Config(Max(2, newSize), hash, depthLimit, EpochSize(Max(2, newSize)))
      ensures Abs() == Fresh(cfg, seq(cfg.size, _ => blank))
      ensures fresh(table) && fresh(collectionFlags) && fresh(collectionFlags.mem) && fresh(epochFlags)
    {
      var size := Max(2, newSize);
      cfg := Config(size, hash, depthLimit, EpochSize(size));
      table := new E[size](_ => blank);
      collectionFlags := new BitPackedFlags(size);
      epochFlags := new bool[size](_ => false);
      counter := EpochSize(size);
      new;
      assert table[..] == seq(cfg.size, _ => blank);
      assert epochFlags[..] == seq(cfg.size, _ => false);
      assert collectionFlags.Flags()[..cfg.size] == seq(cfg.size, _ => true);
    }

    method PleaseKeep(e: E, i: nat, recent: bool)
      requires Shape() && i < cfg.size
      modifies table, collectionFlags.mem, epochFlags
      ensures Abs() == Settle(old(Abs()), e, i, recent)
    {
      table[i] := e;
      collectionFlags.Unset(i);
      epochFlags[i] := recent;
      assert collectionFlags.Flags()[..cfg.size] == old(Abs()).collected[i := false];
      assert table[..] == old(Abs()).table[i := e];
      assert epochFlags[..] == old(Abs()).epoch[i := recent];
    }

    /** How many live entries belong to the current epoch. */
    method CountRecent() returns (count: nat)
      requires Shape()
      ensures count == Recent(Abs())
    {
      count := 0;
      for i := 0 to cfg.size
        invariant count == CuckooState.CountRecent(Abs().collected, Abs().epoch, i)
      {
        var collected := collectionFlags.IsSet(i);
        count := count + if epochFlags[i] && !collected then 1 else 0;
      }
    }

    /** Lets go of the old epoch and makes the current one old. */
    method Age()
      requires Shape()
      modifies collectionFlags.mem, epochFlags
      ensures Abs() == Aged(cfg, old(Abs()))
    {
      hide Unpacked;
      ghost var c := Abs();
      for i := 0 to cfg.size
        invariant forall k | 0 <= k < cfg.size :: Abs().epoch[k] == (k >= i && c.epoch[k])
        invariant forall k | 0 <= k < cfg.size :: Abs().collected[k] == (c.collected[k] || (k < i && !c.epoch[k]))
      {
        if epochFlags[i] {
          epochFlags[i] := false;
        } else {
          ghost var flags := collectionFlags.Flags();
          collectionFlags.Set(i);
          assert Abs().collected == flags[..cfg.size][i := true];
        }
      }
      assert Abs().epoch == Aged(cfg, c).epoch;
      assert Abs().collected == Aged(cfg, c).collected;
    }

    method EpochCheck()
      requires Shape()
      modifies `counter, collectionFlags.mem, epochFlags
      ensures Abs() == CuckooState.EpochCheck(cfg, old(Abs()))
    {
      if counter != 0 {
        counter := counter - 1;
        return;
      }
      var recent := CountRecent();
      if recent >= cfg.epochSize {
        Age();
        counter := cfg.epochSize;
      } else {
        counter := Max(1, Max(cfg.epochSize / 16, cfg.epochSize - recent));
      }
    }

    /** The first of the eight places that holds the element. */
    method FindPlace(e: E) returns (k: nat)
      requires Shape()
      ensures k == FindFrom(cfg, Abs(), e, 0)
    {
      k := 0;
      while k < HASHES && table[Loc(cfg, e, k)] != e
        invariant k <= HASHES && FindFrom(cfg, Abs(), e, 0) == FindFrom(cfg, Abs(), e, k)
      {
        k := k + 1;
      }
    }

    /** The first of the eight places that is open. */
    method FindOpen(e: E) returns (k: nat)
      requires Shape()
      ensures k == OpenFrom(cfg, Abs(), e, 0)
    {
      k := 0;
      while k < HASHES
        invariant k <= HASHES && OpenFrom(cfg, Abs(), e, 0) == OpenFrom(cfg, Abs(), e, k)
      {
        var open := collectionFlags.IsSet(Loc(cfg, e, k));
        if open { return; }
        k := k + 1;
      }
    }

    /** The place after the last one looked at. */
    method PlaceAfter(e: E, last: int) returns (i: nat)
      requires Shape()
      ensures i == NextLoc(cfg, e, last)
    {
      var k := 0;
      while k < HASHES && Loc(cfg, e, k) != last
        invariant k <= HASHES && PlaceOf(cfg, e, last, 0) == PlaceOf(cfg, e, last, k)
      {
        k := k + 1;
      }
      i := Loc(cfg, e, (1 + k) % HASHES);
    }

    /** Puts the element where another one is, which keeps its collection flag.  Returns what was there. */
    method Swap(e: E, i: nat, recent: bool) returns (other: E, otherRecent: bool)
      requires Shape() && i < cfg.size
      modifies table, epochFlags
      ensures Abs() == Swapped(old(Abs()), e, i, recent)
      ensures other == old(Abs()).table[i] && otherRecent == old(Abs()).epoch[i]
    {
      other, otherRecent := table[i], epochFlags[i];
      table[i] := e;
      epochFlags[i] := recent;
      assert table[..] == old(Abs()).table[i := e];
      assert epochFlags[..] == old(Abs()).epoch[i := recent];
    }

    /** Inserts the element, moving others to their other places for at most `depthLimit` turns.
        `dropped` holds the element in hand when the turns run out. */
    method Insert(e: E) returns (ghost dropped: seq<E>)
      requires Shape()
      modifies `counter, table, collectionFlags.mem, epochFlags
      ensures (Abs(), dropped) == CuckooState.Insert(cfg, old(Abs()), e)
    {
      hide Loc, FindFrom, OpenFrom, PlaceOf, NextLoc, Settle, Swapped, CuckooState.EpochCheck, Unpacked, Abs;
      EpochCheck();
      ghost var start := Abs();
      var k := FindPlace(e);
      if k < HASHES {
        PleaseKeep(e, Loc(cfg, e, k), true);
        return [];
      }
      var hand, last: int, recent, depth := e, -1, true, 0;
      while depth < cfg.depthLimit
        invariant depth <= cfg.depthLimit
        invariant Displace(cfg, start, e, -1, true, cfg.depthLimit)
               == Displace(cfg, Abs(), hand, last, recent, cfg.depthLimit - depth)
      {
        var open := FindOpen(hand);
        if open < HASHES {
          PleaseKeep(hand, Loc(cfg, hand, open), recent);
          return [];
        }
        last := PlaceAfter(hand, last);
        hand, recent := Swap(hand, last, recent);
        depth := depth + 1;
      }
      return [hand];
    }

    method Contains(e: E, erase: bool) returns (found: bool)
      requires Shape()
      modifies collectionFlags.mem
      ensures found == CuckooState.Contains(cfg, old(Abs()), e)
      ensures Abs() == if erase then Erase(cfg, old(Abs()), e) else old(Abs())
      ensures found && erase ==> exists k: nat :: k < HASHES && MarkedAt(cfg, old(Abs()), Abs(), e, k)
    {
      EraseMarks(cfg, Abs(), e);
      var k := FindPlace(e);
      found := k < HASHES;
      if found && erase {
        var i := Loc(cfg, e, k);
        ghost var flags := collectionFlags.Flags();
        collectionFlags.Set(i);
        assert Abs().collected == flags[..cfg.size][i := true];
      }
    }
  }
}
