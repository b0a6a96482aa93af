/** The active chain: a row of blocks indexed by height. */
module ActiveChain {
  import opened Basics
  import opened BlockTree
  import opened Powers

  /** The ancestors of a block from the first block up to itself. */
  ghost function Path(blocks: set<CBlockIndex>, b: CBlockIndex): (path: seq<CBlockIndex>)
    requires Linked(blocks) && b in blocks
    reads blocks`pprev, blocks`nHeight
    ensures |path| == b.nHeight + 1
    ensures forall h :: 0 <= h < |path| ==> path[h] == AncestorAt(blocks, b, h)
    decreases b.nHeight
  {
    if b.pprev == null then [b] else Path(blocks, b.pprev) + [b]
  }

  /** The heights in a locator from the n-th entry on: one step back at a time at first, then steps that
      double, down to zero. */
  function LocatorHeights(height: nat, step: nat, n: nat): seq<nat>
    requires step > 0
    decreases height
  {
    if height == 0 then [0]
    else [height] + LocatorHeights(Max(height - step, 0), if n + 1 > 10 then 2 * step else step, n + 1)
  }

  class CChain {
    var vChain: seq<CBlockIndex?>

    constructor ()
      ensures vChain == []
    {
      vChain := [];
    }

    /** Empty, or the path to its last block. */
    ghost predicate Valid(blocks: set<CBlockIndex>)
      reads this, blocks
    {
      IsPath(blocks, vChain)
    }

    function Tip(): CBlockIndex?
      reads this
    {
      if |vChain| > 0 then vChain[|vChain| - 1] else null
    }

    function Height(): int
      reads this
    {
      |vChain| - 1
    }

    /** The block at a height; null if there is none. */
    function At(height: int): CBlockIndex?
      reads this
    {
      if height < 0 || height >= |vChain| then null else vChain[height]
    }

    predicate Contains(b: CBlockIndex)
      reads this, b
    {
      At(b.nHeight) == b
    }

    /** A block is in the chain exactly when it is an ancestor of the tip, or the tip. */
    lemma ContainsAncestors(blocks: set<CBlockIndex>, b: CBlockIndex)
      requires Valid(blocks) && b in blocks
      ensures Contains(b) <==> Tip() != null && IsAncestor(blocks, b, Tip())
    {
    }

    /** Below a block of the chain, the chain holds that block's ancestors. */
    lemma ChainBelow(blocks: set<CBlockIndex>, b: CBlockIndex, height: nat)
      requires Valid(blocks) && b in blocks && Contains(b) && height <= b.nHeight
      ensures height < |vChain| && vChain[height] == AncestorAt(blocks, b, height)
    {
      AncestorOfAncestor(blocks, Tip(), b.nHeight, height);
    }

    method Resize(n: nat)
      modifies `vChain
      ensures |vChain| == n
      ensures forall h :: 0 <= h < n ==> vChain[h] == if h < |old(vChain)| then old(vChain[h]) else null
    {
      if n <= |vChain| {
        vChain := vChain[..n];
      } else {
        vChain := vChain + seq(n - |vChain|, _ => null);
      }
    }

    /** Makes a block the tip.  The walk back stops at the first block that is already in place. */
    method SetTip(block: CBlockIndex, ghost blocks: set<CBlockIndex>)
      requires Valid(blocks) && block in blocks
      modifies this
      ensures Valid(blocks) && vChain == Path(blocks, block)
    {
      hide AncestorAt, Path, Linked, Skips, HalfSet;
      ghost var was := vChain;
      var pindex: CBlockIndex? := block;
      ghost var done := block.nHeight + 1;
      Resize(block.nHeight + 1);
      NothingSet(blocks, block, was, vChain);
      SelfAncestor(blocks, block);
      while pindex != null && vChain[pindex.nHeight] != pindex
        invariant |vChain| == block.nHeight + 1 && 0 <= done <= |vChain|
        invariant HalfSet(blocks, block, was, vChain, done)
        invariant pindex == null <==> done == 0
        invariant pindex != null ==> IsAncestor(blocks, pindex, block) && done == pindex.nHeight + 1
        decreases done
      {
        SetOne(blocks, block, was, vChain, done);
        vChain := vChain[pindex.nHeight := pindex];
        ParentIsAncestor(blocks, pindex, block);
        pindex := pindex.pprev;
        done := done - 1;
      }
      AllSet(blocks, block, was, vChain, done);
    }

    /** No ancestor of the block in the chain is higher than this. */
    ghost predicate NoForkAbove(blocks: set<CBlockIndex>, b: CBlockIndex, top: int)
      requires Linked(blocks) && b in blocks
      reads this, blocks
    {
      forall a <- blocks | IsAncestor(blocks, a, b) && Contains(a) :: a.nHeight <= top
    }

    lemma NoForkAboveChain(blocks: set<CBlockIndex>, b: CBlockIndex, top: int)
      requires Linked(blocks) && b in blocks && (b.nHeight <= top || Height() <= top)
      ensures NoForkAbove(blocks, b, top)
    {
    }

    lemma NoForkAt(blocks: set<CBlockIndex>, r: CBlockIndex, b: CBlockIndex)
      requires Linked(blocks) && b in blocks && IsAncestor(blocks, r, b) && !Contains(r)
        && NoForkAbove(blocks, b, r.nHeight)
      ensures NoForkAbove(blocks, b, r.nHeight - 1)
    {
    }

    /** The highest ancestor of a block, itself included, that is in the chain; null if there is none. */
    method FindFork(b: CBlockIndex?, ghost blocks: set<CBlockIndex>) returns (r: CBlockIndex?)
      requires Valid(blocks) && (b != null ==> b in blocks)
      ensures b == null ==> r == null
      ensures r != null ==> IsAncestor(blocks, r, b) && Contains(r)
      ensures b != null ==> NoForkAbove(blocks, b, if r == null then -1 else r.nHeight)
    {
      hide AncestorAt, Path, Linked, Skips, NoForkAbove;
      if b == null {
        return null;
      }
      r := b;
      SelfAncestor(blocks, b);
      NoForkAboveChain(blocks, b, Max(Height(), 0 - 1));
      NoForkAboveChain(blocks, b, b.nHeight);
      if r.nHeight > Height() {
        r := r.GetAncestor(Height(), blocks);
      }
      ghost var top: int := if r == null then -1 else r.nHeight;
      while r != null && !Contains(r)
        invariant r != null ==> IsAncestor(blocks, r, b) && r.nHeight == top
        invariant r == null ==> top == -1
        invariant NoForkAbove(blocks, b, top)
        decreases top
      {
        NoForkAt(blocks, r, b);
        ParentIsAncestor(blocks, r, b);
        r := r.pprev;
        top := top - 1;
      }
    }

    /** The blocks that a locator names.  The chain and the skip list give the same ones. */
    method GetLocator(start: CBlockIndex?, ghost blocks: set<CBlockIndex>) returns (have: seq<CBlockIndex>)
      requires Valid(blocks) && (start != null ==> start in blocks)
      ensures start == null && vChain == [] ==> have == []
      ensures start != null ==> IsLocator(blocks, start, have)
      ensures start == null && vChain != [] ==> IsLocator(blocks, Tip(), have)
    {
      hide AncestorAt, Path, Linked, Skips, Named;
      have := [];
      var step := 1;
      var pindex := start;
      if pindex == null {
        pindex := Tip();
      }
      if pindex == null {
        return;
      }
      ghost var from: CBlockIndex := pindex;
      SelfAncestor(blocks, from);
      NameNone(blocks, from);
      while pindex != null
        invariant step > 0 && pindex != null && IsAncestor(blocks, pindex, from)
        invariant Named(blocks, from, LocatorHeights(from.nHeight, 1, 0), have, pindex.nHeight, step)
        decreases if pindex == null then 0 else pindex.nHeight
      {
        NameOne(blocks, from, LocatorHeights(from.nHeight, 1, 0), have, pindex, step);
        have := have + [pindex];
        if pindex.nHeight == 0 {
          break;
        }
        var height := Max(pindex.nHeight - step, 0);
        AncestorOfAncestor(blocks, from, pindex.nHeight, height);
        if Contains(pindex) {
          ChainBelow(blocks, pindex, height);
          pindex := At(height);
        } else {
          pindex := pindex.GetAncestor(height, blocks);
        }
        if |have| > 10 {
          step := step * 2;
        }
      }
    }
  }

  // ---------------------------------------------------------------- locators

  /** The blocks are ancestors at these heights. */
  ghost predicate AtHeights(blocks: set<CBlockIndex>, from: CBlockIndex, heights: seq<nat>, have: seq<CBlockIndex>)
    requires Linked(blocks) && from in blocks
    reads blocks`pprev, blocks`nHeight
  {
    && |have| == |heights|
    && forall k :: 0 <= k < |have| ==>
         heights[k] <= from.nHeight && have[k] == AncestorAt(blocks, from, heights[k])
  }

  ghost predicate IsLocator(blocks: set<CBlockIndex>, from: CBlockIndex, have: seq<CBlockIndex>)
    requires Linked(blocks) && from in blocks
    reads blocks`pprev, blocks`nHeight
  {
    AtHeights(blocks, from, LocatorHeights(from.nHeight, 1, 0), have)
  }

  /** The blocks are those at the first of these heights, and the heights go on as they would from here. */
  ghost predicate Named(blocks: set<CBlockIndex>, from: CBlockIndex, heights: seq<nat>, have: seq<CBlockIndex>,
                        height: nat, step: nat)
    requires Linked(blocks) && from in blocks && step > 0
    reads blocks`pprev, blocks`nHeight
  {
    |have| <= |heights| && AtHeights(blocks, from, heights[..|have|], have)
    && heights[|have|..] == LocatorHeights(height, step, |have|)
  }

  lemma NameNone(blocks: set<CBlockIndex>, from: CBlockIndex)
    requires Linked(blocks) && from in blocks
    ensures Named(blocks, from, LocatorHeights(from.nHeight, 1, 0), [], from.nHeight, 1)
  {
  }

  lemma NameOne(blocks: set<CBlockIndex>, from: CBlockIndex, heights: seq<nat>, have: seq<CBlockIndex>, b: CBlockIndex,
                step: nat)
    requires Linked(blocks) && from in blocks && step > 0 && IsAncestor(blocks, b, from)
    requires Named(blocks, from, heights, have, b.nHeight, step)
    ensures b.nHeight == 0 ==> AtHeights(blocks, from, heights, have + [b])
    ensures b.nHeight > 0 ==>
      Named(blocks, from, heights, have + [b], Max(b.nHeight - step, 0), if |have| + 1 > 10 then 2 * step else step)
  {
    hide AncestorAt, Linked;
    var n := |have|;
    var rest := heights[n..];
    assert rest[0] == b.nHeight;
    assert heights[..n + 1] == heights[..n] + [heights[n]];
    assert heights[n + 1..] == rest[1..];
    if b.nHeight == 0 {
      assert heights == heights[..n + 1];
    }
  }

  /** A locator starts with the block itself, goes down strictly and ends with the first block. */
  lemma {:induction false} LocatorShape(height: nat, step: nat, n: nat)
    requires step > 0
    ensures var heights := LocatorHeights(height, step, n);
      && |heights| > 0 && heights[0] == height && heights[|heights| - 1] == 0
      && forall k :: 0 < k < |heights| ==> heights[k] < heights[k - 1]
    decreases height
  {
    if height > 0 {
      LocatorShape(Max(height - step, 0), if n + 1 > 10 then 2 * step else step, n + 1);
    }
  }

  /** How far entry `k` of a locator is above the next one: one block up to the eleventh entry, and from the
      twelfth on twice as far each time. */
  function Gap(k: nat): (g: nat)
    ensures g > 0
  {
    if k <= 10 then 1 else Pow2(k - 10)
  }

  /** How far entry `k` of a locator is below the first. */
  function Drop(k: nat): nat { if k <= 11 then k else 9 + Pow2(k - 10) }

  lemma DropGap(k: nat)
    ensures Drop(k + 1) == Drop(k) + Gap(k) && Gap(k + 1) == if k + 1 > 10 then 2 * Gap(k) else Gap(k)
  {
  }

  lemma {:induction false} LocatorFrom(height: nat, n: nat)
    ensures var heights := LocatorHeights(height, Gap(n), n); var last := |heights| - 1;
      && last >= 0 && heights[last] == 0 && Drop(n + last) - Drop(n) >= height
      && forall k :: 0 <= k < last ==> heights[k] == height - (Drop(n + k) - Drop(n)) > 0
    decreases height
  {
    hide Drop, Gap;
    if height > 0 {
      DropGap(n);
      var next := Max(height - Gap(n), 0);
      LocatorFrom(next, n + 1);
      var heights, rest := LocatorHeights(height, Gap(n), n), LocatorHeights(next, Gap(n + 1), n + 1);
      assert heights == [height] + rest;
      forall k | 0 <= k < |heights| - 1 ensures heights[k] == height - (Drop(n + k) - Drop(n)) > 0 {
        if k > 0 { assert heights[k] == rest[k - 1] && Drop(n + 1 + (k - 1)) == Drop(n + k); }
      }
      assert n + 1 + (|rest| - 1) == n + (|heights| - 1);
    }
  }

  /** The heights of a locator: entry k is k blocks below the first up to the twelfth entry, 9 + 2^(k - 10)
      blocks below it from then on, and the last one, which would reach below the first block, is zero. */
  lemma LocatorHeightsAre(height: nat)
    ensures var heights := LocatorHeights(height, 1, 0); var last := |heights| - 1;
      && last >= 0 && heights[last] == 0 && Drop(last) >= height
      && forall k :: 0 <= k < last ==> heights[k] == height - Drop(k) > 0
  {
    hide LocatorHeights;
    LocatorFrom(height, 0);
    assert Gap(0) == 1 && Drop(0) == 0;
    hide Drop, Gap;
    var heights := LocatorHeights(height, 1, 0);
    forall k | 0 <= k < |heights| - 1 ensures heights[k] == height - Drop(k) > 0 { assert 0 + k == k; }
    assert 0 + (|heights| - 1) == |heights| - 1;
  }

  // ---------------------------------------------------------------- setting the tip

  /** The row of a new tip, set from the height `done` on; below, it still is the old row. */
  ghost predicate HalfSet(blocks: set<CBlockIndex>, block: CBlockIndex, was: seq<CBlockIndex?>, row: seq<CBlockIndex?>,
                          done: nat)
    requires Linked(blocks) && block in blocks
    reads blocks`pprev, blocks`nHeight
  {
    && |row| == block.nHeight + 1 && done <= |row|
    && (forall h :: done <= h < |row| ==> row[h] == AncestorAt(blocks, block, h))
    && (forall h :: 0 <= h < done ==> row[h] == if h < |was| then was[h] else null)
  }

  ghost predicate IsPath(blocks: set<CBlockIndex>, row: seq<CBlockIndex?>)
    reads blocks
  {
    Tree(blocks) && (row == [] || (row[|row| - 1] in blocks && row == Path(blocks, row[|row| - 1])))
  }

  lemma SelfAncestor(blocks: set<CBlockIndex>, b: CBlockIndex)
    requires Linked(blocks) && b in blocks
    ensures IsAncestor(blocks, b, b)
  {
  }

  lemma NothingSet(blocks: set<CBlockIndex>, block: CBlockIndex, was: seq<CBlockIndex?>, row: seq<CBlockIndex?>)
    requires Linked(blocks) && block in blocks && |row| == block.nHeight + 1
    requires forall h :: 0 <= h < |row| ==> row[h] == if h < |was| then was[h] else null
    ensures HalfSet(blocks, block, was, row, block.nHeight + 1)
  {
  }

  lemma SetOne(blocks: set<CBlockIndex>, block: CBlockIndex, was: seq<CBlockIndex?>, row: seq<CBlockIndex?>, done: nat)
    requires Linked(blocks) && block in blocks && HalfSet(blocks, block, was, row, done) && done > 0
    ensures HalfSet(blocks, block, was, row[done - 1 := AncestorAt(blocks, block, done - 1)], done - 1)
  {
    hide AncestorAt;
  }

  /** The walk may stop at a block that is in place: what the old chain holds below it is its path. */
  lemma AllSet(blocks: set<CBlockIndex>, block: CBlockIndex, was: seq<CBlockIndex?>, row: seq<CBlockIndex?>, done: nat)
    requires IsPath(blocks, was) && block in blocks && HalfSet(blocks, block, was, row, done)
    requires done > 0 ==> row[done - 1] == AncestorAt(blocks, block, done - 1)
    ensures row == Path(blocks, block) && row[|row| - 1] == block
  {
    hide Path;
    forall h | 0 <= h < done ensures row[h] == AncestorAt(blocks, block, h) {
      AncestorOfAncestor(blocks, was[|was| - 1], done - 1, h);
      AncestorOfAncestor(blocks, block, done - 1, h);
    }
  }
}
