/** The tree of block headers with its skip list: jumping back agrees with walking back. */
module BlockTree {
  import opened Powers

  // ---------------------------------------------------------------- heights to skip to

  function And(x: nat, y: nat): (r: nat)
    ensures r <= x && r <= y
  {
    if x == 0 || y == 0 then 0 else 2 * And(x / 2, y / 2) + (x % 2) * (y % 2)
  }

  /** Turns the lowest bit that is set into zero. */
  function InvertLowestOne(n: nat): (r: nat)
    ensures n > 0 ==> r < n
  {
    if n == 0 then 0 else And(n, n - 1)
  }

  lemma {:induction false} AndSame(x: nat)
    ensures And(x, x) == x
  {
    if x > 0 {
      AndSame(x / 2);
    }
  }

  lemma DoubleMultiple(r: nat, p: nat)
    requires p > 0 && r % p == 0
    ensures 2 * r % (2 * p) == 0
  {
    var q := r / p;
    assert r == q * p;
    assert 2 * (q * p) == q * (2 * p);
    RemainderIs(2 * r, 2 * p, q, 0);
  }

  /** What is taken away is the lowest power of two in the number. */
  lemma {:induction false} LowestOneInverted(n: nat) returns (k: nat)
    requires n > 0
    ensures n == InvertLowestOne(n) + Pow2(k) && InvertLowestOne(n) % Pow2(k + 1) == 0
  {
    if n % 2 == 1 {
      k := 0;
      AndSame(n / 2);
      assert (n - 1) / 2 == n / 2;
      assert Pow2(1) == 2;
    } else {
      var j := LowestOneInverted(n / 2);
      k := j + 1;
      assert (n - 1) / 2 == n / 2 - 1;
      DoubleMultiple(InvertLowestOne(n / 2), Pow2(j + 1));
    }
  }

  /** The height that the skip pointer of a block leads to. */
  function GetSkipHeight(height: nat): (r: nat)
    ensures height > 0 ==> r < height
  {
    if height < 2 then 0
    else if height % 2 == 1 then InvertLowestOne(InvertLowestOne(height - 1)) + 1
    else InvertLowestOne(height)
  }

  /** From an even height the skip takes off the lowest power of two, from an odd one the two lowest ones of
      the height less one, if there are two. */
  lemma SkipHeightMeans(height: nat) returns (j: nat, k: nat)
    requires height >= 2
    ensures var skip := GetSkipHeight(height);
      if height % 2 == 0 then skip == height - Pow2(j) && skip % Pow2(j + 1) == 0
      else
        var between := height - 1 - Pow2(j);
        && between >= 0 && between % Pow2(j + 1) == 0
        && if between == 0 then skip == 1
           else skip - 1 == between - Pow2(k) && skip >= 1 && (skip - 1) % Pow2(k + 1) == 0
  {
    hide Pow2, InvertLowestOne;
    k := 0;
    if height % 2 == 0 {
      j := LowestOneInverted(height);
    } else {
      j := LowestOneInverted(height - 1);
      var between := InvertLowestOne(height - 1);
      if between > 0 {
        k := LowestOneInverted(between);
      } else {
        NothingToInvert();
      }
    }
  }

  lemma NothingToInvert()
    ensures InvertLowestOne(0) == 0
  {
  }

  // ---------------------------------------------------------------- the tree

  /** Every block but a first one is one above its parent. */
  ghost predicate Linked(blocks: set<CBlockIndex>)
    reads blocks`pprev, blocks`nHeight
  {
    forall b <- blocks ::
      if b.pprev == null then b.nHeight == 0 else b.pprev in blocks && b.nHeight == b.pprev.nHeight + 1
  }

  /** Walking back one parent at a time. */
  ghost function AncestorAt(blocks: set<CBlockIndex>, b: CBlockIndex, height: nat): (a: CBlockIndex)
    requires Linked(blocks) && b in blocks && height <= b.nHeight
    reads blocks`pprev, blocks`nHeight
    ensures a in blocks && a.nHeight == height
    decreases b.nHeight
  {
    if b.nHeight == height then b else AncestorAt(blocks, b.pprev, height)
  }

  /** Skip pointers lead to the ancestor at the skip height. */
  ghost predicate Skips(blocks: set<CBlockIndex>)
    requires Linked(blocks)
    reads blocks
  {
    forall b <- blocks :: b.pskip != null ==> b.pskip == AncestorAt(blocks, b, GetSkipHeight(b.nHeight))
  }

  ghost predicate Tree(blocks: set<CBlockIndex>)
    reads blocks
  {
    Linked(blocks) && Skips(blocks)
  }

  lemma {:induction false} AncestorOfAncestor(blocks: set<CBlockIndex>, b: CBlockIndex, middle: nat, height: nat)
    requires Linked(blocks) && b in blocks && height <= middle <= b.nHeight
    ensures AncestorAt(blocks, AncestorAt(blocks, b, middle), height) == AncestorAt(blocks, b, height)
    decreases b.nHeight
  {
    if middle < b.nHeight {
      AncestorOfAncestor(blocks, b.pprev, middle, height);
    }
  }

  /** Blocks at the same height with a common ancestor above stay together below. */
  lemma SharedBelow(blocks: set<CBlockIndex>, a: CBlockIndex, b: CBlockIndex, middle: nat, height: nat)
    requires Linked(blocks) && a in blocks && b in blocks && height <= middle <= a.nHeight && middle <= b.nHeight
    requires AncestorAt(blocks, a, middle) == AncestorAt(blocks, b, middle)
    ensures AncestorAt(blocks, a, height) == AncestorAt(blocks, b, height)
  {
    AncestorOfAncestor(blocks, a, middle, height);
    AncestorOfAncestor(blocks, b, middle, height);
  }

  /** A larger tree has the same ancestors. */
  lemma {:induction false} AncestorInLarger(blocks: set<CBlockIndex>, more: set<CBlockIndex>, b: CBlockIndex,
                                            height: nat)
    requires Linked(blocks) && Linked(more) && blocks <= more && b in blocks && height <= b.nHeight
    ensures AncestorAt(more, b, height) == AncestorAt(blocks, b, height)
    decreases b.nHeight
  {
    if b.nHeight != height {
      AncestorInLarger(blocks, more, b.pprev, height);
    }
  }

  lemma AncestorsInLarger(blocks: set<CBlockIndex>, b: CBlockIndex)
    requires Linked(blocks) && Linked(blocks + {b})
    ensures forall c, h: nat | c in blocks && h <= c.nHeight ::
      AncestorAt(blocks + {b}, c, h) == AncestorAt(blocks, c, h)
  {
    hide AncestorAt;
    forall c, h: nat | c in blocks && h <= c.nHeight
      ensures AncestorAt(blocks + {b}, c, h) == AncestorAt(blocks, c, h) {
      AncestorInLarger(blocks, blocks + {b}, c, h);
    }
  }

  lemma SkipsInLarger(blocks: set<CBlockIndex>, b: CBlockIndex)
    requires Tree(blocks) && Linked(blocks + {b}) && b.pskip == null
    ensures Tree(blocks + {b})
  {
    hide AncestorAt;
    forall c <- blocks | c.pskip != null
      ensures c.pskip == AncestorAt(blocks + {b}, c, GetSkipHeight(c.nHeight)) {
      AncestorInLarger(blocks, blocks + {b}, c, GetSkipHeight(c.nHeight));
    }
  }

  class CBlockIndex {
    var pprev: CBlockIndex?
    var pskip: CBlockIndex?
    var nHeight: nat

    constructor ()
      ensures pprev == null && pskip == null && nHeight == 0
    {
      pprev, pskip, nHeight := null, null, 0;
    }

    /** The ancestor at a height; null when there is none. */
    method GetAncestor(height: int, ghost blocks: set<CBlockIndex>) returns (r: CBlockIndex?)
      requires Tree(blocks) && this in blocks
      ensures r == if 0 <= height <= nHeight then AncestorAt(blocks, this, height) else null
    {
      if height > nHeight || height < 0 {
        return null;
      }
      var walk: CBlockIndex := this;
      var heightWalk := nHeight;
      while heightWalk > height
        invariant walk in blocks && walk.nHeight == heightWalk >= height
        invariant AncestorAt(blocks, this, height) == AncestorAt(blocks, walk, height)
      {
        var heightSkip := GetSkipHeight(heightWalk);
        var heightSkipPrev := GetSkipHeight(heightWalk - 1);
        if walk.pskip != null
          && (heightSkip == height
              || (heightSkip > height && !(heightSkipPrev < heightSkip - 2 && heightSkipPrev >= height))) {
          AncestorOfAncestor(blocks, walk, heightSkip, height);
          walk := walk.pskip;
          heightWalk := heightSkip;
        } else {
          assert walk.pprev != null;
          walk := walk.pprev;
          heightWalk := heightWalk - 1;
        }
      }
      return walk;
    }

    /** Points the skip pointer of a block to the ancestor at its skip height. */
    method BuildSkip(ghost blocks: set<CBlockIndex>)
      requires Tree(blocks) && this in blocks
      modifies this`pskip
      ensures Tree(blocks)
      ensures nHeight > 0 ==> pskip == AncestorAt(blocks, this, GetSkipHeight(nHeight))
      ensures nHeight == 0 ==> pskip == old(pskip)
    {
      if pprev != null {
        pskip := pprev.GetAncestor(GetSkipHeight(nHeight), blocks);
      }
    }

    /** How a block joins the tree: its parent, its height, then its skip pointer. */
    method Attach(prev: CBlockIndex, ghost blocks: set<CBlockIndex>)
      requires Tree(blocks) && prev in blocks && this !in blocks && pskip == null
      modifies this
      ensures pprev == prev && Tree(blocks + {this})
      ensures pskip == AncestorAt(blocks + {this}, this, GetSkipHeight(nHeight))
      ensures forall b, h: nat | b in blocks && h <= b.nHeight ::
        AncestorAt(blocks + {this}, b, h) == AncestorAt(blocks, b, h)
    {
      pprev := prev;
      nHeight := prev.nHeight + 1;
      SkipsInLarger(blocks, this);
      BuildSkip(blocks + {this});
      AncestorsInLarger(blocks, this);
    }
  }

  /** A first block is a tree. */
  lemma GenesisIsTree(b: CBlockIndex)
    requires b.pprev == null && b.pskip == null && b.nHeight == 0
    ensures Tree({b})
  {
  }

  // ---------------------------------------------------------------- common ancestors

  ghost predicate IsAncestor(blocks: set<CBlockIndex>, a: CBlockIndex, b: CBlockIndex)
    requires Linked(blocks) && b in blocks
    reads blocks`pprev, blocks`nHeight
  {
    a in blocks && a.nHeight <= b.nHeight && AncestorAt(blocks, b, a.nHeight) == a
  }

  ghost predicate Common(blocks: set<CBlockIndex>, c: CBlockIndex, a: CBlockIndex, b: CBlockIndex)
    requires Linked(blocks) && a in blocks && b in blocks
    reads blocks`pprev, blocks`nHeight
  {
    IsAncestor(blocks, c, a) && IsAncestor(blocks, c, b)
  }

  /** The highest common ancestor; null exactly when the blocks have different first blocks. */
  method LastCommonAncestor(a: CBlockIndex, b: CBlockIndex, ghost blocks: set<CBlockIndex>) returns (r: CBlockIndex?)
    requires Tree(blocks) && a in blocks && b in blocks
    ensures r == null <==> AncestorAt(blocks, a, 0) != AncestorAt(blocks, b, 0)
    ensures r != null ==> Common(blocks, r, a, b)
    ensures r != null ==> forall c <- blocks | Common(blocks, c, a, b) :: IsAncestor(blocks, c, r)
  {
    var pa: CBlockIndex?, pb: CBlockIndex? := a, b;
    if pa.nHeight > pb.nHeight {
      pa := pa.GetAncestor(pb.nHeight, blocks);
    } else if pb.nHeight > pa.nHeight {
      pb := pb.GetAncestor(pa.nHeight, blocks);
    }
    ghost var top: int := pa.nHeight;
    hide AncestorAt, GetSkipHeight, NoneAbove;
    NoneAboveHeight(blocks, a, b, top);
    while pa != pb && pa != null && pb != null
      invariant pa == null <==> pb == null
      invariant pa != null ==> IsAncestor(blocks, pa, a) && IsAncestor(blocks, pb, b) && pa.nHeight == pb.nHeight == top
      invariant pa == null ==> top == -1
      invariant NoneAbove(blocks, a, b, top)
      decreases top
    {
      NoneAtHeight(blocks, pa, pb, a, b);
      ParentIsAncestor(blocks, pa, a);
      ParentIsAncestor(blocks, pb, b);
      pa := pa.pprev;
      pb := pb.pprev;
      top := top - 1;
    }
    assert pa == pb;
    if pa == null {
      NoneAtAll(blocks, a, b);
    } else {
      HighestCommon(blocks, pa, a, b);
    }
    return pa;
  }

  /** No common ancestor is higher than this. */
  ghost predicate NoneAbove(blocks: set<CBlockIndex>, a: CBlockIndex, b: CBlockIndex, top: int)
    requires Linked(blocks) && a in blocks && b in blocks
    reads blocks`pprev, blocks`nHeight
  {
    forall c <- blocks | Common(blocks, c, a, b) :: c.nHeight <= top
  }

  lemma NoneAboveHeight(blocks: set<CBlockIndex>, a: CBlockIndex, b: CBlockIndex, top: int)
    requires Linked(blocks) && a in blocks && b in blocks && (a.nHeight <= top || b.nHeight <= top)
    ensures NoneAbove(blocks, a, b, top)
  {
    hide AncestorAt;
  }

  lemma NoneAtHeight(blocks: set<CBlockIndex>, pa: CBlockIndex, pb: CBlockIndex, a: CBlockIndex, b: CBlockIndex)
    requires Linked(blocks) && a in blocks && b in blocks && IsAncestor(blocks, pa, a) && IsAncestor(blocks, pb, b)
    requires pa != pb && pa.nHeight == pb.nHeight && NoneAbove(blocks, a, b, pa.nHeight)
    ensures NoneAbove(blocks, a, b, pa.nHeight - 1)
  {
    hide AncestorAt;
  }

  lemma NoneAtAll(blocks: set<CBlockIndex>, a: CBlockIndex, b: CBlockIndex)
    requires Linked(blocks) && a in blocks && b in blocks && NoneAbove(blocks, a, b, -1)
    ensures AncestorAt(blocks, a, 0) != AncestorAt(blocks, b, 0)
  {
    hide AncestorAt;
    assert !Common(blocks, AncestorAt(blocks, a, 0), a, b);
  }

  lemma HighestCommon(blocks: set<CBlockIndex>, r: CBlockIndex, a: CBlockIndex, b: CBlockIndex)
    requires Linked(blocks) && a in blocks && b in blocks
    requires Common(blocks, r, a, b) && NoneAbove(blocks, a, b, r.nHeight)
    ensures AncestorAt(blocks, a, 0) == AncestorAt(blocks, b, 0)
    ensures forall c <- blocks | Common(blocks, c, a, b) :: IsAncestor(blocks, c, r)
  {
    hide AncestorAt;
    SharedBelow(blocks, a, b, r.nHeight, 0);
    forall c <- blocks | Common(blocks, c, a, b) ensures IsAncestor(blocks, c, r) {
      AncestorOfAncestor(blocks, a, r.nHeight, c.nHeight);
    }
  }

  lemma ParentIsAncestor(blocks: set<CBlockIndex>, p: CBlockIndex, b: CBlockIndex)
    requires Linked(blocks) && b in blocks && IsAncestor(blocks, p, b)
    ensures p.pprev != null ==> IsAncestor(blocks, p.pprev, b) && p.pprev.nHeight == p.nHeight - 1
    ensures p.pprev == null <==> p.nHeight == 0
  {
    if p.pprev != null {
      AncestorOfAncestor(blocks, b, p.nHeight, p.nHeight - 1);
    }
  }
}
