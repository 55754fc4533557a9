/** The block tree and the active chain (src/chain.cpp, src/chain.h).  Blocks point to their
    parents and skip pointers jump further back; whatever the skip pointers save, they lead to
    the block that walking the parents leads to. */
module Chain {
  import opened Powers
  import opened SkipHeights

  // ---------- The tree ----------

  class BlockIndex {
    var pprev: BlockIndex?
    var pskip: BlockIndex?
    var nHeight: nat
    constructor (pprev: BlockIndex?)
      ensures this.pprev == pprev && pskip == null
      ensures nHeight == if pprev == null then 0 else pprev.nHeight + 1
    {
      this.pprev := pprev;
      pskip := null;
      nHeight := if pprev == null then 0 else pprev.nHeight + 1;
    }
  }

  ghost predicate Linked(blocks: set<BlockIndex>)
    reads blocks
  {
    forall b | b in blocks ::
      if b.pprev == null then b.nHeight == 0 else b.pprev in blocks && b.nHeight == b.pprev.nHeight + 1
  }

  /** The ancestor at height h, by way of the parents. */
  ghost function Walk(blocks: set<BlockIndex>, b: BlockIndex, h: nat): (r: BlockIndex)
    requires Linked(blocks) && b in blocks && h <= b.nHeight
    reads blocks
    ensures r in blocks && r.nHeight == h
    decreases b.nHeight
  {
    if h == b.nHeight then b else Walk(blocks, b.pprev, h)
  }

  ghost predicate Tree(blocks: set<BlockIndex>)
    reads blocks
  {
    && Linked(blocks)
    && forall b | b in blocks && b.pprev != null ::
         GetSkipHeight(b.nHeight) <= b.nHeight && b.pskip == Walk(blocks, b, GetSkipHeight(b.nHeight))
  }

  lemma {:induction false} WalkOn(blocks: set<BlockIndex>, b: BlockIndex, h: nat, k: nat)
    requires Linked(blocks) && b in blocks && k <= h <= b.nHeight
    ensures Walk(blocks, Walk(blocks, b, h), k) == Walk(blocks, b, k)
    decreases b.nHeight
  {
    if h < b.nHeight { WalkOn(blocks, b.pprev, h, k); }
  }

  lemma {:induction false} WalkStep(blocks: set<BlockIndex>, b: BlockIndex, h: nat)
    requires Linked(blocks) && b in blocks && 0 < h <= b.nHeight
    ensures Walk(blocks, b, h).pprev == Walk(blocks, b, h - 1)
    decreases b.nHeight
  {
    if h < b.nHeight { WalkStep(blocks, b.pprev, h); }
  }

  /** One turn of GetAncestor's loop: along pskip, unless the parent's pskip is better. */
  method Move(walk: BlockIndex, height: nat, ghost blocks: set<BlockIndex>) returns (next: BlockIndex)
    requires Tree(blocks) && walk in blocks && height < walk.nHeight
    ensures next in blocks && next.nHeight == NextHeight(walk.nHeight, height)
    ensures Walk(blocks, next, height) == Walk(blocks, walk, height)
  {
    hide GetSkipHeight;
    var heightSkip := GetSkipHeight(walk.nHeight);
    var heightSkipPrev := GetSkipHeight(walk.nHeight - 1);
    assert walk.pprev != null;
    if heightSkip == height || (heightSkip > height && !(heightSkipPrev < heightSkip - 2 && heightSkipPrev >= height)) {
      WalkOn(blocks, walk, heightSkip, height);
      next := walk.pskip;
    } else {
      next := walk.pprev;
    }
  }

  /** GetAncestor: null outside the block's own heights, else the ancestor; from a height below
      2^j it follows at most j^2 pointers. */
  method GetAncestor(b: BlockIndex, height: int, ghost blocks: set<BlockIndex>) returns (r: BlockIndex?, ghost moves: nat)
    requires Tree(blocks) && b in blocks
    ensures r == if 0 <= height <= b.nHeight then Walk(blocks, b, height) else null
    ensures forall j: nat | b.nHeight < Pow(2, j) :: moves <= j * j
  {
    hide Tree, Walk, NextHeight, Moves, Pow;
    if height > b.nHeight || height < 0 { return null, 0; }
    TreeIsLinked(blocks);
    var walk := b;
    moves := 0;
    while walk.nHeight > height
      invariant height <= walk.nHeight && walk in blocks && Walk(blocks, walk, height) == Walk(blocks, b, height)
      invariant moves + Moves(walk.nHeight, height) == Moves(b.nHeight, height)
      decreases walk.nHeight
    {
      MovesOn(walk.nHeight, height);
      walk := Move(walk, height, blocks);
      moves := moves + 1;
    }
    MovesAlways(b.nHeight, height);
    WalkNowhere(blocks, walk);
    return walk, moves;
  }

  lemma {:induction false} WalkNowhere(blocks: set<BlockIndex>, b: BlockIndex)
    requires Linked(blocks) && b in blocks
    ensures Walk(blocks, b, b.nHeight) == b
  {
  }

  lemma {:induction false} WalkMore(blocks: set<BlockIndex>, more: set<BlockIndex>, b: BlockIndex, h: nat)
    requires Linked(blocks) && Linked(more) && blocks <= more && b in blocks && h <= b.nHeight
    ensures Walk(more, b, h) == Walk(blocks, b, h)
    decreases b.nHeight
  {
    if h < b.nHeight { WalkMore(blocks, more, b.pprev, h); }
  }

  lemma {:induction false} LinkedMore(blocks: set<BlockIndex>, b: BlockIndex)
    requires Linked(blocks)
    requires if b.pprev == null then b.nHeight == 0 else b.pprev in blocks && b.nHeight == b.pprev.nHeight + 1
    ensures Linked(blocks + {b})
  {
  }

  lemma {:induction false} TreeMore(blocks: set<BlockIndex>, b: BlockIndex)
    requires Tree(blocks) && b !in blocks
    requires if b.pprev == null then b.nHeight == 0 else b.pprev in blocks && b.nHeight == b.pprev.nHeight + 1
    requires b.pprev != null ==>
      && GetSkipHeight(b.nHeight) < b.nHeight
      && b.pskip == Walk(blocks, b.pprev, GetSkipHeight(b.nHeight))
    ensures Tree(blocks + {b})
  {
    hide GetSkipHeight;
    var more := blocks + {b};
    LinkedMore(blocks, b);
    forall x | x in more && x.pprev != null
      ensures GetSkipHeight(x.nHeight) <= x.nHeight && x.pskip == Walk(more, x, GetSkipHeight(x.nHeight))
    {
      if x != b {
        WalkMore(blocks, more, x, GetSkipHeight(x.nHeight));
      } else {
        WalkMore(blocks, more, b.pprev, GetSkipHeight(b.nHeight));
      }
    }
  }

  /** BuildSkip on a block that was just linked to its parent extends the tree. */
  method BuildSkip(b: BlockIndex, ghost blocks: set<BlockIndex>)
    requires Tree(blocks) && b !in blocks
    requires if b.pprev == null then b.nHeight == 0 else b.pprev in blocks && b.nHeight == b.pprev.nHeight + 1
    modifies b`pskip
    ensures Tree(blocks + {b})
  {
    hide Tree, GetSkipHeight;
    if b.pprev != null {
      var skip, _ := GetAncestor(b.pprev, GetSkipHeight(b.nHeight), blocks);
      b.pskip := skip;
    }
    TreeMore(blocks, b);
  }

  // ---------- Common ancestors ----------

  /** r is the highest block that is an ancestor of both (or one of them); null if there is none. */
  ghost predicate HighestCommon(blocks: set<BlockIndex>, a: BlockIndex, b: BlockIndex, r: BlockIndex?)
    requires Linked(blocks) && a in blocks && b in blocks
    reads blocks
  {
    && (r != null ==> r in blocks && r.nHeight <= a.nHeight && r.nHeight <= b.nHeight
                      && Walk(blocks, a, r.nHeight) == r == Walk(blocks, b, r.nHeight))
    && (forall h: nat | h <= a.nHeight && h <= b.nHeight && (r == null || h > r.nHeight) ::
         Walk(blocks, a, h) != Walk(blocks, b, h))
  }

  /** Equal down from the ancestors at a common height, equal down from the blocks. */
  lemma {:induction false} CommonBelow(blocks: set<BlockIndex>, a: BlockIndex, b: BlockIndex, n: nat, r: BlockIndex?)
    requires Linked(blocks) && a in blocks && b in blocks
      && n <= a.nHeight && n <= b.nHeight && (n == a.nHeight || n == b.nHeight)
    requires HighestCommon(blocks, Walk(blocks, a, n), Walk(blocks, b, n), r)
    ensures HighestCommon(blocks, a, b, r)
  {
    var pa, pb := Walk(blocks, a, n), Walk(blocks, b, n);
    if r != null {
      WalkOn(blocks, a, n, r.nHeight);
      WalkOn(blocks, b, n, r.nHeight);
    }
    forall h: nat | h <= n && (r == null || h > r.nHeight) ensures Walk(blocks, a, h) != Walk(blocks, b, h) {
      WalkOn(blocks, a, n, h);
      WalkOn(blocks, b, n, h);
      assert Walk(blocks, pa, h) != Walk(blocks, pb, h);
    }
  }

  lemma {:induction false} CommonHere(blocks: set<BlockIndex>, a: BlockIndex)
    requires Linked(blocks) && a in blocks
    ensures HighestCommon(blocks, a, a, a)
  {
  }

  /** Two different blocks have in common what their parents have. */
  lemma {:induction false} CommonUp(blocks: set<BlockIndex>, a: BlockIndex, b: BlockIndex, r: BlockIndex?)
    requires Linked(blocks) && a in blocks && b in blocks && a != b && a.nHeight == b.nHeight
    requires if a.nHeight == 0 then r == null else HighestCommon(blocks, a.pprev, b.pprev, r)
    ensures HighestCommon(blocks, a, b, r)
  {
    if a.nHeight > 0 {
      forall h: nat | h <= a.nHeight && (r == null || h > r.nHeight) ensures Walk(blocks, a, h) != Walk(blocks, b, h) {
        if h < a.nHeight {
          assert Walk(blocks, a, h) == Walk(blocks, a.pprev, h) && Walk(blocks, b, h) == Walk(blocks, b.pprev, h);
        }
      }
    }
  }

  /** The loop of LastCommonAncestor, from two blocks of the same height. */
  method Meet(a: BlockIndex, b: BlockIndex, ghost blocks: set<BlockIndex>) returns (r: BlockIndex?)
    requires Linked(blocks) && a in blocks && b in blocks && a.nHeight == b.nHeight
    ensures HighestCommon(blocks, a, b, r)
  {
    hide HighestCommon;
    var pa: BlockIndex?, pb: BlockIndex? := a, b;
    while pa != pb && pa != null && pb != null
      invariant (pa == null) == (pb == null)
      invariant pa != null ==> pa in blocks && pb in blocks && pa.nHeight == pb.nHeight
      invariant if pa != null then
                  (forall r: BlockIndex? :: HighestCommon(blocks, pa, pb, r) ==> HighestCommon(blocks, a, b, r))
                else HighestCommon(blocks, a, b, null)
      decreases if pa == null then 0 else pa.nHeight + 1
    {
      if pa.pprev == null {
        CommonUp(blocks, pa, pb, null);
      } else {
        forall r: BlockIndex? | HighestCommon(blocks, pa.pprev, pb.pprev, r) ensures HighestCommon(blocks, pa, pb, r) {
          CommonUp(blocks, pa, pb, r);
        }
      }
      pa := pa.pprev;
      pb := pb.pprev;
    }
    assert pa == pb;
    if pa != null { CommonHere(blocks, pa); }
    return pa;
  }

  method LastCommonAncestor(a: BlockIndex, b: BlockIndex, ghost blocks: set<BlockIndex>) returns (r: BlockIndex?)
    requires Tree(blocks) && a in blocks && b in blocks
    ensures HighestCommon(blocks, a, b, r)
    ensures OneGenesis(blocks) ==> r != null
  {
    hide GetSkipHeight, HighestCommon;
    var pa: BlockIndex, pb: BlockIndex := a, b;
    if a.nHeight > b.nHeight {
      var ancestor, _ := GetAncestor(a, b.nHeight, blocks);
      pa := ancestor;
    } else if b.nHeight > a.nHeight {
      var ancestor, _ := GetAncestor(b, a.nHeight, blocks);
      pb := ancestor;
    }
    r := Meet(pa, pb, blocks);
    CommonBelow(blocks, a, b, pa.nHeight, r);
    SomeCommon(blocks, a, b, r);
  }

  ghost predicate OneGenesis(blocks: set<BlockIndex>)
    reads blocks
  {
    forall x, y | x in blocks && y in blocks && x.nHeight == 0 && y.nHeight == 0 :: x == y
  }

  lemma {:induction false} SomeCommon(blocks: set<BlockIndex>, a: BlockIndex, b: BlockIndex, r: BlockIndex?)
    requires Linked(blocks) && a in blocks && b in blocks && HighestCommon(blocks, a, b, r)
    ensures OneGenesis(blocks) ==> r != null
  {
    assert r == null ==> Walk(blocks, a, 0) != Walk(blocks, b, 0);
  }

  // ---------- The active chain ----------

  /** v lists blocks by height, each the parent of the next. */
  ghost predicate Path(blocks: set<BlockIndex>, v: seq<BlockIndex?>)
    reads blocks
  {
    && (forall i | 0 <= i < |v| :: v[i] != null && v[i] in blocks && v[i].nHeight == i)
    && (forall i | 0 < i < |v| :: v[i].pprev == v[i - 1])
  }

  /** On a path, the lower blocks are the ancestors of the higher ones. */
  lemma {:induction false} PathWalk(blocks: set<BlockIndex>, v: seq<BlockIndex?>, i: nat, h: nat)
    requires Linked(blocks) && Path(blocks, v) && h <= i < |v|
    ensures Walk(blocks, v[i], h) == v[h]
    decreases i
  {
    if h < i { PathWalk(blocks, v, i - 1, h); }
  }

  /** The path from the root to a block. */
  ghost predicate FullPath(blocks: set<BlockIndex>, v: seq<BlockIndex?>, b: BlockIndex)
    requires Linked(blocks) && b in blocks
    reads blocks
  {
    |v| == b.nHeight + 1 && forall h: nat | h <= b.nHeight :: v[h] == Walk(blocks, b, h)
  }

  lemma {:induction false} FullPathIsPath(blocks: set<BlockIndex>, v: seq<BlockIndex?>, b: BlockIndex)
    requires Linked(blocks) && b in blocks && FullPath(blocks, v, b)
    ensures Path(blocks, v)
  {
    forall i | 0 < i < |v| ensures v[i].pprev == v[i - 1] {
      WalkStep(blocks, b, i);
    }
  }

  function Resized(v: seq<BlockIndex?>, n: nat): (r: seq<BlockIndex?>)
    ensures |r| == n
  {
    if n <= |v| then v[..n] else v + seq(n - |v|, i => null)
  }

  /** If the chain already holds the ancestor at some height, it holds all below it. */
  lemma {:induction false} AlreadyThere(blocks: set<BlockIndex>, v: seq<BlockIndex?>, n: nat, b: BlockIndex, k: nat,
          h: nat)
    requires Linked(blocks) && Path(blocks, v) && b in blocks && n == b.nHeight + 1 && h <= k <= b.nHeight
    requires Resized(v, n)[k] == Walk(blocks, b, k)
    ensures Resized(v, n)[h] == Walk(blocks, b, h)
  {
    PathWalk(blocks, v, k, h);
    WalkOn(blocks, b, k, h);
  }

  /** The block at the end of a path. */
  ghost function Top(blocks: set<BlockIndex>, v: seq<BlockIndex?>): (b: BlockIndex)
    requires Path(blocks, v) && v != []
    reads blocks
    ensures b == v[|v| - 1] && b in blocks && b.nHeight == |v| - 1
  {
    v[|v| - 1]
  }

  lemma {:induction false} TreeIsLinked(blocks: set<BlockIndex>)
    requires Tree(blocks)
    ensures Linked(blocks)
  {
  }

  lemma {:induction false} ForkHere(blocks: set<BlockIndex>, v: seq<BlockIndex?>, p: BlockIndex)
    requires Linked(blocks) && Path(blocks, v) && p in blocks && p.nHeight < |v| && v[p.nHeight] == p
    ensures HighestCommon(blocks, p, Top(blocks, v), p)
  {
    PathWalk(blocks, v, |v| - 1, p.nHeight);
  }

  lemma {:induction false} ForkUp(blocks: set<BlockIndex>, v: seq<BlockIndex?>, p: BlockIndex, r: BlockIndex?)
    requires Linked(blocks) && Path(blocks, v) && p in blocks && p.nHeight < |v| && v[p.nHeight] != p
    requires if p.nHeight == 0 then r == null else HighestCommon(blocks, p.pprev, Top(blocks, v), r)
    ensures HighestCommon(blocks, p, Top(blocks, v), r)
  {
    PathWalk(blocks, v, |v| - 1, p.nHeight);
    var tip := Top(blocks, v);
    if p.nHeight > 0 {
      forall h: nat | h < p.nHeight && (r == null || h > r.nHeight) ensures Walk(blocks, p, h) != Walk(blocks, tip, h) {
        assert Walk(blocks, p, h) == Walk(blocks, p.pprev, h);
      }
    }
  }

  lemma {:induction false} ForkBelow(blocks: set<BlockIndex>, v: seq<BlockIndex?>, b: BlockIndex, p: BlockIndex,
          r: BlockIndex?)
    requires Linked(blocks) && Path(blocks, v) && v != [] && b in blocks && p in blocks
    requires p == b || (b.nHeight > |v| - 1 && p == Walk(blocks, b, |v| - 1))
    requires HighestCommon(blocks, p, Top(blocks, v), r)
    ensures HighestCommon(blocks, b, Top(blocks, v), r)
  {
    hide HighestCommon;
    if p != b { CommonBelow(blocks, b, Top(blocks, v), |v| - 1, r); }
  }

  lemma {:induction false} ForkStart(blocks: set<BlockIndex>, v: seq<BlockIndex?>, b: BlockIndex, p: BlockIndex)
    requires Linked(blocks) && b in blocks
    requires if b.nHeight > |v| - 1 then v != [] && p == Walk(blocks, b, |v| - 1) else p == b
    ensures v != [] && p in blocks && p.nHeight < |v|
  {
  }

  // ---------- Locators ----------

  function Log2(n: nat): nat { if n < 2 then 0 else 1 + Log2(n / 2) }

  lemma {:induction false} Log2Bound(k: nat, n: nat)
    requires Pow(2, k) <= n
    ensures k <= Log2(n)
  {
    if k > 0 { Log2Bound(k - 1, n / 2); }
  }

  /** How far below the start entry k of a locator is, and how far the next one is below it. */
  function Drop(k: nat): nat { if k <= 10 then k else Pow(2, k - 10) + 9 }

  function Stride(k: nat): nat { if k <= 10 then 1 else Pow(2, k - 10) }

  lemma {:induction false} DropNext(k: nat)
    ensures Drop(k + 1) == Drop(k) + Stride(k) && Stride(k) >= 1
    ensures Stride(k + 1) == if k + 1 > 10 then 2 * Stride(k) else Stride(k)
  {
    assert Pow(2, 0) == 1 && Pow(2, 1) == 2;
  }

  lemma {:induction false} DropGrows(i: nat, j: nat)
    requires i < j
    ensures Drop(i) < Drop(j)
    decreases j
  {
    DropNext(j - 1);
    if i < j - 1 { DropGrows(i, j - 1); }
  }

  function HeightOf(start: nat, k: nat): nat { if start > Drop(k) then start - Drop(k) else 0 }

  /** Entry k is the ancestor Drop(k) below the start, down to height 0. */
  ghost predicate Locates(blocks: set<BlockIndex>, b: BlockIndex, vHave: seq<BlockIndex>)
    requires Linked(blocks) && b in blocks
    reads blocks
  {
    && (forall i: nat | i < |vHave| :: vHave[i] == Walk(blocks, b, HeightOf(b.nHeight, i)))
    && (forall i: nat | i < |vHave| - 1 :: HeightOf(b.nHeight, i) > 0)
  }

  /** The first eleven gaps are one, then each is twice the one before, up to the last. */
  lemma {:induction false} LocatorGaps(blocks: set<BlockIndex>, b: BlockIndex, vHave: seq<BlockIndex>)
    requires Linked(blocks) && b in blocks && Locates(blocks, b, vHave)
    requires vHave != [] && HeightOf(b.nHeight, |vHave| - 1) == 0
    ensures forall i | 0 <= i < |vHave| - 1 && i <= 10 :: vHave[i].nHeight - vHave[i + 1].nHeight == 1
    ensures forall i | 10 < i < |vHave| - 2 ::
      vHave[i].nHeight - vHave[i + 1].nHeight == 2 * (vHave[i - 1].nHeight - vHave[i].nHeight)
  {
    hide Drop, Stride;
    forall i: nat | i < |vHave| - 1 && i <= 10 ensures vHave[i].nHeight - vHave[i + 1].nHeight == 1 {
      DropNext(i);
      FirstStrides(i);
    }
    forall i: nat | 10 < i < |vHave| - 2
      ensures vHave[i].nHeight - vHave[i + 1].nHeight == 2 * (vHave[i - 1].nHeight - vHave[i].nHeight)
    {
      DropNext(i - 1);
      DropNext(i);
    }
  }

  lemma {:induction false} FirstStrides(k: nat)
    requires k <= 10
    ensures Stride(k) == 1
  {
  }

  /** A locator starts at the block, goes strictly down to genesis and is short. */
  lemma {:induction false} LocatorShape(blocks: set<BlockIndex>, b: BlockIndex, vHave: seq<BlockIndex>)
    requires Linked(blocks) && b in blocks && Locates(blocks, b, vHave)
    requires vHave != [] && HeightOf(b.nHeight, |vHave| - 1) == 0
    ensures vHave[0] == b && vHave[|vHave| - 1].nHeight == 0
    ensures forall i, j | 0 <= i < j < |vHave| :: vHave[i].nHeight > vHave[j].nHeight
    ensures forall i | 0 <= i < |vHave| ::
      vHave[i] in blocks && vHave[i].nHeight <= b.nHeight && vHave[i] == Walk(blocks, b, vHave[i].nHeight)
    ensures if b.nHeight == 0 then |vHave| == 1 else |vHave| <= 12 + Log2(b.nHeight)
  {
    forall i: nat, j: nat | i < j < |vHave| ensures vHave[i].nHeight > vHave[j].nHeight {
      DropGrows(i, j);
    }
    var n := |vHave|;
    if n > 12 {
      assert HeightOf(b.nHeight, n - 2) > 0;
      Log2Bound(n - 12, b.nHeight);
    }
    if n > 1 { assert HeightOf(b.nHeight, 0) > 0; }
  }

  lemma {:induction false} StrideStart()
    ensures Stride(0) == 1 && Drop(0) == 0
  {
  }

  lemma {:induction false} OnPath(blocks: set<BlockIndex>, v: seq<BlockIndex?>, p: BlockIndex, h: nat)
    requires Linked(blocks) && Path(blocks, v) && p in blocks && h <= p.nHeight < |v| && v[p.nHeight] == p
    ensures v[h] == Walk(blocks, p, h)
  {
    PathWalk(blocks, v, p.nHeight, h);
  }

  class Chain {
    var vChain: seq<BlockIndex?>

    ghost predicate Valid(blocks: set<BlockIndex>)
      reads this, blocks
    {
      Path(blocks, vChain)
    }

    function Height(): int
      reads this
    {
      |vChain| - 1
    }

    function At(nHeight: int): BlockIndex?
      reads this
    {
      if nHeight < 0 || nHeight >= |vChain| then null else vChain[nHeight]
    }

    predicate Contains(b: BlockIndex)
      reads this, b
    {
      At(b.nHeight) == b
    }

    /** SetTip: the whole path to the tip, although only the part not there yet is written. */
    method SetTip(tip: BlockIndex?, ghost blocks: set<BlockIndex>)
      requires Linked(blocks) && Valid(blocks) && (tip != null ==> tip in blocks)
      modifies this
      ensures if tip == null then vChain == [] else FullPath(blocks, vChain, tip)
      ensures Valid(blocks)
    {
      if tip == null {
        vChain := [];
        return;
      }
      ghost var v := vChain;
      vChain := Resized(vChain, tip.nHeight + 1);
      var p: BlockIndex? := tip;
      while p != null && vChain[p.nHeight] != p
        invariant |vChain| == tip.nHeight + 1
        invariant p != null ==> p in blocks && p.nHeight <= tip.nHeight && p == Walk(blocks, tip, p.nHeight)
        invariant forall h: nat | h <= tip.nHeight && (p == null || h > p.nHeight) :: vChain[h] == Walk(blocks, tip, h)
        invariant p != null ==> forall h: nat | h <= p.nHeight :: vChain[h] == Resized(v, tip.nHeight + 1)[h]
        decreases if p == null then 0 else p.nHeight + 1
      {
        if p.nHeight > 0 { WalkStep(blocks, tip, p.nHeight); }
        vChain := vChain[p.nHeight := p];
        p := p.pprev;
      }
      if p != null {
        forall h: nat | h <= p.nHeight ensures vChain[h] == Walk(blocks, tip, h) {
          AlreadyThere(blocks, v, tip.nHeight + 1, tip, p.nHeight, h);
        }
      }
      FullPathIsPath(blocks, vChain, tip);
    }

    /** FindFork: the highest ancestor that is in the chain. */
    method FindFork(b: BlockIndex?, ghost blocks: set<BlockIndex>) returns (r: BlockIndex?)
      requires Tree(blocks) && Valid(blocks) && (b != null ==> b in blocks)
      ensures b == null || vChain == [] ==> r == null
      ensures b != null && vChain != [] ==> HighestCommon(blocks, b, Top(blocks, vChain), r)
    {
      hide Tree, HighestCommon, Path;
      if b == null { return null; }
      TreeIsLinked(blocks);
      r := b;
      if b.nHeight > Height() {
        var ancestor, _ := GetAncestor(b, Height(), blocks);
        r := ancestor;
      }
      if r != null {
        ghost var p: BlockIndex := r;
        ForkStart(blocks, vChain, b, p);
        r := Descend(r, blocks);
        ForkBelow(blocks, vChain, b, p, r);
      }
    }

    /** The loop of FindFork. */
    method Descend(b: BlockIndex, ghost blocks: set<BlockIndex>) returns (r: BlockIndex?)
      requires Linked(blocks) && Valid(blocks) && b in blocks && b.nHeight < |vChain|
      ensures HighestCommon(blocks, b, Top(blocks, vChain), r)
    {
      hide HighestCommon, Path;
      ghost var tip := Top(blocks, vChain);
      r := b;
      while r != null && !Contains(r)
        invariant r != null ==> r in blocks && r.nHeight < |vChain|
        invariant if r != null then
                    (forall x: BlockIndex? :: HighestCommon(blocks, r, tip, x) ==> HighestCommon(blocks, b, tip, x))
                  else HighestCommon(blocks, b, tip, null)
        decreases if r == null then 0 else r.nHeight + 1
      {
        if r.pprev == null {
          ForkUp(blocks, vChain, r, null);
        } else {
          forall x: BlockIndex? | HighestCommon(blocks, r.pprev, tip, x) ensures HighestCommon(blocks, r, tip, x) {
            ForkUp(blocks, vChain, r, x);
          }
        }
        r := r.pprev;
      }
      if r != null { ForkHere(blocks, vChain, r); }
    }

    /** GetLocator: entries with strides 1 ten times over, then doubling, from the block (or the
        tip) to genesis. */
    method GetLocator(b: BlockIndex?, ghost blocks: set<BlockIndex>) returns (vHave: seq<BlockIndex>)
      requires Tree(blocks) && Valid(blocks) && (b != null ==> b in blocks)
      ensures b == null && vChain == [] ==> vHave == []
      ensures b != null || vChain != [] ==>
        var start := if b != null then b else Top(blocks, vChain);
        Locates(blocks, start, vHave) && vHave != [] && HeightOf(start.nHeight, |vHave| - 1) == 0
    {
      hide Tree, Path;
      vHave := [];
      if b == null && |vChain| == 0 { return; }
      TreeIsLinked(blocks);
      ghost var start := if b != null then b else Top(blocks, vChain);
      var p: BlockIndex? := if b != null then b else At(Height());
      vHave := LocateFrom(p, blocks, start);
    }

    /** The loop of GetLocator. */
    method LocateFrom(b: BlockIndex?, ghost blocks: set<BlockIndex>,
            ghost start: BlockIndex) returns (vHave: seq<BlockIndex>)
      requires Tree(blocks) && Linked(blocks) && Valid(blocks) && start in blocks && b == start
      ensures Locates(blocks, start, vHave) && vHave != [] && HeightOf(start.nHeight, |vHave| - 1) == 0
    {
      hide Tree, Path, Drop, Stride;
      vHave := [];
      var nStep := 1;
      StrideStart();
      var p: BlockIndex? := b;
      while p != null
        invariant p != null ==> p in blocks && p == Walk(blocks, start, HeightOf(start.nHeight, |vHave|))
        invariant p != null && nStep == Stride(|vHave|)
        invariant Locates(blocks, start, vHave) && forall i: nat | i < |vHave| :: HeightOf(start.nHeight, i) > 0
        decreases if p == null then 0 else p.nHeight + 1
      {
        ghost var k := |vHave|;
        vHave := vHave + [p];
        if p.nHeight == 0 { break; }
        var nHeight := if p.nHeight > nStep then p.nHeight - nStep else 0;
        DropNext(k);
        WalkOn(blocks, start, p.nHeight, nHeight);
        if Contains(p) {
          OnPath(blocks, vChain, p, nHeight);
          p := At(nHeight);
        } else {
          var ancestor, _ := GetAncestor(p, nHeight, blocks);
          p := ancestor;
        }
        if |vHave| > 10 { nStep := nStep * 2; }
      }
    }
  }
}
