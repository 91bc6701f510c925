/**
 The block tree: skip pointers, ancestor lookup and the active chain (src/chain.cpp:21-129 and
 :158-174, src/chain.h).
 */
module BlockTree {

  /** Bitwise and. */
  function And(a: nat, b: nat): (r: nat)
    ensures r <= a && r <= b
  {
    if a == 0 || b == 0 then 0 else 2 * And(a / 2, b / 2) + if a % 2 == 1 && b % 2 == 1 then 1 else 0
  }

  /** Turn the lowest '1' bit into a '0'. */
  function InvertLowestOne(n: nat): (r: nat)
    ensures n > 0 ==> r < n
  {
    if n == 0 then 0 else And(n, n - 1)
  }

  /** What height to jump back to with the skip pointer. */
  function GetSkipHeight(height: nat): (r: nat)
    ensures height > 0 ==> r < height
    ensures height < 2 ==> r == 0
  {
    if height < 2 then 0
    else if height % 2 == 1 then InvertLowestOne(InvertLowestOne(height - 1)) + 1
    else InvertLowestOne(height)
  }

  class CBlockIndex {
    const pprev: CBlockIndex?
    const nHeight: nat
    var pskip: CBlockIndex?

    constructor (prev: CBlockIndex?, height: nat)
      ensures pprev == prev && nHeight == height && pskip == null
    {
      pprev, nHeight, pskip := prev, height, null;
    }
  }

  // ---------------------------------------------------------------- following parent pointers

  /** n parents up from b. */
  ghost function Up(b: CBlockIndex, n: nat): CBlockIndex? {
    if n == 0 then b else if b.pprev == null then null else Up(b.pprev, n - 1)
  }

  /** Heights count the blocks down to one without a parent. */
  ghost predicate Rooted(b: CBlockIndex)
    decreases b.nHeight
  {
    if b.nHeight == 0 then b.pprev == null
    else b.pprev != null && b.pprev.nHeight == b.nHeight - 1 && Rooted(b.pprev)
  }

  /** The ancestor at this height. */
  ghost function AncestorAt(b: CBlockIndex, height: int): CBlockIndex? {
    if height < 0 || height > b.nHeight then null else Up(b, b.nHeight - height)
  }

  lemma {:induction false} UpHeight(b: CBlockIndex, n: nat)
    requires Rooted(b) && n <= b.nHeight
    ensures Up(b, n) != null && Up(b, n).nHeight == b.nHeight - n && Rooted(Up(b, n))
    decreases n
  {
    if n > 0 {
      UpHeight(b.pprev, n - 1);
    }
  }

  lemma {:induction false} UpUp(b: CBlockIndex, m: nat, n: nat)
    requires Rooted(b) && m + n <= b.nHeight
    ensures Up(b, m) != null && Up(Up(b, m), n) == Up(b, m + n)
    decreases m
  {
    UpHeight(b, m);
    if m > 0 {
      UpUp(b.pprev, m - 1, n);
    }
  }

  /** An ancestor's ancestors are one's own. */
  lemma AncestorOfAncestor(b: CBlockIndex, h: nat, k: nat)
    requires Rooted(b) && k <= h <= b.nHeight
    ensures AncestorAt(b, h) != null && AncestorAt(b, h).nHeight == h && Rooted(AncestorAt(b, h))
    ensures AncestorAt(AncestorAt(b, h), k) == AncestorAt(b, k)
  {
    UpHeight(b, b.nHeight - h);
    UpUp(b, b.nHeight - h, h - k);
  }

  /** x is b's ancestor at height p. */
  ghost predicate IsAncestor(b: CBlockIndex, p: int, x: CBlockIndex?) {
    x != null && 0 <= p <= b.nHeight && x == AncestorAt(b, p) && x.nHeight == p && Rooted(x)
  }

  /** Its parent is the ancestor one below. */
  lemma ParentStep(b: CBlockIndex, p: int, x: CBlockIndex)
    requires Rooted(b) && p > 0 && IsAncestor(b, p, x)
    ensures IsAncestor(b, p - 1, x.pprev)
  {
    AncestorOfAncestor(b, p, p - 1);
    assert Up(x, 1) == x.pprev by { assert Up(x.pprev, 0) == x.pprev; }
  }

  lemma AncestorExists(b: CBlockIndex, p: int)
    requires Rooted(b) && 0 <= p <= b.nHeight
    ensures IsAncestor(b, p, AncestorAt(b, p))
  {
    UpHeight(b, b.nHeight - p);
  }

  /** A set of blocks that contains their parents. */
  ghost predicate IsTree(tree: set<CBlockIndex>) {
    forall b <- tree :: Rooted(b) && (b.pprev != null ==> b.pprev in tree)
  }

  /** Skip pointers that are set lead to the right ancestor. */
  ghost predicate SkipsOk(tree: set<CBlockIndex>)
    reads tree
  {
    forall b <- tree :: b.pskip != null ==> b.pskip == AncestorAt(b, GetSkipHeight(b.nHeight))
  }

  lemma {:induction false} UpInTree(tree: set<CBlockIndex>, b: CBlockIndex, n: nat)
    requires IsTree(tree) && b in tree && n <= b.nHeight
    ensures Up(b, n) != null && Up(b, n) in tree
    decreases n
  {
    if n > 0 {
      UpInTree(tree, b.pprev, n - 1);
    }
  }

  // ---------------------------------------------------------------- GetAncestor and BuildSkip

  /** GetAncestor: the same block as following parent pointers. */
  method GetAncestor(block: CBlockIndex, height: int, ghost tree: set<CBlockIndex>) returns (r: CBlockIndex?)
    requires IsTree(tree) && SkipsOk(tree) && block in tree
    ensures r == AncestorAt(block, height)
    ensures r != null <==> 0 <= height <= block.nHeight
    ensures r != null ==> r in tree && r.nHeight == height
  {
    if height > block.nHeight || height < 0 {
      return null;
    }
    var walk, heightWalk := block, block.nHeight;
    while heightWalk > height
      invariant height <= heightWalk <= block.nHeight && walk in tree && walk.nHeight == heightWalk
      invariant walk == AncestorAt(block, heightWalk)
      decreases heightWalk
    {
      var heightSkip := GetSkipHeight(heightWalk);
      var heightSkipPrev := GetSkipHeight(heightWalk - 1);
      if walk.pskip != null &&
         (heightSkip == height || (heightSkip > height && !(heightSkipPrev < heightSkip - 2 && heightSkipPrev >= height))) {
        // only follow pskip if pprev->pskip isn't better than pskip->pprev
        AncestorOfAncestor(block, heightWalk, heightSkip);
        UpInTree(tree, walk, heightWalk - heightSkip);
        UpHeight(walk, heightWalk - heightSkip);
        walk := walk.pskip;
        heightWalk := heightSkip;
      } else {
        AncestorOfAncestor(block, heightWalk, heightWalk - 1);
        assert Up(walk, 1) == walk.pprev by { assert Up(walk.pprev, 0) == walk.pprev; }
        walk := walk.pprev;
        heightWalk := heightWalk - 1;
      }
    }
    return walk;
  }

  /** BuildSkip: the new skip pointer is right, and no other changes. */
  method BuildSkip(block: CBlockIndex, ghost tree: set<CBlockIndex>)
    requires IsTree(tree) && SkipsOk(tree) && block in tree
    modifies block
    ensures SkipsOk(tree)
    ensures block.pskip == if block.pprev == null then old(block.pskip) else AncestorAt(block, GetSkipHeight(block.nHeight))
  {
    if block.pprev != null {
      var h := GetSkipHeight(block.nHeight);
      AncestorOfAncestor(block, block.nHeight - 1, h);
      assert Up(block, 1) == block.pprev by { assert Up(block.pprev, 0) == block.pprev; }
      var skip := GetAncestor(block.pprev, h, tree);
      block.pskip := skip;
    }
  }

  // ---------------------------------------------------------------- the active chain

  class CChain {
    var vChain: seq<CBlockIndex?>

    /** Every slot holds the parent of the block in the next slot. */
    ghost predicate Valid()
      reads this
    {
      IsChain(vChain)
    }

    constructor ()
      ensures Valid() && vChain == []
    {
      vChain := [];
    }

    function Height(): int
      reads this
    {
      |vChain| - 1
    }

    /** operator[]. */
    function At(height: int): CBlockIndex?
      reads this
    {
      if height < 0 || height >= |vChain| then null else vChain[height]
    }

    predicate Contains(p: CBlockIndex)
      reads this
    {
      At(p.nHeight) == p
    }

    /** SetTip: afterwards every slot holds the new tip's ancestor at that height. */
    method SetTip(block: CBlockIndex)
      requires Valid() && Rooted(block)
      modifies this
      ensures Valid() && |vChain| == block.nHeight + 1
      ensures forall i :: 0 <= i <= block.nHeight ==> vChain[i] == AncestorAt(block, i)
    {
      var h := block.nHeight;
      ghost var before := vChain;
      vChain := if |vChain| > h then vChain[..h + 1] else vChain + seq(h + 1 - |vChain|, _ => null);
      ghost var resized := vChain;
      var pindex: CBlockIndex? := block;
      ghost var p: int := h;
      while pindex != null && vChain[pindex.nHeight] != pindex
        invariant -1 <= p <= h && |vChain| == h + 1
        invariant if p == -1 then pindex == null else IsAncestor(block, p, pindex)
        invariant forall i :: p < i <= h ==> vChain[i] == AncestorAt(block, i)
        invariant forall i :: 0 <= i <= p ==> vChain[i] == resized[i]
        decreases p
      {
        if p > 0 {
          ParentStep(block, p, pindex);
        }
        vChain := vChain[pindex.nHeight := pindex];
        pindex := pindex.pprev;
        p := p - 1;
      }
      if p >= 0 {
        MatchBelow(before, resized, block, p);
      }
      AncestorsForm(vChain, block);
    }

    /** No ancestor of b above height p is in this chain. */
    ghost predicate NoneAbove(b: CBlockIndex, p: int)
      reads this
    {
      forall i :: p < i <= b.nHeight ==> NotContained(AncestorAt(b, i))
    }

    ghost predicate NotContained(x: CBlockIndex?)
      reads this
    {
      x != null ==> !Contains(x)
    }

    /** FindFork: the last block of this chain among pindex's ancestors (pindex included). */
    method FindFork(pindex: CBlockIndex?, ghost tree: set<CBlockIndex>) returns (r: CBlockIndex?)
      requires Valid() && IsTree(tree) && SkipsOk(tree) && (pindex != null ==> pindex in tree)
      ensures r != null ==> pindex != null && Contains(r) && r == AncestorAt(pindex, r.nHeight)
      ensures pindex != null ==> NoneAbove(pindex, if r == null then -1 else r.nHeight)
    {
      if pindex == null {
        return null;
      }
      r := pindex;
      if pindex.nHeight > Height() {
        r := GetAncestor(pindex, Height(), tree);
      }
      TooHigh(pindex);
      if r != null {
        AncestorExists(pindex, r.nHeight);
        r := WalkToFork(pindex, r);
      }
    }

    /** Follow parent pointers into the chain. */
    method WalkToFork(b: CBlockIndex, start: CBlockIndex) returns (r: CBlockIndex?)
      requires Rooted(b) && IsAncestor(b, start.nHeight, start) && NoneAbove(b, start.nHeight)
      ensures r != null ==> Contains(r) && r == AncestorAt(b, r.nHeight)
      ensures NoneAbove(b, if r == null then -1 else r.nHeight)
    {
      r := start;
      ghost var p: int := start.nHeight;
      while r != null && !Contains(r)
        invariant -1 <= p && (if p == -1 then r == null else IsAncestor(b, p, r)) && NoneAbove(b, p)
        decreases p
      {
        if p > 0 {
          ParentStep(b, p, r);
        }
        r := r.pprev;
        p := p - 1;
      }
    }

    /** Blocks above the tip are not in the chain. */
    lemma TooHigh(b: CBlockIndex)
      requires Rooted(b)
      ensures NoneAbove(b, Height())
    {
      forall i | Height() < i <= b.nHeight ensures NotContained(AncestorAt(b, i)) {
        if i >= 0 { UpHeight(b, b.nHeight - i); }
      }
    }
  }

  ghost predicate HoldsParent(v: seq<CBlockIndex?>, i: nat)
    requires 0 < i < |v|
  {
    v[i] != null && v[i].pprev == v[i - 1]
  }

  ghost predicate IsChain(v: seq<CBlockIndex?>) {
    && (forall i :: 0 <= i < |v| ==> v[i] != null && Rooted(v[i]) && v[i].nHeight == i)
    && (forall i :: 0 < i < |v| ==> HoldsParent(v, i))
  }

  /** Where the new tip's ancestor is already in place, so are all below. */
  lemma MatchBelow(before: seq<CBlockIndex?>, resized: seq<CBlockIndex?>, block: CBlockIndex, p: nat)
    requires IsChain(before)
    requires p < |resized| && (forall i :: 0 <= i < |resized| ==> resized[i] == if i < |before| then before[i] else null)
    requires Rooted(block) && p <= block.nHeight && resized[p] == AncestorAt(block, p)
    ensures forall i :: 0 <= i <= p ==> resized[i] == AncestorAt(block, i)
  {
    UpHeight(block, block.nHeight - p);
    forall i | 0 <= i <= p ensures resized[i] == AncestorAt(block, i) {
      SlotsBelow(before, p, i);
      AncestorOfAncestor(block, p, i);
    }
  }

  lemma {:induction false} SlotsBelow(v: seq<CBlockIndex?>, p: nat, i: nat)
    requires IsChain(v) && i <= p < |v|
    ensures v[i] == AncestorAt(v[p], i)
    decreases p - i
  {
    if i < p {
      SlotsBelow(v, p - 1, i);
      assert HoldsParent(v, p);
      AncestorOfAncestor(v[p], p - 1, i);
      assert Up(v[p], 1) == v[p - 1] by { assert Up(v[p - 1], 0) == v[p - 1]; }
    }
  }

  /** The ancestors of a block, in order, form a chain. */
  lemma AncestorsForm(v: seq<CBlockIndex?>, block: CBlockIndex)
    requires Rooted(block) && |v| == block.nHeight + 1 && forall i :: 0 <= i < |v| ==> v[i] == AncestorAt(block, i)
    ensures IsChain(v)
  {
    forall i | 0 <= i < |v| ensures v[i] != null && Rooted(v[i]) && v[i].nHeight == i {
      UpHeight(block, block.nHeight - i);
    }
    forall i | 0 < i < |v| ensures HoldsParent(v, i) {
      AncestorOfAncestor(block, i, i - 1);
      assert Up(v[i], 1) == v[i].pprev by { assert Up(v[i].pprev, 0) == v[i].pprev; }
    }
  }

  /** Above height p the two have no ancestor in common. */
  ghost predicate ApartAbove(a: CBlockIndex, b: CBlockIndex, p: int) {
    forall i :: p < i <= a.nHeight && i <= b.nHeight ==> AncestorAt(a, i) != AncestorAt(b, i)
  }

  /** LastCommonAncestor: the highest block that is an ancestor of both. */
  method LastCommonAncestor(a: CBlockIndex, b: CBlockIndex, ghost tree: set<CBlockIndex>) returns (r: CBlockIndex)
    requires IsTree(tree) && SkipsOk(tree) && a in tree && b in tree && AncestorAt(a, 0) == AncestorAt(b, 0)
    ensures r == AncestorAt(a, r.nHeight) && r == AncestorAt(b, r.nHeight) && ApartAbove(a, b, r.nHeight)
  {
    var pa, pb: CBlockIndex? := a, b;
    if a.nHeight > b.nHeight {
      pa := GetAncestor(a, b.nHeight, tree);
    } else if b.nHeight > a.nHeight {
      pb := GetAncestor(b, a.nHeight, tree);
    }
    ghost var p := if a.nHeight < b.nHeight then a.nHeight else b.nHeight;
    AncestorExists(a, p);
    AncestorExists(b, p);
    r := WalkTogether(a, b, pa, pb);
  }

  /** From the same height, follow both parent pointers until they meet. */
  method WalkTogether(a: CBlockIndex, b: CBlockIndex, qa: CBlockIndex, qb: CBlockIndex) returns (r: CBlockIndex)
    requires Rooted(a) && Rooted(b) && AncestorAt(a, 0) == AncestorAt(b, 0)
    requires IsAncestor(a, qa.nHeight, qa) && IsAncestor(b, qa.nHeight, qb) && ApartAbove(a, b, qa.nHeight)
    ensures r == AncestorAt(a, r.nHeight) && r == AncestorAt(b, r.nHeight) && ApartAbove(a, b, r.nHeight)
  {
    var pa, pb: CBlockIndex? := qa, qb;
    ghost var p: int := qa.nHeight;
    while pa != pb && pa != null && pb != null
      invariant IsAncestor(a, p, pa) && IsAncestor(b, p, pb) && ApartAbove(a, b, p)
      decreases p
    {
      assert p > 0;
      ParentStep(a, p, pa);
      ParentStep(b, p, pb);
      pa, pb := pa.pprev, pb.pprev;
      p := p - 1;
    }
    assert pa == pb;
    return pa;
  }
}
