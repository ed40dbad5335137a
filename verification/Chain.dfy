/**
 * The block index with its skip list, and the active chain: CBlockIndex and CChain of
 * src/chain.h and src/chain.cpp.
 */
module Chain {
  import opened Arithmetic

  // ----- skip heights -----

  /** The bitwise and of two natural numbers. */
  function BitAnd(x: nat, y: nat): nat
    decreases x
  {
    if x == 0 then 0
    else (if x % 2 == 1 && y % 2 == 1 then 1 else 0) + 2 * BitAnd(x / 2, y / 2)
  }

  lemma {:induction false} BitAndBelow(x: nat, y: nat)
    ensures BitAnd(x, y) <= y && BitAnd(x, y) <= x
  {
    if x != 0 { BitAndBelow(x / 2, y / 2); }
  }

  /** n & (n - 1) */
  function InvertLowestOne(n: nat): nat { if n == 0 then 0 else BitAnd(n, n - 1) }

  lemma {:induction false} BitAndSelf(x: nat)
    ensures BitAnd(x, x) == x
  {
    if x != 0 { BitAndSelf(x / 2); }
  }

  lemma InvertOdd(n: nat)
    requires n % 2 == 1
    ensures InvertLowestOne(n) == n - 1
  {
    assert (n - 1) / 2 == n / 2;
    BitAndSelf(n / 2);
  }

  lemma InvertEven(n: nat)
    requires n % 2 == 0 && n > 0
    ensures InvertLowestOne(n) == 2 * InvertLowestOne(n / 2)
  {
    assert (n - 1) / 2 == n / 2 - 1;
  }

  /** The lowest set bit of n is the one that goes. */
  lemma {:induction false} InvertsLowestOne(n: nat, b: nat)
    requires n / Pow2(b) % 2 == 1 && n % Pow2(b) == 0
    ensures InvertLowestOne(n) == n - Pow2(b)
  {
    if b == 0 {
      InvertOdd(n);
    } else {
      HalveMultiple(n, b);
      InvertsLowestOne(n / 2, b - 1);
      InvertEven(n);
    }
  }

  lemma HalveMultiple(n: nat, b: nat)
    requires b > 0 && n % Pow2(b) == 0
    ensures n % 2 == 0 && n / 2 / Pow2(b - 1) == n / Pow2(b) && n / 2 % Pow2(b - 1) == 0
  {
    var h := n / Pow2(b);
    DivMod(n, Pow2(b));
    MulAssoc(h, 2, Pow2(b - 1));
    assert n == 2 * (h * Pow2(b - 1));
    DivModUnique(n / 2, Pow2(b - 1), h, 0);
  }

  function GetSkipHeight(height: nat): nat {
    if height < 2 then 0
    else if height % 2 == 1 then InvertLowestOne(InvertLowestOne(height - 1)) + 1
    else InvertLowestOne(height)
  }

  lemma InvertBelow(n: nat)
    ensures InvertLowestOne(n) <= if n == 0 then 0 else n - 1
  {
    if n > 0 { BitAndBelow(n, n - 1); }
  }

  /** A skip always goes down. */
  lemma SkipGoesDown(height: nat)
    requires height > 0
    ensures GetSkipHeight(height) < height
  {
    if height >= 2 {
      if height % 2 == 1 {
        InvertBelow(height - 1);
        InvertBelow(InvertLowestOne(height - 1));
      } else {
        InvertBelow(height);
      }
    }
  }

  // ----- the block index -----

  class BlockIndex {
    const pprev: BlockIndex?
    const nHeight: int
    const hash: int
    var pskip: BlockIndex?

    /** A block on top of prev, before its skip pointer is built. */
    constructor (prev: BlockIndex?, hash: int)
      ensures pprev == prev && this.hash == hash && pskip == null
      ensures nHeight == if prev == null then 0 else prev.nHeight + 1
    {
      pprev, this.hash, pskip := prev, hash, null;
      nHeight := if prev == null then 0 else prev.nHeight + 1;
    }
  }

  /** Heights count the blocks down to a genesis block. */
  ghost predicate Linked(b: BlockIndex)
    decreases b.nHeight
  {
    && b.nHeight >= 0
    && (b.nHeight == 0 ==> b.pprev == null)
    && (b.nHeight > 0 ==> b.pprev != null && b.pprev.nHeight == b.nHeight - 1 && Linked(b.pprev))
  }

  /** The plain walk along pprev. */
  ghost function Ancestor(b: BlockIndex, h: int): (a: BlockIndex)
    requires Linked(b) && 0 <= h <= b.nHeight
    ensures Linked(a) && a.nHeight == h
    decreases b.nHeight
  {
    if b.nHeight == h then b else Ancestor(b.pprev, h)
  }

  lemma {:induction false} AncestorOfAncestor(b: BlockIndex, h: int, g: int)
    requires Linked(b) && 0 <= g <= h <= b.nHeight
    ensures Ancestor(Ancestor(b, h), g) == Ancestor(b, g)
    decreases b.nHeight
  {
    if h < b.nHeight { AncestorOfAncestor(b.pprev, h, g); }
  }

  /** A skip pointer is absent or leads to the ancestor at the skip height. */
  ghost predicate SkipOk(b: BlockIndex)
    requires Linked(b)
    reads b
  {
    b.pskip == null || (b.nHeight > 0 && GetSkipHeight(b.nHeight) < b.nHeight
                        && b.pskip == Ancestor(b, GetSkipHeight(b.nHeight)))
  }

  /** A set of blocks closed under pprev, with sound skip pointers (mapBlockIndex). */
  ghost predicate Indexed(blocks: set<BlockIndex>)
    reads blocks
  {
    forall b | b in blocks :: Linked(b) && (b.pprev != null ==> b.pprev in blocks) && SkipOk(b)
  }

  lemma {:induction false} AncestorIndexed(blocks: set<BlockIndex>, b: BlockIndex, h: int)
    requires Indexed(blocks) && b in blocks && 0 <= h <= b.nHeight
    ensures Ancestor(b, h) in blocks
    decreases b.nHeight
  {
    if h < b.nHeight { AncestorIndexed(blocks, b.pprev, h); }
  }

  /** GetAncestor: the skip list finds what the plain walk finds. */
  method GetAncestor(b: BlockIndex, height: int, ghost blocks: set<BlockIndex>) returns (r: BlockIndex?)
    requires Indexed(blocks) && b in blocks
    ensures r == if height > b.nHeight || height < 0 then null else Ancestor(b, height)
  {
    if height > b.nHeight || height < 0 {
      return null;
    }
    var walk: BlockIndex, heightWalk := b, b.nHeight;
    while heightWalk > height
      invariant height <= heightWalk <= b.nHeight && heightWalk == walk.nHeight
      invariant walk in blocks && walk == Ancestor(b, heightWalk)
      decreases heightWalk
    {
      var heightSkip := GetSkipHeight(heightWalk);
      var heightSkipPrev := GetSkipHeight(heightWalk - 1);
      if walk.pskip != null
        && (heightSkip == height
            || (heightSkip > height && !(heightSkipPrev < heightSkip - 2 && heightSkipPrev >= height))) {
        AncestorOfAncestor(b, heightWalk, heightSkip);
        AncestorIndexed(blocks, b, heightSkip);
        walk, heightWalk := walk.pskip, heightSkip;
      } else {
        AncestorOfAncestor(b, heightWalk, heightWalk - 1);
        walk, heightWalk := walk.pprev, heightWalk - 1;
      }
    }
    return walk;
  }

  /** BuildSkip: the new block joins the index. */
  method BuildSkip(b: BlockIndex, ghost blocks: set<BlockIndex>)
    requires Linked(b) && Indexed(blocks) && (b.pprev != null ==> b.pprev in blocks)
    requires b !in blocks ==> b.pskip == null
    modifies b`pskip
    ensures Indexed(blocks + {b})
    ensures b.pprev != null ==> GetSkipHeight(b.nHeight) < b.nHeight && b.pskip == Ancestor(b, GetSkipHeight(b.nHeight))
  {
    if b.pprev != null {
      SkipGoesDown(b.nHeight);
      b.pskip := GetAncestor(b.pprev, GetSkipHeight(b.nHeight), blocks);
    }
  }

  // ----- the active chain -----

  /** Reach(i): how far below the start the i-th entry of a locator lies. */
  function Reach(i: nat): nat { if i <= 10 then i else 9 + Pow2(i - 10) }

  function StepBack(i: nat): nat { if i <= 10 then 1 else Pow2(i - 10) }

  lemma ReachStep(i: nat)
    ensures Reach(i + 1) == Reach(i) + StepBack(i)
  {
    if i == 10 { assert Pow2(1) == 2; }
  }

  lemma {:induction false} ReachMono(i: nat, j: nat)
    requires i <= j
    ensures Reach(i) + (j - i) <= Reach(j)
  {
    if i < j { ReachMono(i, j - 1); ReachStep(j - 1); }
  }

  class Chain {
    var vChain: seq<BlockIndex?>

    /** Each entry is at its height and on top of the entry below. */
    ghost predicate Valid()
      reads this
    {
      Threaded(vChain)
    }

    constructor ()
      ensures Valid() && vChain == []
    {
      vChain := [];
    }

    function Height(): int
      reads this
    {
      |vChain| - 1
    }

    /** operator[]: NULL outside the chain. */
    function At(nHeight: int): BlockIndex?
      reads this
    {
      if nHeight < 0 || nHeight >= |vChain| then null else vChain[nHeight]
    }

    predicate Contains(b: BlockIndex)
      reads this
    {
      At(b.nHeight) == b
    }

    /** SetTip: the chain becomes the ancestry of the tip, although the loop stops early. */
    method SetTip(pindex: BlockIndex?)
      requires Valid() && (pindex != null ==> Linked(pindex))
      modifies this
      ensures Valid()
      ensures if pindex == null then vChain == [] else IsAncestry(vChain, pindex)
    {
      if pindex == null {
        vChain := [];
        return;
      }
      ghost var before := vChain;
      var size := pindex.nHeight + 1;
      vChain := if size <= |vChain| then vChain[..size] else vChain + seq(size - |vChain|, i => null);
      var p: BlockIndex? := pindex;
      ghost var k := size;
      while p != null && vChain[p.nHeight] != p
        invariant 0 <= k <= size == |vChain|
        invariant if k == 0 then p == null else p == Ancestor(pindex, k - 1)
        invariant forall h | k <= h < size :: vChain[h] == Ancestor(pindex, h)
        invariant forall h | 0 <= h < k :: vChain[h] == if h < |before| then before[h] else null
        decreases k
      {
        vChain := vChain[p.nHeight := p];
        if k >= 2 { AncestorOfAncestor(pindex, k - 1, k - 2); }
        p, k := p.pprev, k - 1;
      }
      if p != null {
        BelowIsAncestry(before, vChain, pindex, k - 1);
      }
      AncestryIsThreaded(vChain, pindex);
    }

    /** The start of FindFork: the block or its ancestor at the height of the chain. */
    method NotAbove(pindex: BlockIndex, ghost blocks: set<BlockIndex>) returns (p: BlockIndex?, ghost k: int)
      requires Valid() && Indexed(blocks) && pindex in blocks
      ensures Searching(vChain, pindex, p, k)
    {
      p, k := pindex, pindex.nHeight + 1;
      if pindex.nHeight > Height() {
        p := GetAncestor(pindex, Height(), blocks);
        k := Height() + 1;
      }
    }

    /** FindFork: the last block that the chain and the ancestry of pindex share. */
    method FindFork(pindex: BlockIndex?, ghost blocks: set<BlockIndex>) returns (r: BlockIndex?)
      requires Valid() && Indexed(blocks) && (pindex != null ==> pindex in blocks)
      ensures if pindex == null then r == null else IsFork(vChain, pindex, r)
    {
      if pindex == null {
        return null;
      }
      var p, k := NotAbove(pindex, blocks);
      while p != null && !Contains(p)
        invariant Searching(vChain, pindex, p, k)
        decreases k
      {
        SearchDown(vChain, pindex, p, k);
        p, k := p.pprev, k - 1;
      }
      SearchEnds(vChain, pindex, p, k);
      return p;
    }

    /** GetLocator: ancestors at exponentially growing distances, down to genesis. */
    method GetLocator(pindex: BlockIndex?, ghost blocks: set<BlockIndex>) returns (vHave: seq<int>)
      requires Valid() && Indexed(blocks) && (pindex != null ==> pindex in blocks)
      requires forall h | 0 <= h < |vChain| :: vChain[h] in blocks
      ensures var start := if pindex == null then At(Height()) else pindex;
              if start == null then vHave == [] else Linked(start) && IsLocator(vHave, start)
    {
      vHave := [];
      var start := if pindex == null then At(Height()) else pindex;
      if start == null {
        return;
      }
      vHave := LocatorFrom(start, blocks);
    }

    /** The loop of GetLocator. */
    method LocatorFrom(start: BlockIndex, ghost blocks: set<BlockIndex>) returns (vHave: seq<int>)
      requires Valid() && Indexed(blocks) && start in blocks
      ensures IsLocator(vHave, start)
    {
      vHave := [];
      var nStep, p: BlockIndex := 1, start;
      while true
        invariant p in blocks && Locating(vHave, start, p, nStep)
        decreases start.nHeight - |vHave|
      {
        LocatingNext(vHave, start, p, nStep);
        vHave := vHave + [p.hash];
        if p.nHeight == 0 {
          return;
        }
        p := StepDown(p, Max(p.nHeight - nStep, 0), blocks);
        if |vHave| > 10 {
          nStep := nStep * 2;
        }
      }
    }

    /** One step back, through the chain when p is in it and through the skip list otherwise. */
    method StepDown(p: BlockIndex, nHeight: nat, ghost blocks: set<BlockIndex>) returns (r: BlockIndex)
      requires Valid() && Indexed(blocks) && p in blocks && nHeight <= p.nHeight
      ensures r in blocks && r == Ancestor(p, nHeight)
    {
      AncestorIndexed(blocks, p, nHeight);
      if Contains(p) {
        CommonBelow(vChain, p, p.nHeight);
        r := At(nHeight);
      } else {
        r := GetAncestor(p, nHeight, blocks);
      }
    }
  }

  /** v lists exactly the ancestors of tip, by height. */
  ghost predicate IsAncestry(v: seq<BlockIndex?>, tip: BlockIndex)
    requires Linked(tip)
  {
    |v| == tip.nHeight + 1 && forall h | 0 <= h < |v| :: v[h] == Ancestor(tip, h)
  }

  ghost predicate Shares(v: seq<BlockIndex?>, b: BlockIndex, h: int)
    requires Linked(b) && 0 <= h <= b.nHeight
  {
    h < |v| && v[h] == Ancestor(b, h)
  }

  /** Nothing at height k or above is shared; p is the ancestor at k - 1. */
  ghost predicate Searching(v: seq<BlockIndex?>, b: BlockIndex, p: BlockIndex?, k: int) {
    && Linked(b) && 0 <= k <= b.nHeight + 1
    && (if k == 0 then p == null else p == Ancestor(b, k - 1))
    && forall h | k <= h <= b.nHeight :: !Shares(v, b, h)
  }

  lemma SearchDown(v: seq<BlockIndex?>, b: BlockIndex, p: BlockIndex, k: int)
    requires Searching(v, b, p, k) && !(p.nHeight < |v| && v[p.nHeight] == p)
    ensures k > 0 && Searching(v, b, p.pprev, k - 1)
  {
    if k >= 2 { AncestorOfAncestor(b, k - 1, k - 2); }
  }

  lemma SearchEnds(v: seq<BlockIndex?>, b: BlockIndex, p: BlockIndex?, k: int)
    requires Threaded(v) && Searching(v, b, p, k) && (p != null ==> 0 <= p.nHeight < |v| && v[p.nHeight] == p)
    ensures IsFork(v, b, p)
  {
    if p != null { CommonBelow(v, b, k - 1); }
  }

  /** Up to r the chain and b's ancestry agree at every height, above r at none. */
  ghost predicate IsFork(v: seq<BlockIndex?>, b: BlockIndex, r: BlockIndex?)
    requires Linked(b)
  {
    var top := if r == null then -1 else r.nHeight;
    && (r != null ==> 0 <= top <= b.nHeight && r == Ancestor(b, top))
    && forall h | 0 <= h <= b.nHeight :: Shares(v, b, h) <==> h <= top
  }

  ghost predicate Threaded(v: seq<BlockIndex?>) {
    && (forall h | 0 <= h < |v| :: v[h] != null && Linked(v[h]) && v[h].nHeight == h)
    && (forall h | 1 <= h < |v| :: v[h].pprev == v[h - 1])
  }

  lemma {:induction false} ThreadedAncestor(v: seq<BlockIndex?>, k: nat, h: nat)
    requires Threaded(v) && h <= k < |v|
    ensures v[h] == Ancestor(v[k], h)
  {
    if h < k { ThreadedAncestor(v, k - 1, h); }
  }

  /** Below the block where SetTip stops, the old entries already are the tip's ancestors. */
  lemma BelowIsAncestry(before: seq<BlockIndex?>, v: seq<BlockIndex?>, tip: BlockIndex, k: nat)
    requires Threaded(before) && Linked(tip) && |v| == tip.nHeight + 1 && k < |v|
    requires v[k] == Ancestor(tip, k)
    requires forall h | k <= h < |v| :: v[h] == Ancestor(tip, h)
    requires forall h | 0 <= h <= k :: v[h] == if h < |before| then before[h] else null
    ensures forall h | 0 <= h < |v| :: v[h] == Ancestor(tip, h)
  {
    forall h | 0 <= h < k ensures v[h] == Ancestor(tip, h) {
      assert v[k] != null;
      ThreadedAncestor(before, k, h);
      AncestorOfAncestor(tip, k, h);
    }
  }

  lemma AncestryIsThreaded(v: seq<BlockIndex?>, tip: BlockIndex)
    requires Linked(tip) && |v| == tip.nHeight + 1
    requires forall h | 0 <= h < |v| :: v[h] == Ancestor(tip, h)
    ensures Threaded(v)
  {
    forall h | 1 <= h < |v| ensures v[h].pprev == v[h - 1] {
      AncestorOfAncestor(tip, h, h - 1);
    }
  }

  /** If a chain holds b's ancestor at k, it holds all of b's ancestors below. */
  lemma CommonBelow(v: seq<BlockIndex?>, b: BlockIndex, k: nat)
    requires Threaded(v) && Linked(b) && k <= b.nHeight && k < |v| && v[k] == Ancestor(b, k)
    ensures forall h | 0 <= h <= k :: v[h] == Ancestor(b, h)
  {
    forall h | 0 <= h <= k ensures v[h] == Ancestor(b, h) {
      ThreadedAncestor(v, k, h);
      AncestorOfAncestor(b, k, h);
    }
  }

  /** operator== looks at size and tip only; that is enough. */
  lemma SameTipSameChain(v: seq<BlockIndex?>, w: seq<BlockIndex?>)
    requires Threaded(v) && Threaded(w) && |v| == |w| > 0 && v[|v| - 1] == w[|w| - 1]
    ensures v == w
  {
    forall h | 0 <= h < |v| ensures v[h] == w[h] {
      ThreadedAncestor(v, |v| - 1, h);
      ThreadedAncestor(w, |w| - 1, h);
    }
  }

  /** The i-th block of the locator of start. */
  ghost function LocatorBlock(start: BlockIndex, i: nat): (b: BlockIndex)
    requires Linked(start)
    ensures Linked(b) && b.nHeight == Max(start.nHeight - Reach(i), 0)
  {
    Ancestor(start, Max(start.nHeight - Reach(i), 0))
  }

  ghost predicate LocatorSoFar(vHave: seq<int>, start: BlockIndex)
    requires Linked(start)
  {
    forall i | 0 <= i < |vHave| :: vHave[i] == LocatorBlock(start, i).hash
  }

  ghost predicate BeforeEnd(start: BlockIndex, i: nat) {
    i > 0 ==> Reach(i - 1) < start.nHeight
  }

  /** The entries lie at distances Reach(0), Reach(1), ... and end with the first that meets genesis. */
  ghost predicate IsLocator(vHave: seq<int>, start: BlockIndex)
    requires Linked(start)
  {
    && |vHave| > 0
    && LocatorSoFar(vHave, start)
    && Reach(|vHave| - 1) >= start.nHeight
    && BeforeEnd(start, |vHave| - 1)
  }

  /** p comes next, and nStep is the step to the one after it. */
  ghost predicate Locating(vHave: seq<int>, start: BlockIndex, p: BlockIndex, nStep: int) {
    && Linked(start) && p == LocatorBlock(start, |vHave|) && nStep == StepBack(|vHave|)
    && LocatorSoFar(vHave, start) && BeforeEnd(start, |vHave|)
  }

  lemma LocatingNext(vHave: seq<int>, start: BlockIndex, p: BlockIndex, nStep: int)
    requires Locating(vHave, start, p, nStep)
    ensures p.nHeight == 0 ==> IsLocator(vHave + [p.hash], start)
    ensures p.nHeight > 0 ==> |vHave| < start.nHeight
    ensures p.nHeight > 0 ==> Locating(vHave + [p.hash], start, Ancestor(p, Max(p.nHeight - nStep, 0)),
                                       if |vHave| + 1 > 10 then nStep * 2 else nStep)
  {
    LocatorNext(start, |vHave|);
  }

  lemma LocatorNext(start: BlockIndex, i: nat)
    requires Linked(start)
    ensures StepBack(i + 1) == if i + 1 > 10 then 2 * StepBack(i) else StepBack(i)
    ensures var p := LocatorBlock(start, i); p.nHeight > 0 ==>
      && i < start.nHeight && BeforeEnd(start, i + 1)
      && LocatorBlock(start, i + 1) == Ancestor(p, Max(p.nHeight - StepBack(i), 0))
  {
    var p := LocatorBlock(start, i);
    if i == 10 { assert Pow2(1) == 2; }
    if p.nHeight > 0 {
      ReachMono(0, i);
      ReachStep(i);
      AncestorOfAncestor(start, p.nHeight, Max(p.nHeight - StepBack(i), 0));
    }
  }

  /** A locator has strictly descending heights, ends with genesis and is logarithmically short. */
  lemma LocatorShape(vHave: seq<int>, start: BlockIndex)
    requires Linked(start) && IsLocator(vHave, start)
    ensures vHave[0] == start.hash && vHave[|vHave| - 1] == Ancestor(start, 0).hash
    ensures forall i, j | 0 <= i < j < |vHave| ::
              LocatorBlock(start, i).nHeight > LocatorBlock(start, j).nHeight
    ensures |vHave| <= 12 || Pow2(|vHave| - 12) < start.nHeight
  {
    forall i, j | 0 <= i < j < |vHave|
      ensures LocatorBlock(start, i).nHeight > LocatorBlock(start, j).nHeight
    {
      ReachMono(i, j);
      ReachMono(i, |vHave| - 2);
    }
  }
}
