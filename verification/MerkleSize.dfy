/**
 * The size of a serialized partial Merkle tree, against the guarantees in the documentation of
 * CPartialMerkleTree in src/merkleblock.h.
 */
module MerkleSize {
  import opened Arithmetic
  import opened PartialMerkle

  /** GetSizeOfCompactSize of src/serialize.h. */
  function CompactSize(n: nat): nat { if n < 253 then 1 else if n <= 0xffff then 3 else if n <= 0xffff_ffff then 5 else 9 }

  /** The number of bytes that SerializationOp writes. */
  function WireSize(t: Tree): nat {
    var hashes, bytes := |t.encoding.hashes|, |Pack(t.encoding.bits)|;
    4 + CompactSize(hashes) + 32 * hashes + CompactSize(bytes) + bytes
  }

  /** 10 + ceil(32.25 * N). */
  function Guarantee(n: nat): nat { 10 + 32 * n + (n + 3) / 4 }

  // ----- the number of hashes -----

  /** How many transactions below a node are matched. */
  function Matched(n: nat, vMatch: seq<bool>, height: nat, pos: nat): nat
    requires First(height, pos) < n == |vMatch|
  {
    |Marked(vMatch, First(height, pos), End(n, height, pos))|
  }

  lemma MatchedBelow(txids: seq<Hash>, vMatch: seq<bool>, height: nat, pos: nat)
    requires height > 0 && First(height, pos) < |txids| == |vMatch|
    ensures First(height - 1, 2 * pos) < |txids|
    ensures Matched(|txids|, vMatch, height, pos) == Matched(|txids|, vMatch, height - 1, 2 * pos) +
              if First(height - 1, 2 * pos + 1) < |txids| then Matched(|txids|, vMatch, height - 1, 2 * pos + 1) else 0
  {
    MarkedBelow(txids, vMatch, height, pos);
  }

  /** At most one hash, and as many more as the height for every matched transaction. */
  lemma {:induction false} HashBound(txids: seq<Hash>, vMatch: seq<bool>, height: nat, pos: nat)
    requires First(height, pos) < |txids| == |vMatch|
    ensures |Build(height, pos, txids, vMatch).hashes| <= 1 + Matched(|txids|, vMatch, height, pos) * height
    decreases height
  {
    if height > 0 && AnyMatch(vMatch, First(height, pos), End(|txids|, height, pos)) {
      BuildSizes(txids, vMatch, height, pos);
      MatchedBelow(txids, vMatch, height, pos);
      AnyMarked(vMatch, First(height, pos), End(|txids|, height, pos));
      HashBound(txids, vMatch, height - 1, 2 * pos);
      var l := Matched(|txids|, vMatch, height - 1, 2 * pos);
      if First(height - 1, 2 * pos + 1) < |txids| {
        HashBound(txids, vMatch, height - 1, 2 * pos + 1);
        BothBounds(l, Matched(|txids|, vMatch, height - 1, 2 * pos + 1), height);
      } else {
        BothBounds(l, 0, height);
      }
    }
  }

  lemma BothBounds(l: nat, r: nat, height: nat)
    requires l + r >= 1 && height >= 1
    ensures (1 + l * (height - 1)) + (1 + r * (height - 1)) <= 1 + (l + r) * height
  {
    MulDist(l, r, height - 1);
    OneMore(l + r, height);
  }

  lemma OneMore(m: nat, height: nat)
    requires m >= 1 && height >= 1
    ensures 2 + m * (height - 1) <= 1 + m * height
  {
    MulDist(height - 1, 1, m);
    assert m * (height - 1) == (height - 1) * m && m * height == height * m;
  }

  lemma {:induction false} AnyMarked(vMatch: seq<bool>, lo: nat, hi: nat)
    requires lo <= hi <= |vMatch| && AnyMatch(vMatch, lo, hi)
    ensures |Marked(vMatch, lo, hi)| >= 1
    decreases hi - lo
  {
    if lo < hi && !vMatch[lo] { AnyMarked(vMatch, lo + 1, hi); }
  }

  // ----- nodes with an only child -----

  /** A node with all its leaves has no only children below it. */
  lemma {:induction false} FullNone(n: nat, vMatch: seq<bool>, height: nat, pos: nat)
    requires First(height, pos) < n == |vMatch| && First(height, pos) + Pow2(height) <= n
    ensures OnlyChildren(n, vMatch, height, pos) == 0
    decreases height
  {
    if height > 0 {
      Children(height, pos);
      FullNone(n, vMatch, height - 1, 2 * pos);
      FullNone(n, vMatch, height - 1, 2 * pos + 1);
    }
  }

  /** At most one node of every level has an only child. */
  lemma {:induction false} OnlyBound(n: nat, vMatch: seq<bool>, height: nat, pos: nat)
    requires First(height, pos) < n == |vMatch|
    ensures OnlyChildren(n, vMatch, height, pos) <= height
    decreases height
  {
    if height > 0 && AnyMatch(vMatch, First(height, pos), End(n, height, pos)) {
      Children(height, pos);
      if First(height - 1, 2 * pos + 1) < n {
        FullNone(n, vMatch, height - 1, 2 * pos);
        OnlyBound(n, vMatch, height - 1, 2 * pos + 1);
      } else {
        OnlyBound(n, vMatch, height - 1, 2 * pos);
      }
    }
  }

  // ----- the size -----

  function FlagBytes(hashes: nat, only: nat): nat { (2 * hashes + 6 + only) / 8 }

  /**
   * The exact size of the tree over txids with N hashes, the bounds on N and on the number of nodes
   * with an only child, and when the documented guarantee holds.
   */
  lemma SizeExact(txids: seq<Hash>, vMatch: seq<bool>)
    requires 0 < |txids| == |vMatch|
    ensures First(Height(|txids|), 0) < |txids|
    ensures var t, h := Construct(txids, vMatch), Height(|txids|);
            var n, only := |t.encoding.hashes|, OnlyChildren(|txids|, vMatch, h, 0);
            var bytes := FlagBytes(n, only);
            && Matched(|txids|, vMatch, h, 0) == |Marked(vMatch, 0, |txids|)|
            && 1 <= n <= |txids| && n <= 1 + Matched(|txids|, vMatch, h, 0) * h && only <= h
            && WireSize(t) == 4 + CompactSize(n) + 32 * n + CompactSize(bytes) + bytes
            && (WireSize(t) <= Guarantee(n) <==> CompactSize(n) + CompactSize(bytes) + bytes <= 6 + (n + 3) / 4)
  {
    var h := Height(|txids|);
    FirstOfRoot(h);
    RootCoversAll(|txids|);
    BitCount(txids, vMatch, h, 0);
    EncodingSize(txids, vMatch, h, 0);
    HashBound(txids, vMatch, h, 0);
    OnlyBound(|txids|, vMatch, h, 0);
  }

  /** The guarantee holds for every tree over up to a thousand transactions. */
  lemma SmallTreesFit(txids: seq<Hash>, vMatch: seq<bool>)
    requires 0 < |txids| == |vMatch| <= 1000
    ensures WireSize(Construct(txids, vMatch)) <= Guarantee(|Construct(txids, vMatch).encoding.hashes|)
  {
    SizeExact(txids, vMatch);
    LowHeight(|txids|);
  }

  /** Where both counts take three bytes, the guarantee holds iff the only children do not need a byte more. */
  lemma LargeTreesFitIff(txids: seq<Hash>, vMatch: seq<bool>)
    requires 0 < |txids| == |vMatch| && First(Height(|txids|), 0) < |txids|
    requires var n := |Construct(txids, vMatch).encoding.hashes|;
             253 <= n <= 0xffff && 253 <= FlagBytes(n, OnlyChildren(|txids|, vMatch, Height(|txids|), 0)) <= 0xffff
    ensures var n := |Construct(txids, vMatch).encoding.hashes|;
            WireSize(Construct(txids, vMatch)) <= Guarantee(n) <==>
              (2 * n + 6) % 8 + OnlyChildren(|txids|, vMatch, Height(|txids|), 0) < 8
  {
    SizeExact(txids, vMatch);
    OneByteMore(|Construct(txids, vMatch).encoding.hashes|, OnlyChildren(|txids|, vMatch, Height(|txids|), 0));
  }

  lemma OneByteMore(n: nat, only: nat)
    ensures FlagBytes(n, only) <= (n + 3) / 4 <==> (2 * n + 6) % 8 + only < 8
  {
    DivMod(2 * n + 6, 8);
  }

  // ----- a tree that is too large -----

  lemma {:induction false} HeightUpTo(n: nat, h: nat, k: nat)
    requires n >= 1 && h <= k && n <= Pow2(k) && forall j: nat | j < k :: Pow2(j) < n
    ensures HeightFrom(n, h) == k
    decreases k - h
  {
    NodeExists(n, h, 1);
    FirstNext(h, 0);
    FirstOfRoot(h);
    if h < k {
      assert Pow2(h) < n;
      HeightUpTo(n, h + 1, k);
    }
  }

  lemma {:induction false} LowHeight(n: nat)
    requires 1 <= n <= 1000
    ensures Height(n) <= 10
  {
    Pow2Ten();
    LowHeightFrom(n, 0);
  }

  lemma {:induction false} LowHeightFrom(n: nat, h: nat)
    requires 1 <= n <= Pow2(10) && h <= 10
    ensures HeightFrom(n, h) <= 10
    decreases 10 - h
  {
    NodeExists(n, h, 1);
    FirstNext(h, 0);
    FirstOfRoot(h);
    if h < 10 { LowHeightFrom(n, h + 1); }
  }

  lemma Pow2Ten()
    ensures Pow2(10) == 1024 && forall j: nat | j <= 10 :: Pow2(j) <= 1024
  {
    Pow2Add(5, 5);
    assert Pow2(5) == 32;
    forall j: nat | j <= 10 ensures Pow2(j) <= Pow2(10) { Pow2Mono(j, 10); }
  }

  /** Where every transaction is matched a subtree stores all its leaves. */
  lemma {:induction false} AllStored(txids: seq<Hash>, vMatch: seq<bool>, height: nat, pos: nat)
    requires First(height, pos) < |txids| == |vMatch| && forall i | 0 <= i < |vMatch| :: vMatch[i]
    ensures |Build(height, pos, txids, vMatch).hashes| == End(|txids|, height, pos) - First(height, pos)
    decreases height
  {
    assert vMatch[First(height, pos)];
    if height > 0 {
      BuildSizes(txids, vMatch, height, pos);
      EndsBelow(|txids|, height, pos);
      AllStored(txids, vMatch, height - 1, 2 * pos);
      if First(height - 1, 2 * pos + 1) < |txids| { AllStored(txids, vMatch, height - 1, 2 * pos + 1); }
    }
  }

  /** A node over the last leaf alone has an only child on every level below it. */
  lemma {:induction false} LastLeaf(n: nat, vMatch: seq<bool>, height: nat, pos: nat)
    requires First(height, pos) == n - 1 && n == |vMatch| && vMatch[n - 1]
    ensures OnlyChildren(n, vMatch, height, pos) == height
    decreases height
  {
    assert End(n, height, pos) == n;
    if height > 0 {
      Children(height, pos);
      LastLeaf(n, vMatch, height - 1, 2 * pos);
    }
  }

  /** With 1025 transactions, all matched, the tree is one byte larger than guaranteed. */
  lemma GuaranteeFails(txids: seq<Hash>, vMatch: seq<bool>)
    requires |txids| == |vMatch| == 1025 && forall i | 0 <= i < |vMatch| :: vMatch[i]
    ensures var t := Construct(txids, vMatch);
            |t.encoding.hashes| == 1025 && WireSize(t) == 33068 && Guarantee(1025) == 33067
  {
    Pow2Ten();
    assert Pow2(11) == 2048;
    HeightUpTo(1025, 0, 11);
    FirstOfRoot(11);
    AllStored(txids, vMatch, 11, 0);
    SpineOf1025(vMatch);
    SizeExact(txids, vMatch);
  }

  lemma SpineOf1025(vMatch: seq<bool>)
    requires |vMatch| == 1025 && (forall i | 0 <= i < |vMatch| :: vMatch[i]) && First(11, 0) == 0
    ensures OnlyChildren(1025, vMatch, 11, 0) == 10
  {
    Pow2Ten();
    Children(11, 0);
    assert AnyMatch(vMatch, 0, End(1025, 11, 0)) by { assert vMatch[0]; }
    FullNone(1025, vMatch, 10, 0);
    LastLeaf(1025, vMatch, 10, 1);
  }
}
