/**
 * CPartialMerkleTree of src/merkleblock.h and src/merkleblock.cpp ("Constructing a partial merkle
 * tree object" and "Parsing a partial merkle tree object" of BIP 37).
 */
module PartialMerkle {
  import opened Arithmetic

  /** 256-bit hashes: the null hash, opaque values, and the hash of two concatenated hashes. */
  datatype Hash = Null | Leaf(id: nat) | Pair(left: Hash, right: Hash)

  /** CalcTreeWidth: the number of nodes at a height in the tree over n leaves. */
  function Width(n: nat, height: nat): nat { (n + Pow2(height) - 1) / Pow2(height) }

  /** The first leaf below node (height, pos): pos << height. */
  function First(height: nat, pos: nat): nat { if height == 0 then pos else First(height - 1, 2 * pos) }

  lemma {:induction false} FirstIsShift(height: nat, pos: nat)
    ensures First(height, pos) == pos * Pow2(height)
  {
    if height > 0 {
      FirstIsShift(height - 1, 2 * pos);
      var p := Pow2(height - 1);
      assert 2 * pos * p == pos * (2 * p);
    }
  }

  lemma {:induction false} FirstOfRoot(height: nat)
    ensures First(height, 0) == 0
  {
    if height > 0 { FirstOfRoot(height - 1); }
  }

  lemma {:induction false} FirstNext(height: nat, pos: nat)
    ensures First(height, pos + 1) == First(height, pos) + Pow2(height)
  {
    if height > 0 {
      FirstNext(height - 1, 2 * pos);
      FirstNext(height - 1, 2 * pos + 1);
    }
  }

  /** A node exists exactly when its first leaf does. */
  lemma NodeExists(n: nat, height: nat, pos: nat)
    ensures pos < Width(n, height) <==> First(height, pos) < n
  {
    FirstIsShift(height, pos);
    DivCeil(n, Pow2(height), pos);
  }

  /** The two children of a node split its leaves in half. */
  lemma Children(height: nat, pos: nat)
    requires height > 0
    ensures First(height - 1, 2 * pos) == First(height, pos)
    ensures First(height - 1, 2 * pos + 1) == First(height, pos) + Pow2(height - 1)
    ensures First(height, pos) + Pow2(height) == First(height - 1, 2 * pos + 1) + Pow2(height - 1)
  {
    FirstNext(height - 1, 2 * pos);
  }

  function CalcHash(height: nat, pos: nat, txids: seq<Hash>): Hash
    requires First(height, pos) < |txids|
    decreases height
  {
    if height == 0 then
      txids[pos]
    else
      Children(height, pos);
      NodeExists(|txids|, height - 1, 2 * pos + 1);
      var left := CalcHash(height - 1, 2 * pos, txids);
      Pair(left, if 2 * pos + 1 < Width(|txids|, height - 1) then CalcHash(height - 1, 2 * pos + 1, txids) else left)
  }

  /** One past the last leaf below a node. */
  function End(n: nat, height: nat, pos: nat): nat { Within(First(height, pos) + Pow2(height), n) }

  function Within(a: nat, n: nat): nat { if a < n then a else n }

  predicate AnyMatch(vMatch: seq<bool>, lo: nat, hi: nat)
    requires lo <= hi <= |vMatch|
  {
    exists p | lo <= p < hi :: vMatch[p]
  }

  datatype Encoding = Encoding(bits: seq<bool>, hashes: seq<Hash>)

  function Append(a: Encoding, b: Encoding): Encoding { Encoding(a.bits + b.bits, a.hashes + b.hashes) }

  /** The bits and hashes that TraverseAndBuild appends for a node. */
  function Build(height: nat, pos: nat, txids: seq<Hash>, vMatch: seq<bool>): Encoding
    requires First(height, pos) < |txids| == |vMatch|
    decreases height, 1
  {
    var fParentOfMatch := AnyMatch(vMatch, First(height, pos), End(|txids|, height, pos));
    if height == 0 || !fParentOfMatch then
      Encoding([fParentOfMatch], [CalcHash(height, pos, txids)])
    else
      Append(Encoding([true], []), BuildBelow(height, pos, txids, vMatch))
  }

  /** What it appends for the children of a node. */
  function BuildBelow(height: nat, pos: nat, txids: seq<Hash>, vMatch: seq<bool>): Encoding
    requires height > 0 && First(height, pos) < |txids| == |vMatch|
    decreases height, 0
  {
    Children(height, pos);
    NodeExists(|txids|, height - 1, 2 * pos + 1);
    var left := Build(height - 1, 2 * pos, txids, vMatch);
    if 2 * pos + 1 < Width(|txids|, height - 1)
    then Append(left, Build(height - 1, 2 * pos + 1, txids, vMatch)) else left
  }

  /** The reader's state: counters into vBits and vHash, the results, and fBad. */
  datatype Cursor = Cursor(nBitsUsed: nat, nHashUsed: nat, matched: seq<Hash>, indices: seq<nat>, fBad: bool)

  datatype Read = Read(hash: Hash, cursor: Cursor)

  /** TraverseAndExtract for a tree over n leaves. */
  function Extract(e: Encoding, n: nat, height: nat, pos: nat, c: Cursor): Read
    decreases height
  {
    if c.nBitsUsed >= |e.bits| then
      Read(Null, c.(fBad := true))
    else
      var fParentOfMatch := e.bits[c.nBitsUsed];
      var c1 := c.(nBitsUsed := c.nBitsUsed + 1);
      if height == 0 || !fParentOfMatch then
        if c1.nHashUsed >= |e.hashes| then
          Read(Null, c1.(fBad := true))
        else
          var hash := e.hashes[c1.nHashUsed];
          var c2 := c1.(nHashUsed := c1.nHashUsed + 1);
          Read(hash, if height == 0 && fParentOfMatch
                     then c2.(matched := c2.matched + [hash], indices := c2.indices + [pos]) else c2)
      else
        var left := Extract(e, n, height - 1, 2 * pos, c1);
        if 2 * pos + 1 < Width(n, height - 1) then
          var right := Extract(e, n, height - 1, 2 * pos + 1, left.cursor);
          Read(Pair(left.hash, right.hash),
               if right.hash == left.hash then right.cursor.(fBad := true) else right.cursor)
        else
          Read(Pair(left.hash, left.hash), left.cursor)
  }

  // ----- soundness -----

  /** Every extracted hash is the txid at the index reported with it; the caller's vector held `off` indices before. */
  ghost predicate Authentic(txids: seq<Hash>, matched: seq<Hash>, indices: seq<nat>, off: nat) {
    && off + |matched| == |indices|
    && forall k | 0 <= k < |matched| :: indices[off + k] < |txids| && matched[k] == txids[indices[off + k]]
  }

  lemma {:induction false} BadIsSticky(e: Encoding, n: nat, height: nat, pos: nat, c: Cursor)
    requires c.fBad
    ensures Extract(e, n, height, pos, c).cursor.fBad
    decreases height
  {
    if c.nBitsUsed < |e.bits| && height != 0 && e.bits[c.nBitsUsed] {
      var c1 := c.(nBitsUsed := c.nBitsUsed + 1);
      BadIsSticky(e, n, height - 1, 2 * pos, c1);
      BadIsSticky(e, n, height - 1, 2 * pos + 1, Extract(e, n, height - 1, 2 * pos, c1).cursor);
    }
  }

  /** If a subtree reads back as the real node, its matches are authentic. */
  lemma {:induction false} ExtractSound(e: Encoding, txids: seq<Hash>, height: nat, pos: nat, c: Cursor, off: nat)
    requires First(height, pos) < |txids|
    requires Authentic(txids, c.matched, c.indices, off)
    requires !Extract(e, |txids|, height, pos, c).cursor.fBad
    requires Extract(e, |txids|, height, pos, c).hash == CalcHash(height, pos, txids)
    ensures var c' := Extract(e, |txids|, height, pos, c).cursor; Authentic(txids, c'.matched, c'.indices, off)
    decreases height
  {
    var n := |txids|;
    var c1 := c.(nBitsUsed := c.nBitsUsed + 1);
    if height != 0 && e.bits[c.nBitsUsed] {
      Children(height, pos);
      NodeExists(n, height - 1, 2 * pos + 1);
      var left := Extract(e, n, height - 1, 2 * pos, c1);
      if 2 * pos + 1 < Width(n, height - 1) {
        if left.cursor.fBad { BadIsSticky(e, n, height - 1, 2 * pos + 1, left.cursor); }
        ExtractSound(e, txids, height - 1, 2 * pos, c1, off);
        ExtractSound(e, txids, height - 1, 2 * pos + 1, left.cursor, off);
      } else {
        ExtractSound(e, txids, height - 1, 2 * pos, c1, off);
      }
    }
  }

  // ----- ExtractMatches -----

  const MAX_TRANSACTIONS := 2000000 / 60

  /** The loop that finds the height of the tree. */
  function HeightFrom(n: nat, h: nat): (r: nat)
    ensures r >= h && Width(n, r) <= 1
    decreases n - Pow2(h)
  {
    NodeExists(n, h, 1);
    FirstNext(h, 0);
    FirstOfRoot(h);
    if Width(n, h) > 1 then HeightFrom(n, h + 1) else h
  }

  function Height(n: nat): nat { HeightFrom(n, 0) }

  datatype Tree = Tree(nTransactions: nat, encoding: Encoding, fBad: bool)

  datatype Matches = Matches(root: Hash, matched: seq<Hash>, indices: seq<nat>)

  /** The partial merkle tree over a list of txids and a mask. */
  function Construct(txids: seq<Hash>, vMatch: seq<bool>): Tree
    requires 0 < |txids| == |vMatch|
  {
    FirstOfRoot(Height(|txids|));
    Tree(|txids|, Build(Height(|txids|), 0, txids, vMatch), false)
  }

  /** The vector vnIndex of the caller is appended to; vMatch starts empty. */
  function ExtractMatches(t: Tree, vnIndex: seq<nat>): Matches {
    var n, e := t.nTransactions, t.encoding;
    if n == 0 || n > MAX_TRANSACTIONS || |e.hashes| > n || |e.bits| < |e.hashes| then
      Matches(Null, [], vnIndex)
    else
      var r := Extract(e, n, Height(n), 0, Cursor(0, 0, [], vnIndex, t.fBad));
      var c := r.cursor;
      if c.fBad || (c.nBitsUsed + 7) / 8 != (|e.bits| + 7) / 8 || c.nHashUsed != |e.hashes|
      then Matches(Null, c.matched, c.indices)
      else Matches(r.hash, c.matched, c.indices)
  }

  function MerkleRoot(txids: seq<Hash>): Hash
    requires txids != []
  {
    FirstOfRoot(Height(|txids|));
    CalcHash(Height(|txids|), 0, txids)
  }

  /**
   * Soundness: whatever bits and hashes a peer sends, if they yield the real Merkle root of a
   * block with this many transactions, every extracted txid is in the block at its index.
   */
  lemma ProofIsSound(t: Tree, txids: seq<Hash>, vnIndex: seq<nat>)
    requires txids != [] && t.nTransactions == |txids|
    requires ExtractMatches(t, vnIndex).root == MerkleRoot(txids) != Null
    ensures var m := ExtractMatches(t, vnIndex); Authentic(txids, m.matched, m.indices, |vnIndex|)
  {
    FirstOfRoot(Height(|txids|));
    ExtractSound(t.encoding, txids, Height(|txids|), 0, Cursor(0, 0, [], vnIndex, t.fBad), |vnIndex|);
  }

  // ----- round trip -----

  /** The marked indices between lo and hi, in order. */
  function Marked(vMatch: seq<bool>, lo: nat, hi: nat): (r: seq<nat>)
    requires lo <= hi <= |vMatch|
    ensures forall i | i in r :: lo <= i < hi && vMatch[i]
    decreases hi - lo
  {
    if lo == hi then [] else (if vMatch[lo] then [lo] else []) + Marked(vMatch, lo + 1, hi)
  }

  /** All marked indices are listed, in increasing order. */
  lemma {:induction false} MarkedComplete(vMatch: seq<bool>, lo: nat, hi: nat)
    requires lo <= hi <= |vMatch|
    ensures forall i | lo <= i < hi && vMatch[i] :: i in Marked(vMatch, lo, hi)
    ensures forall j, k | 0 <= j < k < |Marked(vMatch, lo, hi)| :: Marked(vMatch, lo, hi)[j] < Marked(vMatch, lo, hi)[k]
    decreases hi - lo
  {
    if lo < hi {
      MarkedComplete(vMatch, lo + 1, hi);
      var rest := Marked(vMatch, lo + 1, hi);
      assert forall k | 0 <= k < |rest| :: rest[k] in rest;
    }
  }

  lemma {:induction false} MarkedSplit(vMatch: seq<bool>, lo: nat, mid: nat, hi: nat)
    requires lo <= mid <= hi <= |vMatch|
    ensures Marked(vMatch, lo, hi) == Marked(vMatch, lo, mid) + Marked(vMatch, mid, hi)
    decreases mid - lo
  {
    if lo < mid { MarkedSplit(vMatch, lo + 1, mid, hi); }
  }

  lemma {:induction false} NoneMarked(vMatch: seq<bool>, lo: nat, hi: nat)
    requires lo <= hi <= |vMatch| && !AnyMatch(vMatch, lo, hi)
    ensures Marked(vMatch, lo, hi) == []
    decreases hi - lo
  {
    if lo < hi { NoneMarked(vMatch, lo + 1, hi); }
  }

  function Select(txids: seq<Hash>, indices: seq<nat>): (r: seq<Hash>)
    requires forall i | i in indices :: i < |txids|
    ensures |r| == |indices| && forall k | 0 <= k < |r| :: indices[k] in indices && r[k] == txids[indices[k]]
  {
    seq(|indices|, k requires 0 <= k < |indices| => assert indices[k] in indices; txids[indices[k]])
  }

  lemma SelectConcat(txids: seq<Hash>, a: seq<nat>, b: seq<nat>)
    requires forall i | i in a + b :: i < |txids|
    ensures (forall i | i in a :: i < |txids|) && (forall i | i in b :: i < |txids|)
    ensures Select(txids, a + b) == Select(txids, a) + Select(txids, b)
  {
    assert forall i | i in a :: i in a + b;
    assert forall i | i in b :: i in a + b;
  }

  predicate Distinct(txids: seq<Hash>) { forall i, j | 0 <= i < j < |txids| :: txids[i] != txids[j] }

  function Leftmost(x: Hash, height: nat): Hash
    decreases height
  {
    if height == 0 then x else if x.Pair? then Leftmost(x.left, height - 1) else Null
  }

  lemma {:induction false} LeftmostIsFirst(height: nat, pos: nat, txids: seq<Hash>)
    requires First(height, pos) < |txids|
    ensures Leftmost(CalcHash(height, pos, txids), height) == txids[First(height, pos)]
    decreases height
  {
    if height > 0 {
      Children(height, pos);
      LeftmostIsFirst(height - 1, 2 * pos, txids);
    }
  }

  /** Two different nodes of the same height have different hashes. */
  lemma SiblingsDiffer(height: nat, pos: nat, pos': nat, txids: seq<Hash>)
    requires First(height, pos) < First(height, pos') < |txids| && Distinct(txids)
    ensures CalcHash(height, pos, txids) != CalcHash(height, pos', txids)
  {
    LeftmostIsFirst(height, pos, txids);
    LeftmostIsFirst(height, pos', txids);
  }

  predicate At<T(==)>(s: seq<T>, i: nat, part: seq<T>) { i + |part| <= |s| && s[i..i + |part|] == part }

  lemma AtSplit<T>(s: seq<T>, i: nat, a: seq<T>, b: seq<T>)
    requires At(s, i, a + b)
    ensures At(s, i, a) && At(s, i + |a|, b)
  {
    var both := s[i..i + |a| + |b|];
    assert both == a + b;
    assert s[i..i + |a|] == both[..|a|];
    assert s[i + |a|..i + |a| + |b|] == both[|a|..];
  }

  /** What reading back the encoding of a node does to the cursor. */
  function After(c: Cursor, txids: seq<Hash>, vMatch: seq<bool>, height: nat, pos: nat): Cursor
    requires First(height, pos) < |txids| == |vMatch|
  {
    var b := Build(height, pos, txids, vMatch);
    var marked := Marked(vMatch, First(height, pos), End(|txids|, height, pos));
    Cursor(c.nBitsUsed + |b.bits|, c.nHashUsed + |b.hashes|, c.matched + Select(txids, marked), c.indices + marked, c.fBad)
  }

  lemma ReadBackStop(e: Encoding, txids: seq<Hash>, vMatch: seq<bool>, height: nat, pos: nat, c: Cursor)
    requires First(height, pos) < |txids| == |vMatch|
    requires PartAt(e, c.nBitsUsed, c.nHashUsed, Build(height, pos, txids, vMatch))
    requires height == 0 || !AnyMatch(vMatch, First(height, pos), End(|txids|, height, pos))
    ensures Extract(e, |txids|, height, pos, c) == Read(CalcHash(height, pos, txids), After(c, txids, vMatch, height, pos))
  {
    var lo, hi := First(height, pos), End(|txids|, height, pos);
    var fParentOfMatch := AnyMatch(vMatch, lo, hi);
    var b := Build(height, pos, txids, vMatch);
    assert b.bits[0] == fParentOfMatch == e.bits[c.nBitsUsed..c.nBitsUsed + 1][0];
    assert b.hashes[0] == CalcHash(height, pos, txids) == e.hashes[c.nHashUsed..c.nHashUsed + 1][0];
    if fParentOfMatch {
      assert lo == pos && hi == pos + 1 && vMatch[pos];
      assert Marked(vMatch, pos, pos + 1) == [pos] + Marked(vMatch, pos + 1, pos + 1);
      assert Select(txids, [pos]) == [txids[pos]];
    } else {
      NoneMarked(vMatch, lo, hi);
      assert c.matched + Select(txids, []) == c.matched;
      assert c.indices + [] == c.indices;
    }
  }

  /** Where the leaves below a node end, from its children. */
  lemma EndsBelow(n: nat, height: nat, pos: nat)
    requires height > 0 && First(height, pos) < n
    ensures var mid := First(height - 1, 2 * pos + 1);
            && First(height - 1, 2 * pos) == First(height, pos)
            && (mid < n ==> End(n, height - 1, 2 * pos) == mid && End(n, height - 1, 2 * pos + 1) == End(n, height, pos))
            && (mid >= n ==> End(n, height - 1, 2 * pos) == End(n, height, pos))
  {
    Children(height, pos);
  }

  /** The leaves below a node are those below its left child followed by those below its right child. */
  lemma MarkedBelow(txids: seq<Hash>, vMatch: seq<bool>, height: nat, pos: nat)
    requires height > 0 && First(height, pos) < |txids| == |vMatch|
    ensures var n, mid := |txids|, First(height - 1, 2 * pos + 1);
            && First(height - 1, 2 * pos) == First(height, pos)
            && (2 * pos + 1 < Width(n, height - 1) <==> mid < n)
            && (if mid < n then
                  && End(n, height - 1, 2 * pos) == mid && End(n, height - 1, 2 * pos + 1) == End(n, height, pos)
                  && Marked(vMatch, First(height, pos), End(n, height, pos))
                     == Marked(vMatch, First(height, pos), mid) + Marked(vMatch, mid, End(n, height, pos))
                else
                  End(n, height - 1, 2 * pos) == End(n, height, pos))
  {
    Children(height, pos);
    NodeExists(|txids|, height - 1, 2 * pos + 1);
    var mid := First(height - 1, 2 * pos + 1);
    if mid < |txids| { MarkedSplit(vMatch, First(height, pos), mid, End(|txids|, height, pos)); }
  }

  lemma BuildSizes(txids: seq<Hash>, vMatch: seq<bool>, height: nat, pos: nat)
    requires height > 0 && First(height, pos) < |txids| == |vMatch|
    requires AnyMatch(vMatch, First(height, pos), End(|txids|, height, pos))
    ensures First(height - 1, 2 * pos) < |txids|
    ensures var b, left := Build(height, pos, txids, vMatch), Build(height - 1, 2 * pos, txids, vMatch);
            if First(height - 1, 2 * pos + 1) < |txids| then
              var right := Build(height - 1, 2 * pos + 1, txids, vMatch);
              |b.bits| == 1 + |left.bits| + |right.bits| && |b.hashes| == |left.hashes| + |right.hashes|
            else
              |b.bits| == 1 + |left.bits| && |b.hashes| == |left.hashes|
  {
    Children(height, pos);
    NodeExists(|txids|, height - 1, 2 * pos + 1);
  }

  lemma ConcatAssoc<T>(a: seq<T>, b: seq<T>, c: seq<T>)
    ensures a + b + c == a + (b + c)
  {}

  lemma AfterBoth(c: Cursor, txids: seq<Hash>, vMatch: seq<bool>, height: nat, pos: nat)
    requires height > 0 && First(height, pos) < |txids| == |vMatch|
    requires AnyMatch(vMatch, First(height, pos), End(|txids|, height, pos))
    requires First(height - 1, 2 * pos) < |txids|
    ensures var c1 := c.(nBitsUsed := c.nBitsUsed + 1);
            var left := After(c1, txids, vMatch, height - 1, 2 * pos);
            After(c, txids, vMatch, height, pos) ==
              if First(height - 1, 2 * pos + 1) < |txids| then After(left, txids, vMatch, height - 1, 2 * pos + 1) else left
  {
    BuildSizes(txids, vMatch, height, pos);
    MarkedBelow(txids, vMatch, height, pos);
    var mid, hi := First(height - 1, 2 * pos + 1), End(|txids|, height, pos);
    if mid < |txids| {
      var a, b := Marked(vMatch, First(height, pos), mid), Marked(vMatch, mid, hi);
      SelectConcat(txids, a, b);
      ConcatAssoc(c.matched, Select(txids, a), Select(txids, b));
      ConcatAssoc(c.indices, a, b);
    }
  }

  /** Reading back what Build wrote returns the node's hash and the marked leaves, and is not bad. */
  lemma {:induction false} ReadBack(e: Encoding, txids: seq<Hash>, vMatch: seq<bool>, height: nat, pos: nat, c: Cursor)
    requires First(height, pos) < |txids| == |vMatch| && Distinct(txids)
    requires PartAt(e, c.nBitsUsed, c.nHashUsed, Build(height, pos, txids, vMatch))
    ensures Extract(e, |txids|, height, pos, c) == Read(CalcHash(height, pos, txids), After(c, txids, vMatch, height, pos))
    decreases height, 1
  {
    if height == 0 || !AnyMatch(vMatch, First(height, pos), End(|txids|, height, pos)) {
      ReadBackStop(e, txids, vMatch, height, pos, c);
    } else {
      ReadBackDescend(e, txids, vMatch, height, pos, c);
    }
  }

  predicate PartAt(e: Encoding, i: nat, j: nat, part: Encoding) { At(e.bits, i, part.bits) && At(e.hashes, j, part.hashes) }

  lemma PartSplit(e: Encoding, i: nat, j: nat, a: Encoding, b: Encoding)
    requires PartAt(e, i, j, Append(a, b))
    ensures PartAt(e, i, j, a) && PartAt(e, i + |a.bits|, j + |a.hashes|, b)
  {
    AtSplit(e.bits, i, a.bits, b.bits);
    AtSplit(e.hashes, j, a.hashes, b.hashes);
  }

  /** The encodings of the children lie one after the other behind the node's own bit. */
  lemma PartsAt(e: Encoding, txids: seq<Hash>, vMatch: seq<bool>, height: nat, pos: nat, c: Cursor)
    requires height > 0 && First(height, pos) < |txids| == |vMatch|
    requires AnyMatch(vMatch, First(height, pos), End(|txids|, height, pos))
    requires PartAt(e, c.nBitsUsed, c.nHashUsed, Build(height, pos, txids, vMatch))
    ensures c.nBitsUsed < |e.bits| && e.bits[c.nBitsUsed]
    ensures PartAt(e, c.nBitsUsed + 1, c.nHashUsed, BuildBelow(height, pos, txids, vMatch))
  {
    PartSplit(e, c.nBitsUsed, c.nHashUsed, Encoding([true], []), BuildBelow(height, pos, txids, vMatch));
    assert e.bits[c.nBitsUsed..c.nBitsUsed + 1][0] == true;
  }

  /** One step of the traversal at a node that has a match below it. */
  lemma ExtractNode(e: Encoding, n: nat, height: nat, pos: nat, c: Cursor)
    requires height > 0 && c.nBitsUsed < |e.bits| && e.bits[c.nBitsUsed]
    ensures var left := Extract(e, n, height - 1, 2 * pos, c.(nBitsUsed := c.nBitsUsed + 1));
            var right := Extract(e, n, height - 1, 2 * pos + 1, left.cursor);
            Extract(e, n, height, pos, c) ==
              if First(height - 1, 2 * pos + 1) < n
              then Read(Pair(left.hash, right.hash),
                        if right.hash == left.hash then right.cursor.(fBad := true) else right.cursor)
              else Read(Pair(left.hash, left.hash), left.cursor)
  {
    NodeExists(n, height - 1, 2 * pos + 1);
  }

  lemma HashNode(height: nat, pos: nat, txids: seq<Hash>)
    requires height > 0 && First(height, pos) < |txids|
    ensures First(height - 1, 2 * pos) < |txids|
    ensures var left := CalcHash(height - 1, 2 * pos, txids);
            CalcHash(height, pos, txids) ==
              Pair(left, if First(height - 1, 2 * pos + 1) < |txids| then CalcHash(height - 1, 2 * pos + 1, txids) else left)
  {
    Children(height, pos);
    NodeExists(|txids|, height - 1, 2 * pos + 1);
  }

  lemma {:induction false} ReadBackDescend(e: Encoding, txids: seq<Hash>, vMatch: seq<bool>, height: nat, pos: nat,
                                           c: Cursor)
    requires height > 0 && First(height, pos) < |txids| == |vMatch| && Distinct(txids)
    requires AnyMatch(vMatch, First(height, pos), End(|txids|, height, pos))
    requires PartAt(e, c.nBitsUsed, c.nHashUsed, Build(height, pos, txids, vMatch))
    ensures Extract(e, |txids|, height, pos, c) == Read(CalcHash(height, pos, txids), After(c, txids, vMatch, height, pos))
    decreases height, 0
  {
    PartsAt(e, txids, vMatch, height, pos, c);
    var c1 := c.(nBitsUsed := c.nBitsUsed + 1);
    BelowAt(e, txids, vMatch, height, pos, c1.nBitsUsed, c1.nHashUsed);
    ReadBackChildren(e, txids, vMatch, height - 1, pos, c1);
    ReadBackJoin(e, txids, vMatch, height, pos, c);
  }

  lemma {:induction false} ReadBackChildren(e: Encoding, txids: seq<Hash>, vMatch: seq<bool>, height: nat, pos: nat,
                                            c: Cursor)
    requires First(height, 2 * pos) < |txids| == |vMatch|
    requires First(height, 2 * pos) < First(height, 2 * pos + 1) && Distinct(txids)
    requires PartAt(e, c.nBitsUsed, c.nHashUsed, Build(height, 2 * pos, txids, vMatch))
    requires First(height, 2 * pos + 1) < |txids| ==>
      var left := Build(height, 2 * pos, txids, vMatch);
      PartAt(e, c.nBitsUsed + |left.bits|, c.nHashUsed + |left.hashes|, Build(height, 2 * pos + 1, txids, vMatch))
    ensures ReadsChildren(e, txids, vMatch, height, pos, c)
    decreases height, 4
  {
    ReadBack(e, txids, vMatch, height, 2 * pos, c);
    if First(height, 2 * pos + 1) < |txids| { ReadBackSecond(e, txids, vMatch, height, pos, c); }
  }

  lemma {:induction false} ReadBackSecond(e: Encoding, txids: seq<Hash>, vMatch: seq<bool>, height: nat, pos: nat, c: Cursor)
    requires First(height, 2 * pos) < First(height, 2 * pos + 1) < |txids| == |vMatch| && Distinct(txids)
    requires var left := Build(height, 2 * pos, txids, vMatch);
             PartAt(e, c.nBitsUsed + |left.bits|, c.nHashUsed + |left.hashes|, Build(height, 2 * pos + 1, txids, vMatch))
    ensures var left := After(c, txids, vMatch, height, 2 * pos);
            Extract(e, |txids|, height, 2 * pos + 1, left)
            == Read(CalcHash(height, 2 * pos + 1, txids), After(left, txids, vMatch, height, 2 * pos + 1))
    ensures CalcHash(height, 2 * pos, txids) != CalcHash(height, 2 * pos + 1, txids)
    decreases height, 3
  {
    AfterAt(c, txids, vMatch, height, 2 * pos);
    ReadBackRight(e, txids, vMatch, height, pos, After(c, txids, vMatch, height, 2 * pos));
  }

  lemma AfterAt(c: Cursor, txids: seq<Hash>, vMatch: seq<bool>, height: nat, pos: nat)
    requires First(height, pos) < |txids| == |vMatch|
    ensures After(c, txids, vMatch, height, pos).nBitsUsed == c.nBitsUsed + |Build(height, pos, txids, vMatch).bits|
    ensures After(c, txids, vMatch, height, pos).nHashUsed == c.nHashUsed + |Build(height, pos, txids, vMatch).hashes|
  {}

  lemma {:induction false} ReadBackRight(e: Encoding, txids: seq<Hash>, vMatch: seq<bool>, height: nat, pos: nat,
                                         left: Cursor)
    requires First(height, 2 * pos) < First(height, 2 * pos + 1) < |txids| == |vMatch| && Distinct(txids)
    requires PartAt(e, left.nBitsUsed, left.nHashUsed, Build(height, 2 * pos + 1, txids, vMatch))
    ensures Extract(e, |txids|, height, 2 * pos + 1, left)
         == Read(CalcHash(height, 2 * pos + 1, txids), After(left, txids, vMatch, height, 2 * pos + 1))
    ensures CalcHash(height, 2 * pos, txids) != CalcHash(height, 2 * pos + 1, txids)
    decreases height, 2
  {
    ReadBack(e, txids, vMatch, height, 2 * pos + 1, left);
    SiblingsDiffer(height, 2 * pos, 2 * pos + 1, txids);
  }

  /** Both children read back, so the node does. */
  lemma ReadBackJoin(e: Encoding, txids: seq<Hash>, vMatch: seq<bool>, height: nat, pos: nat, c: Cursor)
    requires height > 0 && First(height, pos) < |txids| == |vMatch| && First(height - 1, 2 * pos) < |txids|
    requires AnyMatch(vMatch, First(height, pos), End(|txids|, height, pos))
    requires c.nBitsUsed < |e.bits| && e.bits[c.nBitsUsed]
    requires ReadsChildren(e, txids, vMatch, height - 1, pos, c.(nBitsUsed := c.nBitsUsed + 1))
    ensures Extract(e, |txids|, height, pos, c) == Read(CalcHash(height, pos, txids), After(c, txids, vMatch, height, pos))
  {
    ExtractNode(e, |txids|, height, pos, c);
    HashNode(height, pos, txids);
    AfterBoth(c, txids, vMatch, height, pos);
  }

  ghost predicate ReadsChildren(e: Encoding, txids: seq<Hash>, vMatch: seq<bool>, height: nat, pos: nat, c: Cursor)
    requires First(height, 2 * pos) < |txids| == |vMatch|
  {
    var left := After(c, txids, vMatch, height, 2 * pos);
    && Extract(e, |txids|, height, 2 * pos, c) == Read(CalcHash(height, 2 * pos, txids), left)
    && (First(height, 2 * pos + 1) < |txids| ==>
          && Extract(e, |txids|, height, 2 * pos + 1, left)
             == Read(CalcHash(height, 2 * pos + 1, txids), After(left, txids, vMatch, height, 2 * pos + 1))
          && CalcHash(height, 2 * pos, txids) != CalcHash(height, 2 * pos + 1, txids))
  }

  lemma BelowAt(e: Encoding, txids: seq<Hash>, vMatch: seq<bool>, height: nat, pos: nat, i: nat, j: nat)
    requires height > 0 && First(height, pos) < |txids| == |vMatch|
    requires PartAt(e, i, j, BuildBelow(height, pos, txids, vMatch))
    ensures First(height - 1, 2 * pos) < |txids| && First(height - 1, 2 * pos) < First(height - 1, 2 * pos + 1)
    ensures PartAt(e, i, j, Build(height - 1, 2 * pos, txids, vMatch))
    ensures First(height - 1, 2 * pos + 1) < |txids| ==>
              var left := Build(height - 1, 2 * pos, txids, vMatch);
              PartAt(e, i + |left.bits|, j + |left.hashes|, Build(height - 1, 2 * pos + 1, txids, vMatch))
  {
    Children(height, pos);
    NodeExists(|txids|, height - 1, 2 * pos + 1);
    if First(height - 1, 2 * pos + 1) < |txids| {
      PartSplit(e, i, j, Build(height - 1, 2 * pos, txids, vMatch), Build(height - 1, 2 * pos + 1, txids, vMatch));
    }
  }

  // ----- the size of the encoding -----

  /** At most one hash per leaf, and at least one bit per hash. */
  lemma {:induction false} EncodingSize(txids: seq<Hash>, vMatch: seq<bool>, height: nat, pos: nat)
    requires First(height, pos) < |txids| == |vMatch|
    ensures var b := Build(height, pos, txids, vMatch);
            1 <= |b.hashes| <= End(|txids|, height, pos) - First(height, pos) && |b.hashes| <= |b.bits|
    decreases height
  {
    if height > 0 && AnyMatch(vMatch, First(height, pos), End(|txids|, height, pos)) {
      BuildSizes(txids, vMatch, height, pos);
      EndsBelow(|txids|, height, pos);
      EncodingSize(txids, vMatch, height - 1, 2 * pos);
      if First(height - 1, 2 * pos + 1) < |txids| { EncodingSize(txids, vMatch, height - 1, 2 * pos + 1); }
    }
  }

  /** The visited nodes that have a match below them but only one child. */
  function OnlyChildren(n: nat, vMatch: seq<bool>, height: nat, pos: nat): nat
    requires First(height, pos) < n == |vMatch|
    decreases height
  {
    if height == 0 || !AnyMatch(vMatch, First(height, pos), End(n, height, pos)) then 0
    else
      Children(height, pos);
      var left := OnlyChildren(n, vMatch, height - 1, 2 * pos);
      if First(height - 1, 2 * pos + 1) < n then left + OnlyChildren(n, vMatch, height - 1, 2 * pos + 1) else left + 1
  }

  /** The number of flag bits is 2 * N - 1 for N stored hashes, plus one for every visited node with an only child. */
  lemma {:induction false} BitCount(txids: seq<Hash>, vMatch: seq<bool>, height: nat, pos: nat)
    requires First(height, pos) < |txids| == |vMatch|
    ensures var b := Build(height, pos, txids, vMatch);
            |b.bits| == 2 * |b.hashes| - 1 + OnlyChildren(|txids|, vMatch, height, pos)
    decreases height
  {
    if height > 0 && AnyMatch(vMatch, First(height, pos), End(|txids|, height, pos)) {
      Children(height, pos);
      BuildSizes(txids, vMatch, height, pos);
      BitCount(txids, vMatch, height - 1, 2 * pos);
      if First(height - 1, 2 * pos + 1) < |txids| { BitCount(txids, vMatch, height - 1, 2 * pos + 1); }
    }
  }

  /** The documented bound of 2 * N - 1 flag bits holds exactly when no visited node has an only child. */
  lemma BitBoundExact(txids: seq<Hash>, vMatch: seq<bool>)
    requires 0 < |txids| == |vMatch|
    ensures var b := Construct(txids, vMatch).encoding;
            First(Height(|txids|), 0) < |txids| &&
            (|b.bits| <= 2 * |b.hashes| - 1 <==> OnlyChildren(|txids|, vMatch, Height(|txids|), 0) == 0)
  {
    FirstOfRoot(Height(|txids|));
    BitCount(txids, vMatch, Height(|txids|), 0);
  }

  lemma HeightOfThree()
    ensures Height(3) == 2 && First(2, 0) == 0
  {
    assert Pow2(0) == 1 && Pow2(1) == 2 && Pow2(2) == 4;
    assert Width(3, 0) == 3 && Width(3, 1) == 2 && Width(3, 2) == 1;
    assert HeightFrom(3, 0) == HeightFrom(3, 1) == HeightFrom(3, 2) == 2;
    FirstOfRoot(2);
  }

  lemma OnlyChildOfThree(vMatch: seq<bool>)
    requires |vMatch| == 3 && !vMatch[0] && !vMatch[1] && vMatch[2]
    requires First(2, 0) < 3
    ensures OnlyChildren(3, vMatch, 2, 0) == 1
  {
    assert Pow2(1) == 2 && Pow2(2) == 4;
    assert First(1, 0) == 0 && First(1, 1) == 2 && First(0, 3) == 3;
    assert End(3, 2, 0) == 3 && End(3, 1, 0) == 2 && End(3, 1, 1) == 3;
    assert AnyMatch(vMatch, 0, 3) && AnyMatch(vMatch, 2, 3) && !AnyMatch(vMatch, 0, 2);
    assert OnlyChildren(3, vMatch, 1, 0) == 0;
    assert OnlyChildren(3, vMatch, 1, 1) == OnlyChildren(3, vMatch, 0, 2) + 1 == 1;
  }

  /** Three transactions with the last one marked need more flag bits than the documented bound. */
  lemma BitBoundFails(txids: seq<Hash>, vMatch: seq<bool>)
    requires |txids| == 3 && vMatch == [false, false, true]
    ensures var b := Construct(txids, vMatch).encoding; |b.bits| > 2 * |b.hashes| - 1
  {
    HeightOfThree();
    OnlyChildOfThree(vMatch);
    BitBoundExact(txids, vMatch);
  }

  // ----- the wire format -----

  /** A byte, least significant bit first. */
  type Byte = b: seq<bool> | |b| == 8 witness seq(8, _ => false)

  function Pack(bits: seq<bool>): seq<Byte> {
    seq((|bits| + 7) / 8, i requires 0 <= i < (|bits| + 7) / 8 =>
      seq(8, j requires 0 <= j < 8 => 8 * i + j < |bits| && bits[8 * i + j]))
  }

  function Unpack(bytes: seq<Byte>): seq<bool> {
    seq(8 * |bytes|, p requires 0 <= p < 8 * |bytes| => bytes[p / 8][p % 8])
  }

  /** The writing loop of SerializationOp. */
  method PackLoop(vBits: seq<bool>) returns (vBytes: seq<Byte>)
    ensures vBytes == Pack(vBits)
  {
    var size := (|vBits| + 7) / 8;
    vBytes := seq(size, _ => seq(8, _ => false));
    for p := 0 to |vBits|
      invariant |vBytes| == size
      invariant forall i, j | 0 <= i < size && 0 <= j < 8 :: vBytes[i][j] == (8 * i + j < p && vBits[8 * i + j])
    {
      var b := vBytes[p / 8];
      vBytes := vBytes[p / 8 := b[p % 8 := b[p % 8] || vBits[p]]];
    }
    forall i | 0 <= i < size ensures vBytes[i] == Pack(vBits)[i] {}
  }

  /** The reading loop of SerializationOp. */
  method UnpackLoop(vBytes: seq<Byte>) returns (vBits: seq<bool>)
    ensures vBits == Unpack(vBytes)
  {
    vBits := seq(8 * |vBytes|, _ => false);
    for p := 0 to 8 * |vBytes|
      invariant |vBits| == 8 * |vBytes|
      invariant forall q | 0 <= q < p :: vBits[q] == vBytes[q / 8][q % 8]
    {
      vBits := vBits[p := vBytes[p / 8][p % 8]];
    }
  }

  /** Sending the bits as bytes appends up to seven false bits. */
  lemma PackedBits(bits: seq<bool>)
    ensures var back := Unpack(Pack(bits));
            && |bits| <= |back| < |bits| + 8 && |back| % 8 == 0
            && back[..|bits|] == bits
            && forall p | |bits| <= p < |back| :: !back[p]
  {
    var back := Unpack(Pack(bits));
    forall p | 0 <= p < |back| ensures back[p] == (p < |bits| && bits[p]) {
      assert back[p] == Pack(bits)[p / 8][p % 8];
      assert 8 * (p / 8) + p % 8 == p;
    }
  }

  /** What the receiver holds after the tree went over the wire. */
  function Sent(t: Tree): Tree {
    Tree(t.nTransactions, Encoding(Unpack(Pack(t.encoding.bits)), t.encoding.hashes), false)
  }

  /**
   * Round trip: for every non-empty list of distinct txids within the size limit and every mask,
   * the receiver extracts the Merkle root and exactly the marked txids and indices, in order.
   */
  lemma RoundTrip(txids: seq<Hash>, vMatch: seq<bool>, vnIndex: seq<nat>)
    requires 0 < |txids| == |vMatch| && |txids| <= MAX_TRANSACTIONS && Distinct(txids)
    ensures var marked := Marked(vMatch, 0, |txids|);
            ExtractMatches(Sent(Construct(txids, vMatch)), vnIndex)
            == Matches(MerkleRoot(txids), Select(txids, marked), vnIndex + marked)
  {
    var n, h := |txids|, Height(|txids|);
    FirstOfRoot(h);
    var b := Build(h, 0, txids, vMatch);
    var t := Sent(Construct(txids, vMatch));
    RootCoversAll(n);
    EncodingSize(txids, vMatch, h, 0);
    PackedBits(b.bits);
    var c := Cursor(0, 0, [], vnIndex, false);
    assert t.encoding.bits[0..0 + |b.bits|] == b.bits;
    assert t.encoding.hashes[0..0 + |b.hashes|] == b.hashes;
    ReadBack(t.encoding, txids, vMatch, h, 0, c);
    assert End(n, h, 0) == n;
    assert [] + Select(txids, Marked(vMatch, 0, n)) == Select(txids, Marked(vMatch, 0, n));
  }

  lemma RootCoversAll(n: nat)
    ensures n <= Pow2(Height(n))
  {
    var h := Height(n);
    NodeExists(n, h, 1);
    FirstNext(h, 0);
    FirstOfRoot(h);
  }

  // ----- the object -----

  /** What a node with a match below it has appended after both children. */
  lemma BuiltNode(e: Encoding, height: nat, pos: nat, txids: seq<Hash>, vMatch: seq<bool>)
    requires height > 0 && First(height, pos) < |txids| == |vMatch| && First(height - 1, 2 * pos) < |txids|
    requires AnyMatch(vMatch, First(height, pos), End(|txids|, height, pos))
    requires 2 * pos + 1 < Width(|txids|, height - 1) ==> First(height - 1, 2 * pos + 1) < |txids|
    ensures var node := Append(Append(e, Encoding([true], [])), Build(height - 1, 2 * pos, txids, vMatch));
            Append(e, Build(height, pos, txids, vMatch)) ==
              if 2 * pos + 1 < Width(|txids|, height - 1)
              then Append(node, Build(height - 1, 2 * pos + 1, txids, vMatch)) else node
  {
    var left, bit := Build(height - 1, 2 * pos, txids, vMatch), Encoding([true], []);
    AppendAssoc(e, bit, BuildBelow(height, pos, txids, vMatch));
    if 2 * pos + 1 < Width(|txids|, height - 1) {
      AppendAssoc(Append(e, bit), left, Build(height - 1, 2 * pos + 1, txids, vMatch));
    }
  }

  lemma AppendAssoc(a: Encoding, b: Encoding, c: Encoding)
    ensures Append(Append(a, b), c) == Append(a, Append(b, c))
  {
    ConcatAssoc(a.bits, b.bits, c.bits);
    ConcatAssoc(a.hashes, b.hashes, c.hashes);
  }

  class PartialMerkleTree {
    var nTransactions: nat
    var vBits: seq<bool>
    var vHash: seq<Hash>
    var fBad: bool

    ghost function Value(): Tree
      reads this
    {
      Tree(nTransactions, Encoding(vBits, vHash), fBad)
    }

    constructor (vTxid: seq<Hash>, vMatch: seq<bool>)
      requires 0 < |vTxid| == |vMatch|
      ensures Value() == Construct(vTxid, vMatch)
    {
      nTransactions, fBad := |vTxid|, false;
      vBits, vHash := [], [];
      new;
      var nHeight := FindHeight();
      FirstOfRoot(nHeight);
      TraverseAndBuild(nHeight, 0, vTxid, vMatch);
    }

    method FindHeight() returns (nHeight: nat)
      ensures nHeight == Height(nTransactions)
    {
      nHeight := 0;
      while Width(nTransactions, nHeight) > 1
        invariant HeightFrom(nTransactions, nHeight) == Height(nTransactions)
        decreases nTransactions - Pow2(nHeight)
      {
        NodeExists(nTransactions, nHeight, 1);
        FirstNext(nHeight, 0);
        FirstOfRoot(nHeight);
        nHeight := nHeight + 1;
      }
    }

    /** The loop at the start of TraverseAndBuild. */
    static method IsParentOfMatch(lo: nat, hi: nat, vMatch: seq<bool>) returns (fParentOfMatch: bool)
      requires lo <= hi <= |vMatch|
      ensures fParentOfMatch == AnyMatch(vMatch, lo, hi)
    {
      fParentOfMatch := false;
      for p := lo to hi
        invariant fParentOfMatch == AnyMatch(vMatch, lo, p)
      {
        fParentOfMatch := fParentOfMatch || vMatch[p];
      }
    }

    method TraverseAndBuild(height: nat, pos: nat, vTxid: seq<Hash>, vMatch: seq<bool>)
      requires First(height, pos) < |vTxid| == |vMatch| == nTransactions
      modifies this`vBits, this`vHash
      ensures Encoding(vBits, vHash) == Append(old(Encoding(vBits, vHash)), Build(height, pos, vTxid, vMatch))
      decreases height
    {
      ghost var before := Encoding(vBits, vHash);
      var fParentOfMatch := IsParentOfMatch(First(height, pos), End(nTransactions, height, pos), vMatch);
      vBits := vBits + [fParentOfMatch];
      if height == 0 || !fParentOfMatch {
        vHash := vHash + [CalcHash(height, pos, vTxid)];
      } else {
        Children(height, pos);
        NodeExists(nTransactions, height - 1, 2 * pos + 1);
        TraverseAndBuild(height - 1, 2 * pos, vTxid, vMatch);
        if 2 * pos + 1 < Width(nTransactions, height - 1) {
          TraverseAndBuild(height - 1, 2 * pos + 1, vTxid, vMatch);
        }
        BuiltNode(before, height, pos, vTxid, vMatch);
      }
    }

    method TraverseAndExtract(height: nat, pos: nat, bitsUsed: nat, hashUsed: nat, matched: seq<Hash>, indices: seq<nat>)
      returns (hash: Hash, nBitsUsed: nat, nHashUsed: nat, vMatch: seq<Hash>, vnIndex: seq<nat>)
      modifies this`fBad
      ensures Read(hash, Cursor(nBitsUsed, nHashUsed, vMatch, vnIndex, fBad))
              == Extract(Encoding(vBits, vHash), nTransactions, height, pos,
                         old(Cursor(bitsUsed, hashUsed, matched, indices, fBad)))
      decreases height
    {
      nBitsUsed, nHashUsed, vMatch, vnIndex := bitsUsed, hashUsed, matched, indices;
      if nBitsUsed >= |vBits| {
        fBad := true;
        return Null, nBitsUsed, nHashUsed, vMatch, vnIndex;
      }
      var fParentOfMatch := vBits[nBitsUsed];
      nBitsUsed := nBitsUsed + 1;
      if height == 0 || !fParentOfMatch {
        if nHashUsed >= |vHash| {
          fBad := true;
          return Null, nBitsUsed, nHashUsed, vMatch, vnIndex;
        }
        hash := vHash[nHashUsed];
        nHashUsed := nHashUsed + 1;
        if height == 0 && fParentOfMatch {
          vMatch := vMatch + [hash];
          vnIndex := vnIndex + [pos];
        }
      } else {
        var left, right;
        left, nBitsUsed, nHashUsed, vMatch, vnIndex :=
          TraverseAndExtract(height - 1, 2 * pos, nBitsUsed, nHashUsed, vMatch, vnIndex);
        if 2 * pos + 1 < Width(nTransactions, height - 1) {
          right, nBitsUsed, nHashUsed, vMatch, vnIndex :=
            TraverseAndExtract(height - 1, 2 * pos + 1, nBitsUsed, nHashUsed, vMatch, vnIndex);
          if right == left {
            fBad := true;
          }
        } else {
          right := left;
        }
        hash := Pair(left, right);
      }
    }

    method ExtractAll(indices: seq<nat>) returns (root: Hash, vMatch: seq<Hash>, vnIndex: seq<nat>)
      modifies this`fBad
      ensures Matches(root, vMatch, vnIndex) == ExtractMatches(old(Value()), indices)
    {
      vMatch, vnIndex := [], indices;
      if nTransactions == 0 || nTransactions > MAX_TRANSACTIONS || |vHash| > nTransactions || |vBits| < |vHash| {
        return Null, vMatch, vnIndex;
      }
      var nHeight := FindHeight();
      var nBitsUsed, nHashUsed;
      root, nBitsUsed, nHashUsed, vMatch, vnIndex := TraverseAndExtract(nHeight, 0, 0, 0, vMatch, vnIndex);
      if fBad || (nBitsUsed + 7) / 8 != (|vBits| + 7) / 8 || nHashUsed != |vHash| {
        root := Null;
      }
    }
  }
}
