/**
 * Compact block relay: the difference-coded indexes of BlockTransactionsRequest in
 * src/blockencodings.h, and CBlockHeaderAndShortTxIDs and PartiallyDownloadedBlock of
 * src/blockencodings.cpp.
 */
module CompactBlocks {
  import opened Wrappers

  // ----- difference-coded indexes -----

  const MAX_INDEX := 0xFFFF
  const TWO16 := 0x1_0000
  const TWO64 := 0x1_0000_0000_0000_0000

  predicate Increasing(s: seq<int>) { forall i | 0 <= i < |s| - 1 :: s[i] < s[i + 1] }

  predicate Indexes(s: seq<int>) { forall i | 0 <= i < |s| :: 0 <= s[i] <= MAX_INDEX }

  /** What is written for index i: the gap to the index before it, as a 64-bit number. */
  function Delta(s: seq<int>, i: nat): int
    requires i < |s|
  {
    (s[i] - if i == 0 then 0 else s[i - 1] + 1) % TWO64
  }

  function EncodeIndexes(s: seq<int>): (d: seq<int>)
    ensures |d| == |s|
  {
    seq(|s|, i requires 0 <= i < |s| => Delta(s, i))
  }

  /** The reader: the running offset is a 16-bit number. */
  function DecodeIndexes(d: seq<int>, offset: int): Option<seq<int>> {
    if d == [] then Some([])
    else if d[0] > MAX_INDEX || d[0] + offset > MAX_INDEX then None
    else
      var v := d[0] + offset;
      var rest := DecodeIndexes(d[1..], (v + 1) % TWO16);
      if rest.None? then None else Some([v] + rest.value)
  }

  /** The in-place loop of BlockTransactionsRequest, after the differences have been read. */
  method AddOffsets(indexes: array<int>) returns (ok: bool)
    requires forall i | 0 <= i < indexes.Length :: 0 <= indexes[i]
    modifies indexes
    ensures ok <==> DecodeIndexes(old(indexes[..]), 0).Some?
    ensures ok ==> DecodeIndexes(old(indexes[..]), 0) == Some(indexes[..])
  {
    ghost var d := indexes[..];
    var offset := 0;
    AfterNothing(DecodeIndexes(d, 0));
    assert d[0..] == d;
    for i := 0 to indexes.Length
      invariant 0 <= offset <= MAX_INDEX
      invariant forall j | i <= j < indexes.Length :: indexes[j] == d[j]
      invariant DecodeIndexes(d, 0) == After(indexes[..i], DecodeIndexes(d[i..], offset))
    {
      if indexes[i] > MAX_INDEX || indexes[i] + offset > MAX_INDEX {
        return false;
      }
      ghost var done := indexes[..i];
      DecodeNext(d, i, offset, done);
      indexes[i] := indexes[i] + offset;
      assert indexes[..i + 1] == done + [indexes[i]];
      offset := (indexes[i] + 1) % TWO16;
    }
    assert indexes[..indexes.Length] + [] == indexes[..];
    return true;
  }

  ghost function After(s: seq<int>, r: Option<seq<int>>): Option<seq<int>> {
    if r.None? then None else Some(s + r.value)
  }

  lemma AfterNothing(r: Option<seq<int>>)
    ensures After([], r) == r
  {
    if r.Some? { assert [] + r.value == r.value; }
  }

  lemma DecodeNext(d: seq<int>, i: nat, offset: int, done: seq<int>)
    requires i < |d| && d[i] <= MAX_INDEX && d[i] + offset <= MAX_INDEX
    ensures After(done, DecodeIndexes(d[i..], offset))
         == After(done + [d[i] + offset], DecodeIndexes(d[i + 1..], (d[i] + offset + 1) % TWO16))
  {
    assert d[i..][1..] == d[i + 1..];
    AfterCons(done, d[i] + offset, DecodeIndexes(d[i + 1..], (d[i] + offset + 1) % TWO16));
  }

  lemma AfterCons(s: seq<int>, v: int, r: Option<seq<int>>)
    ensures After(s, if r.None? then None else Some([v] + r.value)) == After(s + [v], r)
  {
    if r.Some? { assert s + ([v] + r.value) == s + [v] + r.value; }
  }

  /** Strictly increasing indexes survive the round trip. */
  lemma IndexesRoundTrip(s: seq<int>)
    requires Indexes(s) && Increasing(s)
    ensures DecodeIndexes(EncodeIndexes(s), 0) == Some(s)
  {
    DecodeSuffix(s, 0);
    assert EncodeIndexes(s)[0..] == EncodeIndexes(s) && s[0..] == s;
  }

  function OffsetAt(s: seq<int>, i: nat): int
    requires i <= |s|
  {
    if i == 0 then 0 else (s[i - 1] + 1) % TWO16
  }

  lemma DeltaIs(s: seq<int>, i: nat)
    requires Indexes(s) && Increasing(s) && i < |s|
    ensures EncodeIndexes(s)[i] == s[i] - OffsetAt(s, i) && 0 <= OffsetAt(s, i) <= s[i]
  {
    if i > 0 { assert s[i - 1] < s[i - 1 + 1]; }
  }

  lemma {:induction false} DecodeSuffix(s: seq<int>, i: nat)
    requires Indexes(s) && Increasing(s) && i <= |s|
    ensures DecodeIndexes(EncodeIndexes(s)[i..], OffsetAt(s, i)) == Some(s[i..])
    decreases |s| - i
  {
    var d := EncodeIndexes(s);
    if i < |s| {
      DecodeSuffix(s, i + 1);
      assert d[i..][1..] == d[i + 1..];
      DeltaIs(s, i);
      assert s[i..] == [s[i]] + s[i + 1..];
    }
  }

  function Sum(d: seq<int>): int { if d == [] then 0 else d[0] + Sum(d[1..]) }

  predicate Differences(d: seq<int>) { forall i | 0 <= i < |d| :: d[i] >= 0 }

  /**
   * Reading succeeds with a strictly increasing list exactly when the indexes that the differences
   * add up to stay within 16 bits.  Otherwise reading fails, or the offset starts again from zero.
   */
  lemma {:induction false} DecodedIncreasingIff(d: seq<int>, offset: nat)
    requires Differences(d) && offset <= MAX_INDEX
    ensures var r := DecodeIndexes(d, offset);
            r.Some? && Increasing(r.value) <==> d == [] || offset + Sum(d) + |d| - 1 <= MAX_INDEX
  {
    if d != [] {
      var v, rest := d[0] + offset, d[1..];
      SumNonneg(rest);
      if v < MAX_INDEX {
        DecodedIncreasingIff(rest, v + 1);
        DecodedStep(d, offset);
      } else if v == MAX_INDEX && rest != [] {
        RestartsAtZero(d, offset);
      } else if v == MAX_INDEX {
        assert DecodeIndexes(rest, 0) == Some([]);
      }
    }
  }

  lemma {:induction false} SumNonneg(d: seq<int>)
    requires Differences(d)
    ensures Sum(d) >= 0
  {
    if d != [] { SumNonneg(d[1..]); }
  }

  /** Every decoded list starts at the offset or above and stays within 16 bits. */
  lemma {:induction false} DecodedRange(d: seq<int>, offset: nat)
    requires Differences(d) && DecodeIndexes(d, offset).Some?
    ensures var s := DecodeIndexes(d, offset).value; |s| == |d| && Indexes(s) && (s != [] ==> s[0] == d[0] + offset)
  {
    if d != [] { DecodedRange(d[1..], (d[0] + offset + 1) % TWO16); }
  }

  /** Below the largest index the rest of the list follows in order. */
  lemma DecodedStep(d: seq<int>, offset: nat)
    requires Differences(d) && d != [] && d[0] + offset < MAX_INDEX
    ensures var r, rest := DecodeIndexes(d, offset), DecodeIndexes(d[1..], d[0] + offset + 1);
            && (r.Some? <==> rest.Some?)
            && (r.Some? ==> (Increasing(r.value) <==> Increasing(rest.value)))
  {
    var v := d[0] + offset;
    assert (v + 1) % TWO16 == v + 1;
    var rest := DecodeIndexes(d[1..], v + 1);
    if rest.Some? {
      DecodedRange(d[1..], v + 1);
      IncreasingCons(v, rest.value);
    }
  }

  /** After 65535 the offset is zero, so whatever is read next is not larger. */
  lemma RestartsAtZero(d: seq<int>, offset: nat)
    requires Differences(d) && |d| >= 2 && d[0] + offset == MAX_INDEX
    ensures var r := DecodeIndexes(d, offset); r.None? || !Increasing(r.value)
  {
    var rest := DecodeIndexes(d[1..], 0);
    assert (d[0] + offset + 1) % TWO16 == 0;
    if rest.Some? {
      DecodedRange(d[1..], 0);
      assert rest.value[0] <= MAX_INDEX;
      IncreasingCons(MAX_INDEX, rest.value);
    }
  }

  lemma IncreasingCons(v: int, rest: seq<int>)
    ensures Increasing([v] + rest) <==> Increasing(rest) && (rest != [] ==> v < rest[0])
  {
    var s := [v] + rest;
    if Increasing(s) {
      if rest != [] { assert s[0] < s[0 + 1]; }
      forall i | 0 <= i < |rest| - 1 ensures rest[i] < rest[i + 1] {
        assert s[i + 1] < s[i + 1 + 1];
      }
    }
    if Increasing(rest) && (rest != [] ==> v < rest[0]) {
      forall i | 0 <= i < |s| - 1 ensures s[i] < s[i + 1] {
        if i > 0 { assert rest[i - 1] < rest[i - 1 + 1]; }
      }
    }
  }

  /** Two differences that are read without complaint and do not increase. */
  lemma OffsetWraps()
    ensures DecodeIndexes([65535, 0], 0) == Some([65535, 0]) && !Increasing([65535, 0])
  {
    assert [65535, 0][0] > [65535, 0][0 + 1];
    assert [0][1..] == [];
    assert [0] + [] == [0];
    assert DecodeIndexes([0], 0) == Some([0]);
    assert [65535, 0][1..] == [0];
    assert [65535] + [0] == [65535, 0];
  }

  /** What the reader accepted in increasing order is what the writer would have sent. */
  lemma IndexesReencode(d: seq<int>)
    requires Differences(d)
    requires DecodeIndexes(d, 0).Some? && Increasing(DecodeIndexes(d, 0).value)
    ensures EncodeIndexes(DecodeIndexes(d, 0).value) == d
  {
    DecodedRange(d, 0);
    var s := DecodeIndexes(d, 0).value;
    forall i | 0 <= i < |s| ensures EncodeIndexes(s)[i] == d[i] { ReencodeAt(d, s, i); }
  }

  lemma ReencodeAt(d: seq<int>, s: seq<int>, i: nat)
    requires DecodeIndexes(d, 0) == Some(s) && Indexes(s) && Increasing(s) && i < |d| == |s|
    ensures EncodeIndexes(s)[i] == d[i]
  {
    DecodedAt(d, 0, i);
    DeltaIs(s, i);
  }

  lemma {:induction false} DecodedAt(d: seq<int>, offset: int, i: nat)
    requires DecodeIndexes(d, offset).Some? && i < |d| == |DecodeIndexes(d, offset).value|
    ensures var s := DecodeIndexes(d, offset).value;
            s[i] == d[i] + if i == 0 then offset else (s[i - 1] + 1) % TWO16
  {
    if i > 0 {
      DecodedAt(d[1..], (d[0] + offset + 1) % TWO16, i - 1);
    }
  }

  // ----- compact blocks -----

  datatype Tx = Tx(hash: int)

  datatype Prefilled = Prefilled(index: nat, isNull: bool, tx: Tx)

  datatype CompactBlock = CompactBlock(headerNull: bool, shorttxids: seq<int>, prefilledtxn: seq<Prefilled>)

  datatype ReadStatus = StatusOk | Invalid | Failed | CheckBlockFailed

  /** What a call of InitData comes to. */
  datatype Outcome = Returns(status: ReadStatus) | Hangs

  /** What the loop over the short ids comes to. */
  datatype Mapping = Found(ids: map<int, int>) | Refused | Endless

  /** The compact form of a block: its coinbase in full, the short ids of all other transactions. */
  function Compact(vtx: seq<Tx>, shortId: Tx -> int): CompactBlock
    requires vtx != []
  {
    CompactBlock(false, seq(|vtx| - 1, i requires 0 <= i < |vtx| - 1 => shortId(vtx[i + 1])), [Prefilled(0, false, vtx[0])])
  }

  /** The slot of the i-th prefilled transaction: indexes count from the slot after the one before. */
  function Slot(p: seq<Prefilled>, i: nat): int
    requires i < |p|
  {
    if i == 0 then p[0].index else Slot(p, i - 1) + p[i].index + 1
  }

  lemma {:induction false} SlotsIncrease(p: seq<Prefilled>, i: nat, j: nat)
    requires i < j < |p|
    ensures Slot(p, i) < Slot(p, j)
  {
    if i < j - 1 { SlotsIncrease(p, i, j - 1); }
  }

  lemma {:induction false} SlotNonneg(p: seq<Prefilled>, i: nat)
    requires i < |p|
    ensures Slot(p, i) >= i
  {
    if i > 0 { SlotNonneg(p, i - 1); }
  }

  /** The slots that are not filled, in order. */
  function Free(avail: seq<Option<Tx>>): seq<int> {
    if avail == [] then []
    else
      var n := |avail| - 1;
      Free(avail[..n]) + if avail[n].None? then [n] else []
  }

  ghost predicate ListsFree(r: seq<int>, avail: seq<Option<Tx>>) {
    && (forall k | 0 <= k < |r| :: 0 <= r[k] < |avail| && avail[r[k]].None?)
    && Ascending(r)
    && (forall j | 0 <= j < |avail| && avail[j].None? :: j in r)
  }

  lemma {:induction false} FreeSlots(avail: seq<Option<Tx>>)
    ensures ListsFree(Free(avail), avail)
  {
    if avail != [] {
      var n := |avail| - 1;
      var before := avail[..n];
      FreeSlots(before);
      forall j | 0 <= j < |avail| && avail[j].None? ensures j in Free(avail) {
        if j < n { assert before[j].None?; }
      }
    }
  }

  lemma {:induction false} FillOne(avail: seq<Option<Tx>>, j: nat, tx: Tx)
    requires j < |avail| && avail[j].None?
    ensures |Free(avail[j := Some(tx)])| == |Free(avail)| - 1
  {
    var n, after := |avail| - 1, avail[j := Some(tx)];
    if j == n {
      assert after[..n] == avail[..n];
    } else {
      assert after[..n] == avail[..n][j := Some(tx)];
      FillOne(avail[..n], j, tx);
    }
  }

  function Empty(n: nat): seq<Option<Tx>> { seq(n, i => None) }

  lemma {:induction false} AllFree(n: nat)
    ensures |Free(Empty(n))| == n
  {
    if n > 0 {
      assert Empty(n)[..n - 1] == Empty(n - 1);
      AllFree(n - 1);
    }
  }

  /** What InitData demands of the prefilled transactions. */
  predicate Placeable(msg: CompactBlock, n: nat)
    requires n <= |msg.prefilledtxn|
  {
    n == 0 || (Placeable(msg, n - 1) && SlotOk(msg, n - 1))
  }

  predicate SlotOk(msg: CompactBlock, i: nat)
    requires i < |msg.prefilledtxn|
  {
    && !msg.prefilledtxn[i].isNull
    && Slot(msg.prefilledtxn, i) <= MAX_INDEX && Slot(msg.prefilledtxn, i) <= |msg.shorttxids| + i
  }

  function BlockTxCount(msg: CompactBlock): nat { |msg.shorttxids| + |msg.prefilledtxn| }

  function Slots(p: seq<Prefilled>): (at: seq<int>)
    ensures |at| == |p| && forall i | 0 <= i < |p| :: at[i] == Slot(p, i)
  {
    seq(|p|, i requires 0 <= i < |p| => Slot(p, i))
  }

  /** The first n prefilled transactions are in the given slots, and nothing else is filled. */
  ghost predicate InSlots(avail: seq<Option<Tx>>, p: seq<Prefilled>, at: seq<int>, n: nat)
    requires n <= |p| == |at|
  {
    && (forall i | 0 <= i < n :: 0 <= at[i] < |avail| && avail[at[i]] == Some(p[i].tx))
    && (forall j | 0 <= j < |avail| && avail[j].Some? :: j in at[..n])
  }

  ghost predicate Placed(avail: seq<Option<Tx>>, msg: CompactBlock, n: nat)
    requires n <= |msg.prefilledtxn|
  {
    && |avail| == BlockTxCount(msg) && |Free(avail)| == |avail| - n
    && InSlots(avail, msg.prefilledtxn, Slots(msg.prefilledtxn), n)
  }

  lemma SlotIsFree(avail: seq<Option<Tx>>, p: seq<Prefilled>, at: seq<int>, n: nat)
    requires 0 < n <= |p| == |at| && InSlots(avail, p, at, n - 1) && 0 <= at[n - 1] < |avail|
    requires forall i | 0 <= i < n - 1 :: at[i] < at[n - 1]
    ensures avail[at[n - 1]].None? && InSlots(avail[at[n - 1] := Some(p[n - 1].tx)], p, at, n)
  {
    assert at[..n] == at[..n - 1] + [at[n - 1]];
  }

  lemma PlaceNext(avail: seq<Option<Tx>>, msg: CompactBlock, n: nat)
    requires 0 < n <= |msg.prefilledtxn| && Placed(avail, msg, n - 1) && SlotOk(msg, n - 1)
    ensures 0 <= Slot(msg.prefilledtxn, n - 1) < |avail|
    ensures Placed(avail[Slot(msg.prefilledtxn, n - 1) := Some(msg.prefilledtxn[n - 1].tx)], msg, n)
  {
    var p := msg.prefilledtxn;
    SlotNonneg(p, n - 1);
    forall i | 0 <= i < n - 1 ensures Slots(p)[i] < Slots(p)[n - 1] { SlotsIncrease(p, i, n - 1); }
    SlotIsFree(avail, p, Slots(p), n);
    FillOne(avail, Slot(p, n - 1), p[n - 1].tx);
  }

  // ----- matching the memory pool -----

  /** The pool transactions with the given short id. */
  function Hits(pool: seq<Tx>, shortId: Tx -> int, id: int): (r: seq<Tx>)
    ensures forall k | 0 <= k < |r| :: r[k] in pool && shortId(r[k]) == id
  {
    if pool == [] then []
    else
      var n := |pool| - 1;
      Hits(pool[..n], shortId, id) + if shortId(pool[n]) == id then [pool[n]] else []
  }

  /** A short id is taken to mean a pool transaction only when exactly one matches. */
  function Match(pool: seq<Tx>, shortId: Tx -> int, id: int): Option<Tx> {
    var r := Hits(pool, shortId, id);
    if |r| == 1 then Some(r[0]) else None
  }

  /**
   * The slots after a scan of the given part of the pool: prefilled slots are as they were, and
   * the i-th free slot holds what the i-th short id stands for.
   */
  ghost predicate Matched(avail: seq<Option<Tx>>, placed: seq<Option<Tx>>, free: seq<int>, ids: seq<int>,
                          pool: seq<Tx>, shortId: Tx -> int)
  {
    && |avail| == |placed| && |ids| == |free|
    && (forall j | 0 <= j < |placed| && placed[j].Some? :: avail[j] == placed[j])
    && (forall i | 0 <= i < |ids| :: 0 <= free[i] < |avail| && avail[free[i]] == Match(pool, shortId, ids[i]))
  }

  ghost predicate Seen(have: seq<bool>, free: seq<int>, ids: seq<int>, pool: seq<Tx>, shortId: Tx -> int) {
    |ids| == |free| && forall i | 0 <= i < |ids| ::
      0 <= free[i] < |have| && (have[free[i]] <==> Hits(pool, shortId, ids[i]) != [])
  }

  predicate Ascending(s: seq<int>) { forall i, j | 0 <= i < j < |s| :: s[i] < s[j] }

  predicate NoDuplicates(s: seq<int>) { forall i, j | 0 <= i < j < |s| :: s[i] != s[j] }

  /** The free slots of placed, in order, each with its own short id. */
  ghost predicate Slotted(placed: seq<Option<Tx>>, free: seq<int>, ids: seq<int>) {
    free == Free(placed) && ListsFree(free, placed) && |ids| == |free| && NoDuplicates(ids)
  }

  lemma HitsSnoc(pool: seq<Tx>, k: nat, shortId: Tx -> int, id: int)
    requires k < |pool|
    ensures Hits(pool[..k + 1], shortId, id)
         == Hits(pool[..k], shortId, id) + if shortId(pool[k]) == id then [pool[k]] else []
  {
    assert pool[..k + 1][..k] == pool[..k];
  }

  lemma ScanMiss(avail: seq<Option<Tx>>, have: seq<bool>, placed: seq<Option<Tx>>, free: seq<int>, ids: seq<int>,
                 pool: seq<Tx>, k: nat, shortId: Tx -> int)
    requires k < |pool| && shortId(pool[k]) !in ids
    requires Matched(avail, placed, free, ids, pool[..k], shortId) && Seen(have, free, ids, pool[..k], shortId)
    ensures Matched(avail, placed, free, ids, pool[..k + 1], shortId) && Seen(have, free, ids, pool[..k + 1], shortId)
  {
    forall i | 0 <= i < |ids| ensures Hits(pool[..k + 1], shortId, ids[i]) == Hits(pool[..k], shortId, ids[i]) {
      HitsSnoc(pool, k, shortId, ids[i]);
    }
  }

  lemma OthersStay(free: seq<int>, ids: seq<int>, pool: seq<Tx>, k: nat, shortId: Tx -> int, i: nat, l: nat)
    requires k < |pool| && |free| == |ids| && i < |ids| && l < |ids| && i != l && ids[i] == shortId(pool[k])
    requires NoDuplicates(ids) && Ascending(free)
    ensures free[l] != free[i] && Hits(pool[..k + 1], shortId, ids[l]) == Hits(pool[..k], shortId, ids[l])
  {
    assert ids[l] != ids[i];
    HitsSnoc(pool, k, shortId, ids[l]);
  }

  /** A pool transaction with a known short id: the first one fills the slot, a second one empties it. */
  lemma ScanHit(avail: seq<Option<Tx>>, placed: seq<Option<Tx>>, free: seq<int>, ids: seq<int>,
                pool: seq<Tx>, k: nat, shortId: Tx -> int, i: nat)
    requires k < |pool| && i < |ids| && ids[i] == shortId(pool[k]) && Slotted(placed, free, ids)
    requires Matched(avail, placed, free, ids, pool[..k], shortId)
    ensures Matched(avail[free[i] := Match(pool[..k + 1], shortId, ids[i])], placed, free, ids, pool[..k + 1], shortId)
  {
    forall l | 0 <= l < |ids| && l != i
      ensures free[l] != free[i] && Match(pool[..k + 1], shortId, ids[l]) == Match(pool[..k], shortId, ids[l])
    {
      OthersStay(free, ids, pool, k, shortId, i, l);
    }
  }

  lemma ScanSeen(have: seq<bool>, placed: seq<Option<Tx>>, free: seq<int>, ids: seq<int>,
                 pool: seq<Tx>, k: nat, shortId: Tx -> int, i: nat)
    requires k < |pool| && i < |ids| && ids[i] == shortId(pool[k]) && Slotted(placed, free, ids)
    requires Seen(have, free, ids, pool[..k], shortId)
    ensures Seen(have[free[i] := true], free, ids, pool[..k + 1], shortId)
    ensures Match(pool[..k + 1], shortId, ids[i]) == if have[free[i]] then None else Some(pool[k])
  {
    HitsSnoc(pool, k, shortId, ids[i]);
    forall l | 0 <= l < |ids| && l != i
      ensures free[l] != free[i] && Hits(pool[..k + 1], shortId, ids[l]) == Hits(pool[..k], shortId, ids[l])
    {
      OthersStay(free, ids, pool, k, shortId, i, l);
    }
  }

  lemma ResetOne(avail: seq<Option<Tx>>, j: nat)
    requires j < |avail| && avail[j].Some?
    ensures |Free(avail[j := None])| == |Free(avail)| + 1
  {
    FillOne(avail[j := None], j, avail[j].value);
    assert avail[j := None][j := avail[j]] == avail;
  }

  // ----- the 16-bit map of short ids -----

  /** The map holds slots as 16-bit numbers. */
  function Stored(free: seq<int>): (at: seq<int>)
    ensures |at| == |free| && forall i | 0 <= i < |at| :: at[i] == free[i] % TWO16
  {
    seq(|free|, i requires 0 <= i < |free| => free[i] % TWO16)
  }

  /** The assignments ids[i] := at[i], in order. */
  function IdMap(ids: seq<int>, at: seq<int>): map<int, int>
    requires |ids| == |at|
  {
    if ids == [] then map[]
    else
      var n := |ids| - 1;
      IdMap(ids[..n], at[..n])[ids[n] := at[n]]
  }

  ghost predicate Mapped(m: map<int, int>, ids: seq<int>, at: seq<int>) {
    && |ids| == |at| && (forall id :: id in m <==> id in ids)
    && (forall i | 0 <= i < |ids| :: m[ids[i]] == at[i])
  }

  lemma KeyCount(m: map<int, int>, id: int, slot: int)
    ensures |m[id := slot]| == |m| + if id in m then 0 else 1
  {
    var m' := m[id := slot];
    if id in m {
      assert m'.Keys == m.Keys;
    } else {
      assert m'.Keys == m.Keys + {id};
    }
    assert |m'| == |m'.Keys| && |m| == |m.Keys|;
  }

  lemma {:induction false} IdMapKeys(ids: seq<int>, at: seq<int>)
    requires |ids| == |at|
    ensures forall id :: id in IdMap(ids, at) <==> id in ids
  {
    if ids != [] {
      var n := |ids| - 1;
      IdMapKeys(ids[..n], at[..n]);
      assert ids == ids[..n] + [ids[n]];
    }
  }

  lemma NoDuplicatesSnoc(ids: seq<int>, n: nat)
    requires |ids| == n + 1
    ensures NoDuplicates(ids) <==> NoDuplicates(ids[..n]) && ids[n] !in ids[..n]
  {
    if NoDuplicates(ids) {
      forall i, j | 0 <= i < j < n ensures ids[..n][i] != ids[..n][j] { assert ids[i] != ids[j]; }
      forall i | 0 <= i < n ensures ids[..n][i] != ids[n] { assert ids[i] != ids[n]; }
    }
    if NoDuplicates(ids[..n]) && ids[n] !in ids[..n] {
      forall i, j | 0 <= i < j < |ids| ensures ids[i] != ids[j] {
        assert ids[i] == ids[..n][i];
        if j < n { assert ids[..n][i] != ids[..n][j]; }
      }
    }
  }

  /** The map has as many entries as there are short ids exactly when no two of them are equal. */
  lemma {:induction false} IdMapSize(ids: seq<int>, at: seq<int>)
    requires |ids| == |at|
    ensures |IdMap(ids, at)| <= |ids| && (|IdMap(ids, at)| == |ids| <==> NoDuplicates(ids))
  {
    if ids != [] {
      var n := |ids| - 1;
      IdMapSize(ids[..n], at[..n]);
      IdMapKeys(ids[..n], at[..n]);
      KeyCount(IdMap(ids[..n], at[..n]), ids[n], at[n]);
      NoDuplicatesSnoc(ids, n);
    }
  }

  /** Without equal short ids each is mapped to its own slot. */
  lemma {:induction false} IdMapMeans(ids: seq<int>, at: seq<int>)
    requires |ids| == |at| && NoDuplicates(ids)
    ensures Mapped(IdMap(ids, at), ids, at)
  {
    IdMapKeys(ids, at);
    if ids != [] {
      var n := |ids| - 1;
      NoDuplicatesSnoc(ids, n);
      IdMapMeans(ids[..n], at[..n]);
      var m := IdMap(ids[..n], at[..n]);
      forall i | 0 <= i < |ids| ensures IdMap(ids, at)[ids[i]] == at[i] {
        if i < n { assert ids[..n][i] == ids[i] && m[ids[..n][i]] == at[..n][i]; }
      }
    }
  }

  /** A free slot is at most as many places past its rank as there are filled slots. */
  lemma {:induction false} FreeRank(avail: seq<Option<Tx>>, i: nat)
    requires i < |Free(avail)|
    ensures i <= Free(avail)[i] <= i + |avail| - |Free(avail)|
  {
    var n := |avail| - 1;
    FreeCount(avail[..n]);
    if i < |Free(avail[..n])| { FreeRank(avail[..n], i); }
  }

  lemma {:induction false} FreeCount(avail: seq<Option<Tx>>)
    ensures |Free(avail)| <= |avail|
  {
    if avail != [] { FreeCount(avail[..|avail| - 1]); }
  }

  /** The prefilled slots are 16-bit numbers. */
  lemma {:induction false} PlaceableSlots(msg: CompactBlock, n: nat, i: nat)
    requires n <= |msg.prefilledtxn| && Placeable(msg, n) && i < n
    ensures SlotOk(msg, i)
  {
    if i < n - 1 { PlaceableSlots(msg, n - 1, i); }
  }

  ghost predicate FilledWithin(avail: seq<Option<Tx>>) {
    forall j | 0 <= j < |avail| && avail[j].Some? :: j <= MAX_INDEX
  }

  lemma PlacedWithin(avail: seq<Option<Tx>>, msg: CompactBlock)
    requires Placeable(msg, |msg.prefilledtxn|) && Placed(avail, msg, |msg.prefilledtxn|)
    ensures FilledWithin(avail) && |msg.prefilledtxn| <= TWO16
  {
    var p := msg.prefilledtxn;
    forall j | 0 <= j < |avail| && avail[j].Some? ensures j <= MAX_INDEX {
      var i :| 0 <= i < |p| && Slots(p)[..|p|][i] == j;
      PlaceableSlots(msg, |p|, i);
    }
    if p != [] {
      PlaceableSlots(msg, |p|, |p| - 1);
      SlotNonneg(p, |p| - 1);
    }
  }

  /** The map holds the free slots themselves exactly when the block has at most 65536 transactions. */
  lemma StoredIff(msg: CompactBlock, avail: seq<Option<Tx>>)
    requires Placeable(msg, |msg.prefilledtxn|) && Placed(avail, msg, |msg.prefilledtxn|)
    ensures Stored(Free(avail)) == Free(avail) <==> BlockTxCount(msg) <= TWO16
  {
    var free, last := Free(avail), |avail| - 1;
    FreeSlots(avail);
    if |avail| <= TWO16 {
      forall i | 0 <= i < |free| ensures Stored(free)[i] == free[i] { assert 0 <= free[i] < TWO16; }
    } else {
      PlacedWithin(avail, msg);
      assert avail[last].None?;
      var i :| 0 <= i < |free| && free[i] == last;
      assert Stored(free)[i] < TWO16 <= free[i];
    }
  }

  // ----- the scan of the memory pool -----

  datatype Scan = Scan(avail: seq<Option<Tx>>, have: seq<bool>, count: int)

  function StartScan(placed: seq<Option<Tx>>): Scan { Scan(placed, seq(|placed|, _ => false), 0) }

  predicate Within(ids: map<int, int>, n: nat) { forall id | id in ids :: 0 <= ids[id] < n }

  /** One pool transaction: the first with a short id fills the slot, a second one empties it. */
  function ScanTx(s: Scan, ids: map<int, int>, id: int, tx: Tx): (r: Scan)
    requires |s.have| == |s.avail| && Within(ids, |s.avail|)
    ensures |r.have| == |r.avail| == |s.avail|
  {
    if id !in ids then s
    else
      var at := ids[id];
      if !s.have[at] then Scan(s.avail[at := Some(tx)], s.have[at := true], s.count + 1)
      else if s.avail[at].Some? then Scan(s.avail[at := None], s.have, s.count - 1)
      else s
  }

  function ScanAll(s: Scan, ids: map<int, int>, pool: seq<Tx>, shortId: Tx -> int): (r: Scan)
    requires |s.have| == |s.avail| && Within(ids, |s.avail|)
    ensures |r.have| == |r.avail| == |s.avail|
  {
    if pool == [] then s
    else
      var n := |pool| - 1;
      ScanTx(ScanAll(s, ids, pool[..n], shortId), ids, shortId(pool[n]), pool[n])
  }

  lemma ScanNext(s: Scan, ids: map<int, int>, pool: seq<Tx>, shortId: Tx -> int, k: nat)
    requires |s.have| == |s.avail| && Within(ids, |s.avail|) && k < |pool|
    ensures ScanAll(s, ids, pool[..k + 1], shortId)
         == ScanTx(ScanAll(s, ids, pool[..k], shortId), ids, shortId(pool[k]), pool[k])
  {
    assert pool[..k + 1][..k] == pool[..k];
  }

  ghost predicate Scanned(s: Scan, placed: seq<Option<Tx>>, free: seq<int>, ids: seq<int>, pool: seq<Tx>,
                          shortId: Tx -> int)
  {
    && |s.have| == |placed| && Matched(s.avail, placed, free, ids, pool, shortId) && Seen(s.have, free, ids, pool, shortId)
    && s.count == |ids| - |Free(s.avail)|
  }

  lemma ScanStart(placed: seq<Option<Tx>>, free: seq<int>, ids: seq<int>, shortId: Tx -> int)
    requires free == Free(placed) && |ids| == |free| && NoDuplicates(ids)
    ensures Scanned(StartScan(placed), placed, free, ids, [], shortId) && Slotted(placed, free, ids)
  {
    FreeSlots(placed);
  }

  /** A pool transaction whose short id belongs to free slot i. */
  lemma ScanHits(s: Scan, placed: seq<Option<Tx>>, free: seq<int>, ids: seq<int>,
                 pool: seq<Tx>, k: nat, shortId: Tx -> int, i: nat, m: map<int, int>)
    requires k < |pool| && i < |ids| && ids[i] == shortId(pool[k]) && Slotted(placed, free, ids)
    requires Scanned(s, placed, free, ids, pool[..k], shortId)
    requires Within(m, |s.avail|) && Mapped(m, ids, free)
    ensures Scanned(ScanTx(s, m, ids[i], pool[k]), placed, free, ids, pool[..k + 1], shortId)
  {
    var at := free[i];
    assert m[ids[i]] == at;
    ScanHit(s.avail, placed, free, ids, pool, k, shortId, i);
    ScanSeen(s.have, placed, free, ids, pool, k, shortId, i);
    assert s.avail[at] == Match(pool[..k], shortId, ids[i]);
    if !s.have[at] {
      assert s.avail[at].None?;
      FillOne(s.avail, at, pool[k]);
    } else if s.avail[at].Some? {
      ResetOne(s.avail, at);
    } else {
      assert s.avail[at := None] == s.avail;
    }
    assert s.have[at] ==> s.have[at := true] == s.have;
  }

  lemma ScanMisses(s: Scan, placed: seq<Option<Tx>>, free: seq<int>, ids: seq<int>, pool: seq<Tx>, k: nat,
                   shortId: Tx -> int)
    requires k < |pool| && shortId(pool[k]) !in ids && Scanned(s, placed, free, ids, pool[..k], shortId)
    ensures Scanned(s, placed, free, ids, pool[..k + 1], shortId)
  {
    ScanMiss(s.avail, s.have, placed, free, ids, pool, k, shortId);
  }

  /** When the map holds the free slots, the scan finds what each short id stands for. */
  lemma {:induction false} ScanMatches(placed: seq<Option<Tx>>, ids: seq<int>, m: map<int, int>, pool: seq<Tx>, k: nat,
                                       shortId: Tx -> int)
    requires k <= |pool| && NoDuplicates(ids) && Mapped(m, ids, Free(placed)) && Within(m, |placed|)
    ensures Scanned(ScanAll(StartScan(placed), m, pool[..k], shortId), placed, Free(placed), ids, pool[..k], shortId)
  {
    var free := Free(placed);
    ScanStart(placed, free, ids, shortId);
    if k == 0 {
      assert pool[..0] == [];
    } else {
      ScanMatches(placed, ids, m, pool, k - 1, shortId);
      ScanNext(StartScan(placed), m, pool, shortId, k - 1);
      var s, id := ScanAll(StartScan(placed), m, pool[..k - 1], shortId), shortId(pool[k - 1]);
      if id in ids {
        var i :| 0 <= i < |ids| && ids[i] == id;
        ScanHits(s, placed, free, ids, pool, k - 1, shortId, i, m);
      } else {
        ScanMisses(s, placed, free, ids, pool, k - 1, shortId);
      }
    }
  }

  /** Slots that are stored lie within the block, wrapped or not. */
  lemma StoredWithin(avail: seq<Option<Tx>>, ids: seq<int>)
    requires |ids| == |Free(avail)|
    ensures Within(IdMap(ids, Stored(Free(avail))), |avail|)
  {
    FreeSlots(avail);
    var at := Stored(Free(avail));
    forall i | 0 <= i < |at| ensures 0 <= at[i] < |avail| { assert at[i] <= Free(avail)[i]; }
    IdMapWithin(ids, at, |avail|);
  }

  lemma {:induction false} IdMapWithin(ids: seq<int>, at: seq<int>, n: nat)
    requires |ids| == |at| && forall i | 0 <= i < |at| :: 0 <= at[i] < n
    ensures Within(IdMap(ids, at), n)
  {
    if ids != [] { IdMapWithin(ids[..|ids| - 1], at[..|ids| - 1], n); }
  }

  // ----- filling in the rest -----

  /** FillBlock: free slots take the missing transactions in order, and none may be left over. */
  function Fill(avail: seq<Option<Tx>>, missing: seq<Tx>): Option<seq<Tx>> {
    if avail == [] then (if missing == [] then Some([]) else None)
    else if avail[0].Some? then Cons(avail[0].value, Fill(avail[1..], missing))
    else if missing == [] then None
    else Cons(missing[0], Fill(avail[1..], missing[1..]))
  }

  function Cons(tx: Tx, r: Option<seq<Tx>>): Option<seq<Tx>> {
    if r.None? then None else Some([tx] + r.value)
  }

  /** The transactions of the block that are not available. */
  function Missing(avail: seq<Option<Tx>>, vtx: seq<Tx>): seq<Tx>
    requires |avail| == |vtx|
  {
    if avail == [] then []
    else (if avail[0].None? then [vtx[0]] else []) + Missing(avail[1..], vtx[1..])
  }

  predicate Agrees(avail: seq<Option<Tx>>, vtx: seq<Tx>) {
    |avail| == |vtx| && forall j | 0 <= j < |avail| && avail[j].Some? :: avail[j].value == vtx[j]
  }

  /** FillBlock yields vtx exactly when what is available agrees with it and the rest is supplied. */
  lemma {:induction false} FillIff(avail: seq<Option<Tx>>, missing: seq<Tx>, vtx: seq<Tx>)
    ensures Fill(avail, missing) == Some(vtx) <==> Agrees(avail, vtx) && missing == Missing(avail, vtx)
  {
    if avail == [] {
    } else if vtx == [] {
    } else if avail[0].Some? {
      FillIff(avail[1..], missing, vtx[1..]);
      FillHead(avail, vtx);
      assert vtx == [vtx[0]] + vtx[1..];
    } else if missing == [] {
    } else {
      FillIff(avail[1..], missing[1..], vtx[1..]);
      FillHead(avail, vtx);
      assert vtx == [vtx[0]] + vtx[1..];
      assert missing == [missing[0]] + missing[1..];
    }
  }

  lemma FillHead(avail: seq<Option<Tx>>, vtx: seq<Tx>)
    requires avail != [] && vtx != []
    ensures Agrees(avail, vtx) <==> Agrees(avail[1..], vtx[1..]) && (avail[0].Some? ==> avail[0].value == vtx[0])
  {
    if Agrees(avail[1..], vtx[1..]) && (avail[0].Some? ==> avail[0].value == vtx[0]) {
      forall j | 0 <= j < |avail| && avail[j].Some? ensures avail[j].value == vtx[j] {
        if j > 0 { assert avail[1..][j - 1].value == vtx[1..][j - 1]; }
      }
    }
  }

  class PartiallyDownloadedBlock {
    var txn_available: seq<Option<Tx>>
    var prefilled_count: nat
    var mempool_count: int

    constructor ()
      ensures txn_available == [] && prefilled_count == 0 && mempool_count == 0
    {
      txn_available, prefilled_count, mempool_count := [], 0, 0;
    }

    /** The first loop of InitData. */
    method PlacePrefilled(msg: CompactBlock) returns (ok: bool)
      modifies this
      ensures ok <==> Placeable(msg, |msg.prefilledtxn|)
      ensures ok ==> Placed(txn_available, msg, |msg.prefilledtxn|) && prefilled_count == |msg.prefilledtxn|
      ensures mempool_count == old(mempool_count)
    {
      ok, txn_available := PlaceAll(msg);
      PlacingMeans(msg, |msg.prefilledtxn|);
      if ok {
        prefilled_count := |msg.prefilledtxn|;
      }
    }

    static method PlaceAll(msg: CompactBlock) returns (ok: bool, avail: seq<Option<Tx>>)
      ensures ok <==> AfterPlacing(msg, |msg.prefilledtxn|).Some?
      ensures ok ==> AfterPlacing(msg, |msg.prefilledtxn|) == Some(avail)
    {
      avail := Empty(BlockTxCount(msg));
      var last := -1;
      for i := 0 to |msg.prefilledtxn|
        invariant last == LastSlot(msg, i) && AfterPlacing(msg, i) == Some(avail)
      {
        if !SlotOk(msg, i) { PlacingFails(msg, i + 1, |msg.prefilledtxn|); } else { NextSlot(msg, i); }
        if msg.prefilledtxn[i].isNull {
          return false, avail;
        }
        last := last + msg.prefilledtxn[i].index + 1;
        if last > MAX_INDEX || last > |msg.shorttxids| + i {
          return false, avail;
        }
        avail := avail[last := Some(msg.prefilledtxn[i].tx)];
      }
      return true, avail;
    }

    /**
     * The second loop of InitData.  The map sends each short id to its free slot as a 16-bit number.
     * The loop never ends when the prefilled transactions take all slots that the offset can reach.
     */
    method MapShortIds(msg: CompactBlock) returns (r: Mapping)
      requires Placeable(msg, |msg.prefilledtxn|) && Placed(txn_available, msg, |msg.prefilledtxn|)
      ensures r.Endless? <==> |msg.prefilledtxn| == TWO16 && msg.shorttxids != []
      ensures r.Found? ==> NoDuplicates(msg.shorttxids) && r.ids == IdMap(msg.shorttxids, Stored(Free(txn_available)))
      ensures r.Found? ==> |r.ids| == |msg.shorttxids|
    {
      EndlessIff(txn_available, msg);
      r := MapLoop(msg.shorttxids, |msg.prefilledtxn| == TWO16);
    }

    method MapLoop(short: seq<int>, ghost full: bool) returns (r: Mapping)
      requires |short| == |Free(txn_available)| && FilledWithin(txn_available)
      requires if full then OffsetFails(Free(txn_available)) else OffsetReaches(Free(txn_available))
      ensures r.Endless? <==> full && short != []
      ensures r.Found? ==> NoDuplicates(short) && r.ids == IdMap(short, Stored(Free(txn_available))) && |r.ids| == |short|
    {
      ghost var at := Stored(Free(txn_available));
      var ids, index_offset: nat, i := map[], 0, 0;
      MappingStart(txn_available);
      while i < |short|
        invariant i <= |short| && index_offset <= MAX_INDEX && Ahead(txn_available, i, index_offset)
        invariant ids == IdMap(short[..i], at[..i]) && (i > 0 ==> !full)
      {
        var ends;
        ends, index_offset := NextFree(i, index_offset);
        if !ends {
          return Endless;
        }
        IdMapNext(short, at, i);
        ids := ids[short[i] := (i + index_offset) % TWO16];
        i := i + 1;
        var uneven: bool := *;
        if uneven {
          return Refused;
        }
      }
      assert short[..i] == short && at[..i] == at;
      IdMapSize(short, at);
      return if |ids| == |short| then Found(ids) else Refused;
    }

    /**
     * The inner loop of that loop, on a 16-bit offset.  It is left iff some value of the offset
     * leads to a free slot.
     */
    method NextFree(i: nat, index_offset: nat) returns (ends: bool, offset: nat)
      requires i < |Free(txn_available)| && Ahead(txn_available, i, index_offset) && index_offset <= MAX_INDEX
      requires FilledWithin(txn_available)
      ensures ends <==> Free(txn_available)[i] - i <= MAX_INDEX
      ensures ends ==> offset <= MAX_INDEX && i + offset == Free(txn_available)[i] && Ahead(txn_available, i + 1, offset)
      ensures !ends ==> forall j | i <= j <= i + MAX_INDEX :: j < |txn_available| && txn_available[j].Some?
    {
      offset := index_offset;
      ghost var free := Free(txn_available);
      FreeSlots(txn_available);
      while txn_available[i + offset].Some?
        invariant index_offset <= offset <= MAX_INDEX && i + offset <= free[i]
        decreases free[i] - offset
      {
        if offset == MAX_INDEX {
          // the offset would start again from zero, and no value of it leads out
          AllTaken(txn_available, i);
          return false, offset;
        }
        offset := offset + 1;
      }
      RankOf(txn_available, i, i + offset);
      return true, offset;
    }

    /** What the scan does with a pool transaction whose short id belongs to slot idx. */
    method MatchOne(idx: nat, have: seq<bool>, tx: Tx) returns (have': seq<bool>)
      requires idx < |txn_available| == |have|
      modifies `txn_available, `mempool_count
      ensures Scan(txn_available, have', mempool_count)
           == ScanTx(Scan(old(txn_available), have, old(mempool_count)), map[0 := idx], 0, tx)
    {
      have' := have;
      if !have[idx] {
        txn_available := txn_available[idx := Some(tx)];
        have' := have[idx := true];
        mempool_count := mempool_count + 1;
      } else if txn_available[idx].Some? {
        txn_available := txn_available[idx := None];
        mempool_count := mempool_count - 1;
      }
    }

    /** The last loop of InitData: k is how much of the pool was looked at. */
    method ScanPool(ids: map<int, int>, pool: seq<Tx>, shortId: Tx -> int) returns (ghost k: nat)
      requires Within(ids, |txn_available|) && mempool_count == 0
      modifies `txn_available, `mempool_count
      ensures k <= |pool|
      ensures var s := ScanAll(StartScan(old(txn_available)), ids, pool[..k], shortId);
              txn_available == s.avail && mempool_count == s.count
      ensures k == |pool| || mempool_count == |ids|
    {
      ghost var start := StartScan(txn_available);
      var have := seq(|txn_available|, _ => false);
      assert pool[..0] == [];
      for i := 0 to |pool|
        invariant Scan(txn_available, have, mempool_count) == ScanAll(start, ids, pool[..i], shortId)
      {
        ScanNext(start, ids, pool, shortId, i);
        var shortid := shortId(pool[i]);
        if shortid in ids {
          have := MatchOne(ids[shortid], have, pool[i]);
        }
        if mempool_count == |ids| {
          return i + 1;
        }
      }
      return |pool|;
    }

    /**
     * InitData.  Up to 65536 transactions, success means that every slot holds what it should:
     * prefilled transactions in their slots, and in the i-th remaining slot the one pool
     * transaction that matches the i-th short id.  Beyond, slots are taken modulo 65536.
     */
    method InitData(msg: CompactBlock, pool: seq<Tx>, shortId: Tx -> int, maxTxCount: nat)
      returns (outcome: Outcome, ghost placed: seq<Option<Tx>>, ghost k: nat)
      requires txn_available == [] && mempool_count == 0
      modifies this
      ensures outcome != Returns(Invalid) <==> Acceptable(msg, maxTxCount)
      ensures outcome == Hangs <==>
        Acceptable(msg, maxTxCount) && |msg.prefilledtxn| == TWO16 && msg.shorttxids != []
      ensures outcome == Returns(StatusOk) ==>
        k <= |pool| && Placed(placed, msg, |msg.prefilledtxn|) && NoDuplicates(msg.shorttxids)
      ensures outcome == Returns(StatusOk) ==>
        Result(placed, msg.shorttxids, pool[..k], shortId) == Some((txn_available, mempool_count))
      ensures outcome == Returns(StatusOk) && BlockTxCount(msg) <= TWO16 ==>
        Ready(txn_available, placed, msg, pool[..k], shortId) && mempool_count == |msg.shorttxids| - |Free(txn_available)|
      ensures outcome == Returns(StatusOk) && k != |pool| ==> mempool_count == |msg.shorttxids|
    {
      placed, k := [], 0;
      if msg.headerNull || (msg.shorttxids == [] && msg.prefilledtxn == []) {
        return Returns(Invalid), placed, k;
      }
      if |msg.shorttxids| + |msg.prefilledtxn| > maxTxCount {
        return Returns(Invalid), placed, k;
      }
      var ok := PlacePrefilled(msg);
      if !ok {
        return Returns(Invalid), placed, k;
      }
      placed := txn_available;
      var r := MapShortIds(msg);
      if r.Endless? {
        return Hangs, placed, k;
      }
      if r.Refused? {
        return Returns(Failed), placed, k;
      }
      StoredWithin(txn_available, msg.shorttxids);
      k := ScanPool(r.ids, pool, shortId);
      if BlockTxCount(msg) <= TWO16 { ResultReady(placed, msg, pool, k, shortId); }
      return Returns(StatusOk), placed, k;
    }

    /**
     * FillBlock; checkPassed and corruptionPossible are what CheckBlock finds: whether the block passed, and
     * if not, whether it may be corrupt.
     */
    method FillBlock(missing: seq<Tx>, checkPassed: bool, corruptionPossible: bool)
      returns (status: ReadStatus, vtx: seq<Tx>)
      ensures status == Invalid <==> Fill(txn_available, missing).None?
      ensures status != Invalid ==> Fill(txn_available, missing) == Some(vtx)
      ensures status == StatusOk <==> checkPassed && status != Invalid
      ensures status == Failed ==> !checkPassed && corruptionPossible
    {
      vtx := [];
      var offset := 0;
      ghost var avail := txn_available;
      assert avail[0..] == avail && missing[0..] == missing;
      Prefix([], Fill(avail, missing));
      for i := 0 to |txn_available|
        invariant offset <= |missing| && Behind(vtx, Fill(avail[i..], missing[offset..])) == Fill(avail, missing)
      {
        FillStep(avail, i, missing, offset, vtx);
        if txn_available[i].None? {
          if |missing| <= offset {
            return Invalid, vtx;
          }
          vtx, offset := vtx + [missing[offset]], offset + 1;
        } else {
          vtx := vtx + [txn_available[i].value];
        }
      }
      if |missing| != offset {
        return Invalid, vtx;
      }
      assert vtx + [] == vtx;
      status := if checkPassed then StatusOk else if corruptionPossible then Failed else CheckBlockFailed;
    }
  }

  ghost function Behind(s: seq<Tx>, r: Option<seq<Tx>>): Option<seq<Tx>> {
    if r.None? then None else Some(s + r.value)
  }

  lemma Prefix(s: seq<Tx>, r: Option<seq<Tx>>)
    ensures Behind([], r) == r
  {
    if r.Some? { assert [] + r.value == r.value; }
  }

  lemma FillStep(avail: seq<Option<Tx>>, i: nat, missing: seq<Tx>, offset: nat, vtx: seq<Tx>)
    requires i < |avail| && offset <= |missing|
    ensures avail[i].Some? ==>
              Behind(vtx, Fill(avail[i..], missing[offset..])) ==
                Behind(vtx + [avail[i].value], Fill(avail[i + 1..], missing[offset..]))
    ensures avail[i].None? && offset < |missing| ==>
              Behind(vtx, Fill(avail[i..], missing[offset..])) ==
                Behind(vtx + [missing[offset]], Fill(avail[i + 1..], missing[offset + 1..]))
  {
    assert avail[i..][1..] == avail[i + 1..];
    if avail[i].Some? {
      BehindCons(vtx, avail[i].value, Fill(avail[i + 1..], missing[offset..]));
    } else if offset < |missing| {
      assert missing[offset..][1..] == missing[offset + 1..];
      BehindCons(vtx, missing[offset], Fill(avail[i + 1..], missing[offset + 1..]));
    }
  }

  lemma BehindCons(s: seq<Tx>, tx: Tx, r: Option<seq<Tx>>)
    ensures Behind(s, Cons(tx, r)) == Behind(s + [tx], r)
  {
    if r.Some? { assert s + ([tx] + r.value) == s + [tx] + r.value; }
  }

  /** What InitData demands of a message. */
  predicate Acceptable(msg: CompactBlock, maxTxCount: nat) {
    !msg.headerNull && 0 < BlockTxCount(msg) <= maxTxCount && Placeable(msg, |msg.prefilledtxn|)
  }

  /** What InitData leaves behind. */
  ghost predicate Ready(avail: seq<Option<Tx>>, placed: seq<Option<Tx>>, msg: CompactBlock, pool: seq<Tx>,
                        shortId: Tx -> int)
  {
    && Placed(placed, msg, |msg.prefilledtxn|) && NoDuplicates(msg.shorttxids)
    && Matched(avail, placed, Free(placed), msg.shorttxids, pool, shortId)
  }

  function LastSlot(msg: CompactBlock, i: nat): int
    requires i <= |msg.prefilledtxn|
  {
    if i == 0 then -1 else Slot(msg.prefilledtxn, i - 1)
  }

  /** The slots after i rounds of the loop that places prefilled transactions. */
  function AfterPlacing(msg: CompactBlock, i: nat): Option<seq<Option<Tx>>>
    requires i <= |msg.prefilledtxn|
  {
    if i == 0 then Some(Empty(BlockTxCount(msg)))
    else
      var before := AfterPlacing(msg, i - 1);
      var slot := Slot(msg.prefilledtxn, i - 1);
      if before.None? || !SlotOk(msg, i - 1) || !(0 <= slot < |before.value|) then None
      else Some(before.value[slot := Some(msg.prefilledtxn[i - 1].tx)])
  }

  lemma {:induction false} PlacingMeans(msg: CompactBlock, i: nat)
    requires i <= |msg.prefilledtxn|
    ensures AfterPlacing(msg, i).Some? <==> Placeable(msg, i)
    ensures Placeable(msg, i) ==> Placed(AfterPlacing(msg, i).value, msg, i)
  {
    if i == 0 {
      NothingPlaced(msg);
    } else {
      PlacingMeans(msg, i - 1);
      if Placeable(msg, i) { PlaceNext(AfterPlacing(msg, i - 1).value, msg, i); }
    }
  }

  lemma NothingPlaced(msg: CompactBlock)
    ensures Placed(Empty(BlockTxCount(msg)), msg, 0)
  {
    AllFree(BlockTxCount(msg));
  }

  /** The slot of the next transaction is within the block. */
  lemma NextSlot(msg: CompactBlock, i: nat)
    requires i < |msg.prefilledtxn| && AfterPlacing(msg, i).Some? && SlotOk(msg, i)
    ensures 0 <= Slot(msg.prefilledtxn, i) < |AfterPlacing(msg, i).value|
    ensures Slot(msg.prefilledtxn, i) == LastSlot(msg, i) + msg.prefilledtxn[i].index + 1
  {
    PlacingMeans(msg, i);
    SlotNonneg(msg.prefilledtxn, i);
  }

  lemma {:induction false} PlacingFails(msg: CompactBlock, i: nat, n: nat)
    requires i <= n <= |msg.prefilledtxn| && AfterPlacing(msg, i).None?
    ensures AfterPlacing(msg, n).None?
  {
    if i < n { PlacingFails(msg, i, n - 1); }
  }

  /** Counting from slot i + offset, the next free slot is the i-th. */
  ghost predicate Ahead(avail: seq<Option<Tx>>, i: nat, offset: nat) {
    && (0 < i <= |Free(avail)| ==> Free(avail)[i - 1] < i + offset)
    && (i < |Free(avail)| ==> i + offset <= Free(avail)[i])
  }

  lemma MappingStart(avail: seq<Option<Tx>>)
    ensures Ahead(avail, 0, 0)
  {
    FreeSlots(avail);
  }

  lemma IdMapNext(ids: seq<int>, at: seq<int>, i: nat)
    requires i < |ids| == |at|
    ensures IdMap(ids[..i + 1], at[..i + 1]) == IdMap(ids[..i], at[..i])[ids[i] := at[i]]
  {
    assert ids[..i + 1][..i] == ids[..i] && at[..i + 1][..i] == at[..i];
  }

  /** The free slot between the one before and the next is the next. */
  lemma RankOf(avail: seq<Option<Tx>>, i: nat, j: nat)
    requires i < |Free(avail)| && j < |avail| && avail[j].None? && j <= Free(avail)[i]
    requires i > 0 ==> Free(avail)[i - 1] < j
    ensures j == Free(avail)[i] && (i + 1 < |Free(avail)| ==> j < Free(avail)[i + 1])
  {
    var free := Free(avail);
    FreeSlots(avail);
    var n :| 0 <= n < |free| && free[n] == j;
    if i > 0 { AscendingOrder(free, n, i - 1); }
    AscendingOrder(free, i, n);
    if i + 1 < |free| { AscendingOrder(free, i + 1, i); }
  }

  lemma AscendingOrder(s: seq<int>, a: nat, b: nat)
    requires Ascending(s) && a < |s| && b < |s|
    ensures a < b ==> s[a] < s[b]
    ensures b < a ==> s[b] < s[a]
  {}

  lemma BeforeFirst(avail: seq<Option<Tx>>)
    requires Free(avail) != []
    ensures forall j | 0 <= j < |avail| && avail[j].None? :: Free(avail)[0] <= j
  {
    var free := Free(avail);
    FreeSlots(avail);
    forall j | 0 <= j < |avail| && avail[j].None? ensures free[0] <= j {
      var n :| 0 <= n < |free| && free[n] == j;
      AscendingOrder(free, 0, n);
    }
  }

  /** A slot taken 65535 places from slot i means that i is zero and all slots up to there are taken. */
  lemma AllTaken(avail: seq<Option<Tx>>, i: nat)
    requires i < |Free(avail)| && FilledWithin(avail) && i + MAX_INDEX <= Free(avail)[i]
    requires i + MAX_INDEX < |avail| && avail[i + MAX_INDEX].Some?
    ensures i == 0 && Free(avail)[0] > MAX_INDEX
    ensures forall j | i <= j <= i + MAX_INDEX :: j < |avail| && avail[j].Some?
  {
    var free := Free(avail);
    FreeSlots(avail);
    BeforeFirst(avail);
  }

  /** A 16-bit offset leads to every free slot. */
  ghost predicate OffsetReaches(free: seq<int>) { forall i | 0 <= i < |free| :: free[i] - i <= MAX_INDEX }

  /** No 16-bit offset leads to the first free slot. */
  ghost predicate OffsetFails(free: seq<int>) { free != [] ==> free[0] > MAX_INDEX }

  /** The offset runs out exactly when 65536 prefilled transactions come before the first short id. */
  lemma EndlessIff(avail: seq<Option<Tx>>, msg: CompactBlock)
    requires Placeable(msg, |msg.prefilledtxn|) && Placed(avail, msg, |msg.prefilledtxn|)
    ensures |Free(avail)| == |msg.shorttxids| && FilledWithin(avail)
    ensures if |msg.prefilledtxn| == TWO16 then OffsetFails(Free(avail)) else OffsetReaches(Free(avail))
  {
    PlacedWithin(avail, msg);
    if |msg.prefilledtxn| == TWO16 {
      if msg.shorttxids != [] { FullPrefix(avail, msg); }
    } else {
      forall i | 0 <= i < |Free(avail)| ensures Free(avail)[i] - i <= MAX_INDEX { FreeRank(avail, i); }
    }
  }

  lemma FullPrefix(avail: seq<Option<Tx>>, msg: CompactBlock)
    requires Placeable(msg, |msg.prefilledtxn|) && Placed(avail, msg, |msg.prefilledtxn|)
    requires |msg.prefilledtxn| == TWO16 && msg.shorttxids != []
    ensures Free(avail) != [] && Free(avail)[0] > MAX_INDEX
  {
    var p := msg.prefilledtxn;
    FreeSlots(avail);
    PlaceableSlots(msg, |p|, MAX_INDEX);
    forall j | 0 <= j <= MAX_INDEX ensures avail[j].Some? {
      SlotNonneg(p, j);
      SlotGap(p, j, MAX_INDEX);
      assert Slots(p)[j] == j;
    }
  }

  lemma {:induction false} SlotGap(p: seq<Prefilled>, i: nat, j: nat)
    requires i <= j < |p|
    ensures Slot(p, i) + (j - i) <= Slot(p, j)
  {
    if i < j { SlotGap(p, i, j - 1); }
  }

  /** The slots and the count after a scan of the given part of the pool. */
  ghost function Result(placed: seq<Option<Tx>>, ids: seq<int>, pool: seq<Tx>,
                        shortId: Tx -> int): Option<(seq<Option<Tx>>, int)>
  {
    if |ids| != |Free(placed)| then None
    else
      StoredWithin(placed, ids);
      var s := ScanAll(StartScan(placed), IdMap(ids, Stored(Free(placed))), pool, shortId);
      Some((s.avail, s.count))
  }

  lemma ResultReady(placed: seq<Option<Tx>>, msg: CompactBlock, pool: seq<Tx>, k: nat, shortId: Tx -> int)
    requires k <= |pool| && Placeable(msg, |msg.prefilledtxn|) && Placed(placed, msg, |msg.prefilledtxn|)
    requires NoDuplicates(msg.shorttxids) && BlockTxCount(msg) <= TWO16
    ensures var r := Result(placed, msg.shorttxids, pool[..k], shortId);
            && r.Some? && Ready(r.value.0, placed, msg, pool[..k], shortId)
            && r.value.1 == |msg.shorttxids| - |Free(r.value.0)|
  {
    var ids, free := msg.shorttxids, Free(placed);
    StoredIff(msg, placed);
    StoredWithin(placed, ids);
    IdMapMeans(ids, free);
    ScanMatches(placed, ids, IdMap(ids, free), pool, k, shortId);
  }

  // ----- a relayed block comes back -----

  /** No pool transaction shares a short id with another transaction of the block. */
  ghost predicate Honest(vtx: seq<Tx>, pool: seq<Tx>, shortId: Tx -> int) {
    forall tx, i | tx in pool && 1 <= i < |vtx| && shortId(tx) == shortId(vtx[i]) :: tx == vtx[i]
  }

  /** Where exactly one pool transaction matches a short id it is the one meant. */
  ghost predicate Unambiguous(vtx: seq<Tx>, pool: seq<Tx>, shortId: Tx -> int) {
    forall i | 1 <= i < |vtx| :: Match(pool, shortId, shortId(vtx[i])) in {None, Some(vtx[i])}
  }

  lemma HonestUnambiguous(vtx: seq<Tx>, pool: seq<Tx>, shortId: Tx -> int)
    requires Honest(vtx, pool, shortId)
    ensures Unambiguous(vtx, pool, shortId)
  {
    forall i | 1 <= i < |vtx| ensures Match(pool, shortId, shortId(vtx[i])) in {None, Some(vtx[i])} {
      var hits := Hits(pool, shortId, shortId(vtx[i]));
      if |hits| == 1 { assert hits[0] in pool; }
    }
  }

  /** In the compact form of a block the coinbase is in slot 0 and all other slots are free. */
  lemma CompactSlots(vtx: seq<Tx>, shortId: Tx -> int, placed: seq<Option<Tx>>)
    requires vtx != [] && Placed(placed, Compact(vtx, shortId), 1)
    ensures |placed| == |vtx| && placed[0] == Some(vtx[0]) && forall j | 1 <= j < |placed| :: placed[j].None?
  {
    var p := Compact(vtx, shortId).prefilledtxn;
    assert Slots(p)[0] == 0 && Slots(p)[..1] == [0];
  }

  lemma {:induction false} FreeFromOne(placed: seq<Option<Tx>>)
    requires placed != [] && placed[0].Some? && forall j | 1 <= j < |placed| :: placed[j].None?
    ensures |Free(placed)| == |placed| - 1 && forall i | 0 <= i < |placed| - 1 :: Free(placed)[i] == i + 1
  {
    var n := |placed| - 1;
    if n > 0 { FreeFromOne(placed[..n]); } else { assert placed[..0] == []; }
  }

  /** What InitData found in the pool agrees with the block that was sent exactly when no match misleads. */
  lemma ReadyAgrees(vtx: seq<Tx>, shortId: Tx -> int, avail: seq<Option<Tx>>, placed: seq<Option<Tx>>, pool: seq<Tx>)
    requires vtx != [] && Ready(avail, placed, Compact(vtx, shortId), pool, shortId)
    ensures |avail| == |vtx| && (Agrees(avail, vtx) <==> Unambiguous(vtx, pool, shortId))
  {
    var ids := Compact(vtx, shortId).shorttxids;
    CompactSlots(vtx, shortId, placed);
    FreeFromOne(placed);
    forall j | 1 <= j < |avail| ensures avail[j] == Match(pool, shortId, shortId(vtx[j])) {
      assert Free(placed)[j - 1] == j && ids[j - 1] == shortId(vtx[j]);
    }
    if Agrees(avail, vtx) {
      forall i | 1 <= i < |vtx| ensures Match(pool, shortId, shortId(vtx[i])) in {None, Some(vtx[i])} {
        assert avail[i] == Match(pool, shortId, shortId(vtx[i]));
      }
    }
    if Unambiguous(vtx, pool, shortId) {
      forall j | 0 <= j < |avail| && avail[j].Some? ensures avail[j].value == vtx[j] {
        if j > 0 { assert Match(pool, shortId, shortId(vtx[j])) in {None, Some(vtx[j])}; }
      }
    }
  }

  /** The block is rebuilt exactly when no match misleads and the transactions supplied are those missing. */
  lemma CompactRoundTrip(vtx: seq<Tx>, shortId: Tx -> int, avail: seq<Option<Tx>>, placed: seq<Option<Tx>>,
                         pool: seq<Tx>, missing: seq<Tx>)
    requires vtx != [] && Ready(avail, placed, Compact(vtx, shortId), pool, shortId)
    ensures |avail| == |vtx|
    ensures Fill(avail, missing) == Some(vtx) <==> Unambiguous(vtx, pool, shortId) && missing == Missing(avail, vtx)
  {
    ReadyAgrees(vtx, shortId, avail, placed, pool);
    FillIff(avail, missing, vtx);
  }

  /** The slots of a compact block once the coinbase is placed. */
  ghost function PlacedCoinbase(vtx: seq<Tx>): seq<Option<Tx>>
    requires vtx != []
  {
    [Some(vtx[0])] + Empty(|vtx| - 1)
  }

  lemma CoinbasePlaced(vtx: seq<Tx>, shortId: Tx -> int)
    requires vtx != []
    ensures Placed(PlacedCoinbase(vtx), Compact(vtx, shortId), 1)
    ensures |Free(PlacedCoinbase(vtx))| == |vtx| - 1
    ensures forall i | 0 <= i < |vtx| - 1 :: Free(PlacedCoinbase(vtx))[i] == i + 1
  {
    var placed, p := PlacedCoinbase(vtx), Compact(vtx, shortId).prefilledtxn;
    FreeFromOne(placed);
    assert Slots(p)[0] == 0 && Slots(p)[..1] == [0];
  }

  /** The slots after relaying vtx to a node that has looked at the given part of its pool. */
  ghost function Relayed(vtx: seq<Tx>, pool: seq<Tx>, shortId: Tx -> int): (avail: seq<Option<Tx>>)
    requires vtx != []
    ensures |avail| == |vtx|
  {
    CoinbasePlaced(vtx, shortId);
    Result(PlacedCoinbase(vtx), Compact(vtx, shortId).shorttxids, pool, shortId).value.0
  }

  ghost predicate DistinctIds(vtx: seq<Tx>, shortId: Tx -> int) {
    forall i, j | 1 <= i < j < |vtx| :: shortId(vtx[i]) != shortId(vtx[j])
  }

  /**
   * A block of at least 65537 transactions, relayed to a node whose pool holds just transaction 65536:
   * that transaction takes the place of the coinbase, and nothing that is supplied rebuilds the block.
   */
  lemma RelayOverwrites(vtx: seq<Tx>, shortId: Tx -> int, missing: seq<Tx>)
    requires |vtx| > TWO16 && DistinctIds(vtx, shortId) && vtx[TWO16] != vtx[0]
    ensures Honest(vtx, [vtx[TWO16]], shortId)
    ensures var avail := Relayed(vtx, [vtx[TWO16]], shortId);
            avail[0] == Some(vtx[TWO16]) && Fill(avail, missing) != Some(vtx)
  {
    var tx, placed, ids := vtx[TWO16], PlacedCoinbase(vtx), Compact(vtx, shortId).shorttxids;
    CoinbasePlaced(vtx, shortId);
    var at := Stored(Free(placed));
    StoredWithin(placed, ids);
    forall i, j | 0 <= i < j < |ids| ensures ids[i] != ids[j] { assert shortId(vtx[i + 1]) != shortId(vtx[j + 1]); }
    IdMapMeans(ids, at);
    assert ids[MAX_INDEX] == shortId(tx) && at[MAX_INDEX] == 0;
    ScanOne(StartScan(placed), IdMap(ids, at), tx, shortId);
    var avail := Relayed(vtx, [tx], shortId);
    assert avail[0] == Some(tx);
    FillIff(avail, missing, vtx);
  }

  lemma ScanOne(s: Scan, ids: map<int, int>, tx: Tx, shortId: Tx -> int)
    requires |s.have| == |s.avail| && Within(ids, |s.avail|)
    ensures ScanAll(s, ids, [tx], shortId) == ScanTx(s, ids, shortId(tx), tx)
  {
    assert [tx][..0] == [];
  }

  /** Relaying a block works for every honest pool exactly when the block has at most 65536 transactions. */
  lemma RelayIff(vtx: seq<Tx>, shortId: Tx -> int)
    requires vtx != [] && DistinctIds(vtx, shortId) && (|vtx| > TWO16 ==> vtx[TWO16] != vtx[0])
    ensures (forall pool | Honest(vtx, pool, shortId) :: Agrees(Relayed(vtx, pool, shortId), vtx)) <==> |vtx| <= TWO16
  {
    if |vtx| <= TWO16 {
      forall pool | Honest(vtx, pool, shortId) ensures Agrees(Relayed(vtx, pool, shortId), vtx) {
        RelayAgrees(vtx, pool, shortId);
      }
    } else {
      RelayOverwrites(vtx, shortId, []);
      assert !Agrees(Relayed(vtx, [vtx[TWO16]], shortId), vtx);
    }
  }

  lemma RelayAgrees(vtx: seq<Tx>, pool: seq<Tx>, shortId: Tx -> int)
    requires 0 < |vtx| <= TWO16 && DistinctIds(vtx, shortId) && Honest(vtx, pool, shortId)
    ensures Agrees(Relayed(vtx, pool, shortId), vtx)
  {
    var msg, placed := Compact(vtx, shortId), PlacedCoinbase(vtx);
    CoinbasePlaced(vtx, shortId);
    CompactPlaceable(vtx, shortId);
    forall i, j | 0 <= i < j < |msg.shorttxids| ensures msg.shorttxids[i] != msg.shorttxids[j] {
      assert shortId(vtx[i + 1]) != shortId(vtx[j + 1]);
    }
    assert pool[..|pool|] == pool;
    ResultReady(placed, msg, pool, |pool|, shortId);
    HonestUnambiguous(vtx, pool, shortId);
    ReadyAgrees(vtx, shortId, Relayed(vtx, pool, shortId), placed, pool);
  }

  /** The compact form of a block is never rejected as invalid for its prefilled part. */
  lemma CompactPlaceable(vtx: seq<Tx>, shortId: Tx -> int)
    requires vtx != []
    ensures Placeable(Compact(vtx, shortId), 1) && BlockTxCount(Compact(vtx, shortId)) == |vtx|
  {
    assert SlotOk(Compact(vtx, shortId), 0);
  }

  /** MAX_BLOCK_BASE_SIZE / MIN_TRANSACTION_BASE_SIZE: an empty transaction takes ten bytes. */
  const MAX_TX_COUNT := 200_000

  /** 65536 prefilled transactions in a row, then one short id. */
  const HANGING := CompactBlock(false, [0], seq(TWO16, _ => Prefilled(0, false, Tx(0))))

  /** The message is accepted, so InitData never returns. */
  lemma HangingMessage()
    ensures Acceptable(HANGING, MAX_TX_COUNT) && |HANGING.prefilledtxn| == TWO16 && HANGING.shorttxids != []
  {
    HangingPlaceable(TWO16);
  }

  lemma {:induction false} HangingSlot(i: nat)
    requires i < TWO16
    ensures Slot(HANGING.prefilledtxn, i) == i
  {
    if i > 0 { HangingSlot(i - 1); }
  }

  lemma {:induction false} HangingPlaceable(n: nat)
    requires n <= TWO16
    ensures Placeable(HANGING, n)
  {
    if n > 0 {
      HangingPlaceable(n - 1);
      HangingSlot(n - 1);
    }
  }

  /** A block goes out in compact form, and the receiver is given the transactions it lacks. */
  method Relay(vtx: seq<Tx>, pool: seq<Tx>, shortId: Tx -> int, checkPassed: bool, corruptionPossible: bool)
    returns (outcome: Outcome, block: seq<Tx>)
    requires vtx != []
    ensures outcome == Returns(StatusOk) && |vtx| <= TWO16 && Honest(vtx, pool, shortId) ==> block == vtx
    ensures outcome == Returns(StatusOk) ==> checkPassed && |block| == |vtx|
    ensures outcome != Hangs && (outcome == Returns(Invalid) ==> |vtx| > MAX_TX_COUNT)
  {
    var b := new PartiallyDownloadedBlock();
    CompactPlaceable(vtx, shortId);
    ghost var placed, k;
    outcome, placed, k := b.InitData(Compact(vtx, shortId), pool, shortId, MAX_TX_COUNT);
    block := [];
    if outcome == Returns(StatusOk) {
      var status;
      var missing := Missing(b.txn_available, vtx);
      MissingFits(b.txn_available, vtx);
      status, block := b.FillBlock(missing, checkPassed, corruptionPossible);
      outcome := Returns(status);
      if |vtx| <= TWO16 && Honest(vtx, pool, shortId) {
        HonestUnambiguous(vtx, pool[..k], shortId);
        CompactRoundTrip(vtx, shortId, b.txn_available, placed, pool[..k], missing);
      }
    }
  }

  /** Supplying what is missing always fills every slot. */
  lemma {:induction false} MissingFits(avail: seq<Option<Tx>>, vtx: seq<Tx>)
    requires |avail| == |vtx|
    ensures var r := Fill(avail, Missing(avail, vtx)); r.Some? && |r.value| == |vtx|
  {
    if avail != [] {
      MissingFits(avail[1..], vtx[1..]);
      if avail[0].None? {
        assert Missing(avail, vtx)[1..] == Missing(avail[1..], vtx[1..]);
      } else {
        assert Missing(avail, vtx) == Missing(avail[1..], vtx[1..]);
      }
    }
  }
}
