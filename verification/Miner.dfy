/**
 * Block assembly: the selection loop and the coinbase of BlockAssembler::CreateNewBlock in
 * src/miner.cpp.  Which of several queued transactions comes first (priority and score order)
 * and the free-transaction priority test are left open: every choice is allowed.
 */
module Miner {
  import opened Arithmetic
  import Amounts

  const COIN := Amounts.COIN
  const MAX_BLOCK_SERIALIZED_SIZE := 2_000_000
  const MAX_BLOCK_SIGOPS_COST := 400_000

  /** A mempool entry; parents are the positions of its in-pool parents. */
  datatype Entry = Entry(
    txSize: nat, serializedSize: nat, sigOpCost: nat, legacySigOps: nat, fee: int, parents: set<nat>,
    coinBase: bool, isFinal: bool,
    sigmaMint: bool, sigmaSpend: bool, zerocoinMint: bool, zerocoinSpend: bool, zerocoinRemint: bool,
    inputs: nat, spendAmount: int)

  datatype Config = Config(
    pool: seq<Entry>, scoreOrder: seq<nat>, txIds: set<nat>,
    blockMaxSize: nat, blockPrioritySize: nat,
    regtest: bool, surge: bool, sigmaSpork: bool,
    maxSigmaInputPerTransaction: nat, maxValueSigmaSpendPerTransaction: int,
    maxSigmaInputPerBlock: nat, maxValueSigmaSpendPerBlock: int)

  predicate Ok(cfg: Config) {
    forall i | 0 <= i < |cfg.scoreOrder| :: cfg.scoreOrder[i] < |cfg.pool|
  }

  /** Between 1000 and MAX_BLOCK_SERIALIZED_SIZE - 1000. */
  function SizeLimit(cfg: Config): int { Max(1000, Min(MAX_BLOCK_SERIALIZED_SIZE - 1000, cfg.blockMaxSize)) }
  function PriorityLimit(cfg: Config): int { Min(SizeLimit(cfg), cfg.blockPrioritySize) }

  /** Spends that the per-block Sigma limits apply to. */
  predicate Limited(e: Entry) { e.sigmaSpend || e.zerocoinRemint }

  /** The checks that look at one transaction only. */
  predicate Admissible(cfg: Config, e: Entry) {
    && !e.coinBase && e.isFinal
    && ((e.sigmaMint || e.sigmaSpend) ==> !cfg.surge && !cfg.sigmaSpork)
    && ((e.zerocoinSpend || e.zerocoinMint) ==> cfg.regtest)
  }

  predicate Requested(cfg: Config, tx: nat) { cfg.txIds == {} || tx in cfg.txIds }

  // ----- what a block adds up to -----

  datatype Tally = Tally(bytes: int, sigOps: int, sigmaOps: int, fees: int, sigmaInputs: int, sigmaValue: int)

  function Weight(e: Entry): Tally {
    if Limited(e) then Tally(e.serializedSize, 0, e.legacySigOps, e.fee, e.inputs, e.spendAmount)
    else Tally(e.txSize, e.sigOpCost, 0, e.fee, 0, 0)
  }

  function Add(a: Tally, b: Tally): Tally {
    Tally(a.bytes + b.bytes, a.sigOps + b.sigOps, a.sigmaOps + b.sigmaOps,
          a.fees + b.fees, a.sigmaInputs + b.sigmaInputs, a.sigmaValue + b.sigmaValue)
  }

  predicate InPool(cfg: Config, block: seq<nat>) { forall i | 0 <= i < |block| :: block[i] < |cfg.pool| }

  function TallyOf(cfg: Config, block: seq<nat>): Tally
    requires InPool(cfg, block)
  {
    if block == [] then Tally(0, 0, 0, 0, 0, 0)
    else Add(TallyOf(cfg, block[..|block| - 1]), Weight(cfg.pool[block[|block| - 1]]))
  }

  function Sum(s: seq<int>): int { if s == [] then 0 else Sum(s[..|s| - 1]) + s[|s| - 1] }

  lemma {:induction false} SumConcat(s: seq<int>, t: seq<int>)
    ensures Sum(s + t) == Sum(s) + Sum(t)
  {
    if t == [] {
      assert s + t == s;
    } else {
      assert (s + t)[..|s + t| - 1] == s + t[..|t| - 1];
      SumConcat(s, t[..|t| - 1]);
    }
  }

  // ----- the block under construction -----

  /** The block so far (without the coinbase) and the running totals of the loop. */
  datatype Block = Block(
    vtx: seq<nat>, vTxFees: seq<int>, vTxSigOpsCost: seq<int>, inBlock: set<nat>,
    nBlockSize: int, nBlockTx: int, nBlockSigOps: int, nBlockSigOpsCost: int, nFees: int,
    nSigmaSpend: int, nValueSigmaSpend: int)

  const EMPTY := Block([], [-1], [-1], {}, 1500, 0, 100, 100, 0, 0, 0)

  predicate Distinct(s: seq<nat>) { forall i, j | 0 <= i < j < |s| :: s[i] != s[j] }

  /** Every in-pool parent comes before its child. */
  predicate ParentsFirst(cfg: Config, s: seq<nat>)
    requires InPool(cfg, s)
  {
    forall i, p | 0 <= i < |s| && p in cfg.pool[s[i]].parents :: p in s[..i]
  }

  predicate Selected(cfg: Config, s: seq<nat>)
    requires InPool(cfg, s)
  {
    forall i | 0 <= i < |s| ::
      Admissible(cfg, cfg.pool[s[i]]) && Requested(cfg, s[i]) && WithinTransactionLimits(cfg, cfg.pool[s[i]])
  }

  predicate WithinTransactionLimits(cfg: Config, e: Entry) {
    Limited(e) ==> e.inputs <= cfg.maxSigmaInputPerTransaction && e.spendAmount <= cfg.maxValueSigmaSpendPerTransaction
  }

  /** The running totals are those of the block. */
  predicate Counted(cfg: Config, b: Block)
    requires InPool(cfg, b.vtx)
  {
    && TallyOf(cfg, b.vtx) == Tally(b.nBlockSize - 1500, b.nBlockSigOps - 100, b.nBlockSigOpsCost - 100,
                                    b.nFees, b.nSigmaSpend, b.nValueSigmaSpend)
    && b.nBlockTx == |b.vtx| && |b.vTxFees| == |b.vTxSigOpsCost| == |b.vtx| + 1
    && Sum(b.vTxFees[1..]) == b.nFees
    && forall i | 0 <= i < |b.vtx| :: b.vTxFees[i + 1] == cfg.pool[b.vtx[i]].fee
  }

  /** No limit is exceeded; a block to which nothing was added is under no size limit. */
  predicate Within(cfg: Config, b: Block) {
    && (b.vtx != [] ==> b.nBlockSize < SizeLimit(cfg))
    && b.nBlockSigOps < MAX_BLOCK_SIGOPS_COST && b.nBlockSigOpsCost < MAX_BLOCK_SIGOPS_COST
    && (b.nSigmaSpend == 0 || b.nSigmaSpend <= cfg.maxSigmaInputPerBlock)
    && (b.nValueSigmaSpend == 0 || b.nValueSigmaSpend <= cfg.maxValueSigmaSpendPerBlock)
  }

  ghost predicate Inv(cfg: Config, b: Block) {
    && InPool(cfg, b.vtx) && Distinct(b.vtx) && ParentsFirst(cfg, b.vtx) && Selected(cfg, b.vtx)
    && (forall tx :: tx in b.inBlock <==> tx in b.vtx)
    && Counted(cfg, b) && Within(cfg, b)
  }

  /** What both branches do when a transaction goes in. */
  function Push(cfg: Config, b: Block, tx: nat): Block
    requires tx < |cfg.pool|
  {
    var e, w := cfg.pool[tx], Weight(cfg.pool[tx]);
    b.(vtx := b.vtx + [tx], vTxFees := b.vTxFees + [e.fee],
       vTxSigOpsCost := b.vTxSigOpsCost + [w.sigOps + w.sigmaOps], inBlock := b.inBlock + {tx},
       nBlockSize := b.nBlockSize + w.bytes, nBlockTx := b.nBlockTx + 1,
       nBlockSigOps := b.nBlockSigOps + w.sigOps, nBlockSigOpsCost := b.nBlockSigOpsCost + w.sigmaOps,
       nFees := b.nFees + e.fee, nSigmaSpend := b.nSigmaSpend + w.sigmaInputs,
       nValueSigmaSpend := b.nValueSigmaSpend + w.sigmaValue)
  }

  /** What the loop has checked when it adds tx. */
  predicate Fits(cfg: Config, b: Block, tx: nat)
    requires tx < |cfg.pool|
  {
    var e := cfg.pool[tx];
    && tx !in b.inBlock && Requested(cfg, tx) && e.parents <= b.inBlock && Admissible(cfg, e)
    && (if Limited(e) then SpendFits(cfg, b, e)
        else b.nBlockSize + e.txSize < SizeLimit(cfg) && b.nBlockSigOps + e.sigOpCost < MAX_BLOCK_SIGOPS_COST)
  }

  predicate SpendFits(cfg: Config, b: Block, e: Entry) {
    && e.inputs <= cfg.maxSigmaInputPerTransaction && e.spendAmount <= cfg.maxValueSigmaSpendPerTransaction
    && e.inputs + b.nSigmaSpend <= cfg.maxSigmaInputPerBlock
    && e.spendAmount + b.nValueSigmaSpend <= cfg.maxValueSigmaSpendPerBlock
    && b.nBlockSize + e.serializedSize < SizeLimit(cfg)
    && b.nBlockSigOpsCost + e.legacySigOps < MAX_BLOCK_SIGOPS_COST
  }

  lemma PushKeepsOrder(cfg: Config, b: Block, tx: nat)
    requires Inv(cfg, b) && tx < |cfg.pool| && Fits(cfg, b, tx)
    ensures var s := b.vtx + [tx];
            InPool(cfg, s) && Distinct(s) && ParentsFirst(cfg, s) && Selected(cfg, s)
  {
    var s, n := b.vtx + [tx], |b.vtx|;
    forall i, p | 0 <= i < |s| && p in cfg.pool[s[i]].parents ensures p in s[..i] {
      if i < n {
        assert p in b.vtx[..i];
        assert s[..i] == b.vtx[..i];
      } else {
        assert p in b.inBlock;
        assert s[..n] == b.vtx;
      }
    }
  }

  lemma PushKeepsCount(cfg: Config, b: Block, tx: nat)
    requires InPool(cfg, b.vtx) && Counted(cfg, b) && tx < |cfg.pool|
    ensures InPool(cfg, Push(cfg, b, tx).vtx) && Counted(cfg, Push(cfg, b, tx))
  {
    var b' := Push(cfg, b, tx);
    assert b'.vtx[..|b'.vtx| - 1] == b.vtx;
    assert b'.vTxFees[1..] == b.vTxFees[1..] + [cfg.pool[tx].fee];
    SumConcat(b.vTxFees[1..], [cfg.pool[tx].fee]);
    assert Sum([cfg.pool[tx].fee]) == cfg.pool[tx].fee;
  }

  lemma PushKeepsLimits(cfg: Config, b: Block, tx: nat)
    requires Within(cfg, b) && tx < |cfg.pool| && Fits(cfg, b, tx)
    ensures Within(cfg, Push(cfg, b, tx))
  {}

  lemma PushKeepsInv(cfg: Config, b: Block, tx: nat)
    requires Inv(cfg, b) && tx < |cfg.pool| && Fits(cfg, b, tx)
    ensures Inv(cfg, Push(cfg, b, tx))
  {
    PushKeepsOrder(cfg, b, tx);
    PushKeepsCount(cfg, b, tx);
    PushKeepsLimits(cfg, b, tx);
  }

  // ----- signature operations are counted twice over -----

  function Without(s: seq<nat>, k: nat): seq<nat>
    requires k < |s|
  {
    s[..k] + s[k + 1..]
  }

  lemma TallyPush(cfg: Config, s: seq<nat>, x: nat)
    requires InPool(cfg, s) && x < |cfg.pool|
    ensures TallyOf(cfg, s + [x]) == Add(TallyOf(cfg, s), Weight(cfg.pool[x]))
  {
    assert (s + [x])[..|s|] == s;
  }

  lemma {:induction false} TallyWithout(cfg: Config, s: seq<nat>, k: nat)
    requires InPool(cfg, s) && k < |s|
    ensures InPool(cfg, Without(s, k)) && TallyOf(cfg, s) == Add(TallyOf(cfg, Without(s, k)), Weight(cfg.pool[s[k]]))
  {
    var m, x := s[..|s| - 1], s[|s| - 1];
    if k == |m| {
      assert Without(s, k) == m;
    } else {
      assert Without(s, k) == Without(m, k) + [x];
      TallyWithout(cfg, m, k);
      TallyPush(cfg, Without(m, k), x);
    }
  }

  /** What the first n entries of the pool add up to. */
  function PoolTally(cfg: Config, n: nat): (t: Tally)
    requires n <= |cfg.pool|
    ensures t.sigOps >= 0 && t.sigmaOps >= 0
  {
    if n == 0 then Tally(0, 0, 0, 0, 0, 0) else Add(PoolTally(cfg, n - 1), Weight(cfg.pool[n - 1]))
  }

  /** A block without repetitions has no more signature operations of either kind than the pool. */
  lemma {:induction false} PoolBounds(cfg: Config, s: seq<nat>, n: nat)
    requires n <= |cfg.pool| && Distinct(s) && forall i | 0 <= i < |s| :: s[i] < n
    ensures InPool(cfg, s)
    ensures TallyOf(cfg, s).sigOps <= PoolTally(cfg, n).sigOps && TallyOf(cfg, s).sigmaOps <= PoolTally(cfg, n).sigmaOps
  {
    if n == 0 {
      assert s == [];
    } else if k: nat :| k < |s| && s[k] == n - 1 {
      TallyWithout(cfg, s, k);
      PoolBounds(cfg, Without(s, k), n - 1);
    } else {
      PoolBounds(cfg, s, n - 1);
    }
  }

  const SIGOPS_LEFT := MAX_BLOCK_SIGOPS_COST - 100

  function BothSigOps(cfg: Config, s: seq<nat>): int
    requires InPool(cfg, s)
  {
    TallyOf(cfg, s).sigOps + TallyOf(cfg, s).sigmaOps
  }

  /**
   * Capped at what one counter admits, the pool's ordinary signature operations and those of its
   * limited spends together stay below the limit; so it is when the pool has only one kind.
   */
  predicate Moderate(cfg: Config) {
    var t := PoolTally(cfg, |cfg.pool|);
    Min(t.sigOps, SIGOPS_LEFT - 1) + Min(t.sigmaOps, SIGOPS_LEFT - 1) < SIGOPS_LEFT
  }

  lemma SigOpsBound(cfg: Config, b: Block)
    requires Inv(cfg, b)
    ensures BothSigOps(cfg, b.vtx) < 2 * SIGOPS_LEFT
    ensures Moderate(cfg) ==> BothSigOps(cfg, b.vtx) < SIGOPS_LEFT
  {
    PoolBounds(cfg, b.vtx, |cfg.pool|);
  }

  /**
   * The two kinds have separate counters: an ordinary transaction and a limited spend that each
   * pass alone pass together, and stay below the limit exactly when their sum does.
   */
  lemma SigOpsAddUp(cfg: Config, tx: nat, spend: nat)
    requires tx < |cfg.pool| && spend < |cfg.pool| && Fits(cfg, EMPTY, tx) && Fits(cfg, EMPTY, spend)
    requires !Limited(cfg.pool[tx]) && Limited(cfg.pool[spend])
    requires 1500 + cfg.pool[tx].txSize + cfg.pool[spend].serializedSize < SizeLimit(cfg)
    ensures Fits(cfg, Push(cfg, EMPTY, tx), spend)
    ensures var b := Push(cfg, Push(cfg, EMPTY, tx), spend);
            Inv(cfg, b) && BothSigOps(cfg, b.vtx) == cfg.pool[tx].sigOpCost + cfg.pool[spend].legacySigOps
  {
    PushKeepsInv(cfg, EMPTY, tx);
    PushKeepsInv(cfg, Push(cfg, EMPTY, tx), spend);
  }

  const HEAVY := Entry(25_000, 25_000, 399_000, 0, 0, {}, false, true, false, false, false, false, false, 1, 0)
  const HEAVY_SPEND := Entry(25_000, 25_000, 0, 399_000, 0, {}, false, true, false, true, false, false, false, 1, 1)
  const HEAVY_CONFIG :=
    Config([HEAVY, HEAVY_SPEND], [0, 1], {}, 1_000_000, 0, false, false, false, 10, 10, 10, 10)

  /** A pool of two entries whose block passes every check with nearly twice the limit. */
  lemma SigOpsExceed()
    ensures Inv(HEAVY_CONFIG, Push(HEAVY_CONFIG, Push(HEAVY_CONFIG, EMPTY, 0), 1))
    ensures var b := Push(HEAVY_CONFIG, Push(HEAVY_CONFIG, EMPTY, 0), 1);
            b.vtx == [0, 1] && BothSigOps(HEAVY_CONFIG, b.vtx) == 798_000 > MAX_BLOCK_SIGOPS_COST
  {
    SigOpsAddUp(HEAVY_CONFIG, 0, 1);
  }

  // ----- candidates -----

  /** The two queues, the two wait sets, and the position in score order. */
  datatype Queues = Queues(
    vecPriority: seq<nat>, clearedTxs: seq<nat>, mi: nat,
    waitPriMap: set<nat>, waitSet: set<nat>, fPriorityBlock: bool, lastFewTxs: nat)

  predicate Known(cfg: Config, q: Queues) {
    && q.mi <= |cfg.scoreOrder|
    && (forall i | 0 <= i < |q.vecPriority| :: q.vecPriority[i] < |cfg.pool|)
    && (forall i | 0 <= i < |q.clearedTxs| :: q.clearedTxs[i] < |cfg.pool|)
    && (forall tx | tx in q.waitPriMap :: tx < |cfg.pool|) && (forall tx | tx in q.waitSet :: tx < |cfg.pool|)
  }

  /** How many candidates the loop can still draw without another transaction entering the block. */
  function Pending(cfg: Config, q: Queues): int { |q.vecPriority| + |cfg.scoreOrder| - q.mi + |q.clearedTxs| }

  /** t is s with one occurrence of tx taken out. */
  ghost predicate Drawn(s: seq<nat>, tx: nat, t: seq<nat>) {
    exists k: nat :: k < |s| && s[k] == tx && t == Without(s, k)
  }

  /** The next candidate: from the priority queue, in score order, or a released child. */
  method NextCandidate(cfg: Config, q: Queues) returns (tx: nat, priorityTx: bool, q': Queues)
    requires Ok(cfg) && Known(cfg, q) && (q.mi < |cfg.scoreOrder| || q.clearedTxs != [])
    ensures tx < |cfg.pool| && Known(cfg, q') && Pending(cfg, q') == Pending(cfg, q) - 1
    ensures priorityTx <==> q.fPriorityBlock && q.vecPriority != []
    ensures q' == q.(vecPriority := q'.vecPriority, clearedTxs := q'.clearedTxs, mi := q'.mi)
    ensures if priorityTx then
              q'.clearedTxs == q.clearedTxs && q'.mi == q.mi && Drawn(q.vecPriority, tx, q'.vecPriority)
            else if q.clearedTxs == [] then
              q'.vecPriority == q.vecPriority && q'.clearedTxs == [] && tx == cfg.scoreOrder[q.mi] && q'.mi == q.mi + 1
            else
              q'.vecPriority == q.vecPriority && q'.mi == q.mi && Drawn(q.clearedTxs, tx, q'.clearedTxs)
  {
    priorityTx := q.fPriorityBlock && q.vecPriority != [];
    if priorityTx {
      var k: nat :| k < |q.vecPriority|;
      tx, q' := q.vecPriority[k], q.(vecPriority := Without(q.vecPriority, k));
    } else if q.clearedTxs == [] {
      tx, q' := cfg.scoreOrder[q.mi], q.(mi := q.mi + 1);
    } else {
      var k: nat :| k < |q.clearedTxs|;
      tx, q' := q.clearedTxs[k], q.(clearedTxs := Without(q.clearedTxs, k));
    }
  }

  function Postpone(q: Queues, tx: nat, priorityTx: bool): Queues {
    if priorityTx then q.(waitPriMap := q.waitPriMap + {tx}) else q.(waitSet := q.waitSet + {tx})
  }

  function Children(cfg: Config, tx: nat, n: nat): set<nat>
    requires n <= |cfg.pool|
  {
    if n == 0 then {}
    else Children(cfg, tx, n - 1) + if tx in cfg.pool[n - 1].parents then {n - 1} else {}
  }

  /** The children of tx below n that wait in w. */
  function Waiting(cfg: Config, w: set<nat>, tx: nat, n: nat): seq<nat>
    requires n <= |cfg.pool|
  {
    if n == 0 then []
    else Waiting(cfg, w, tx, n - 1) + if tx in cfg.pool[n - 1].parents && n - 1 in w then [n - 1] else []
  }

  /** The children of tx below n leave their wait set and become candidates. */
  function Released(cfg: Config, q: Queues, tx: nat, n: nat): Queues
    requires n <= |cfg.pool|
  {
    if q.fPriorityBlock then
      q.(vecPriority := q.vecPriority + Waiting(cfg, q.waitPriMap, tx, n),
         waitPriMap := q.waitPriMap - Children(cfg, tx, n))
    else
      q.(clearedTxs := q.clearedTxs + Waiting(cfg, q.waitSet, tx, n), waitSet := q.waitSet - Children(cfg, tx, n))
  }

  lemma {:induction false} ChildrenBelow(cfg: Config, tx: nat, n: nat)
    requires n <= |cfg.pool|
    ensures forall c | c in Children(cfg, tx, n) :: c < n && tx in cfg.pool[c].parents
    ensures forall c: nat | c < n && tx in cfg.pool[c].parents :: c in Children(cfg, tx, n)
  {
    if n > 0 { ChildrenBelow(cfg, tx, n - 1); }
  }

  lemma ReleasedStep(cfg: Config, q: Queues, tx: nat, child: nat)
    requires child < |cfg.pool|
    ensures var r, r' := Released(cfg, q, tx, child), Released(cfg, q, tx, child + 1);
            r' == if tx !in cfg.pool[child].parents then r
                  else if q.fPriorityBlock then
                    if child in r.waitPriMap then
                      r.(vecPriority := r.vecPriority + [child], waitPriMap := r.waitPriMap - {child})
                    else r
                  else if child in r.waitSet then
                    r.(clearedTxs := r.clearedTxs + [child], waitSet := r.waitSet - {child})
                  else r
  {
    ChildrenBelow(cfg, tx, child);
    var a, c := Children(cfg, tx, child), Children(cfg, tx, child + 1);
    assert c == if tx in cfg.pool[child].parents then a + {child} else a;
    assert q.waitPriMap - (a + {child}) == q.waitPriMap - a - {child};
    assert q.waitSet - (a + {child}) == q.waitSet - a - {child};
    assert child !in q.waitPriMap ==> q.waitPriMap - a - {child} == q.waitPriMap - a;
    assert child !in q.waitSet ==> q.waitSet - a - {child} == q.waitSet - a;
  }

  /** After tx went in: its waiting children become candidates again. */
  method ReleaseChildren(cfg: Config, q: Queues, tx: nat) returns (q': Queues)
    requires Known(cfg, q)
    ensures Known(cfg, q') && q' == Released(cfg, q, tx, |cfg.pool|)
  {
    q' := q;
    for child := 0 to |cfg.pool|
      invariant Known(cfg, q') && q' == Released(cfg, q, tx, child)
    {
      ReleasedStep(cfg, q, tx, child);
      if tx in cfg.pool[child].parents {
        if q'.fPriorityBlock {
          if child in q'.waitPriMap {
            q' := q'.(vecPriority := q'.vecPriority + [child], waitPriMap := q'.waitPriMap - {child});
          }
        } else if child in q'.waitSet {
          q' := q'.(clearedTxs := q'.clearedTxs + [child], waitSet := q'.waitSet - {child});
        }
      }
    }
  }

  // ----- the loop -----

  datatype Outcome = Added | Skipped | Stop

  function Below(n: nat): (r: set<nat>)
    ensures forall i: nat :: i in r <==> i < n
  {
    if n == 0 then {} else Below(n - 1) + {n - 1}
  }

  /** A candidate that is too large ends priority mode, as does one of low priority. */
  function Mode(cfg: Config, b: Block, q: Queues, tx: nat, allowFree: bool): Queues
    requires tx < |cfg.pool|
  {
    if q.fPriorityBlock && (b.nBlockSize + cfg.pool[tx].txSize >= PriorityLimit(cfg) || !allowFree) then
      q.(fPriorityBlock := false, waitPriMap := {})
    else q
  }

  predicate TooLarge(cfg: Config, b: Block, tx: nat)
    requires tx < |cfg.pool|
  {
    b.nBlockSize + cfg.pool[tx].txSize >= SizeLimit(cfg)
  }

  predicate Accepts(cfg: Config, b: Block, tx: nat)
    requires tx < |cfg.pool|
  {
    !TooLarge(cfg, b, tx) && Fits(cfg, b, tx)
  }

  predicate SigOpsSpent(cfg: Config, b: Block, tx: nat)
    requires tx < |cfg.pool|
  {
    var e := cfg.pool[tx];
    && !TooLarge(cfg, b, tx) && Admissible(cfg, e) && !Limited(e)
    && b.nBlockSigOps + e.sigOpCost >= MAX_BLOCK_SIGOPS_COST && b.nBlockSigOps > MAX_BLOCK_SIGOPS_COST - 2
  }

  /** The children of an ordinary transaction are released; a transaction that is too large may count. */
  function After(cfg: Config, b: Block, q: Queues, tx: nat, allowFree: bool, outcome: Outcome): Queues
    requires tx < |cfg.pool|
  {
    var now := Mode(cfg, b, q, tx, allowFree);
    if outcome.Added? && !Limited(cfg.pool[tx]) then Released(cfg, now, tx, |cfg.pool|)
    else if outcome.Skipped? && TooLarge(cfg, b, tx) && b.nBlockSize > SizeLimit(cfg) - 1000 then
      now.(lastFewTxs := q.lastFewTxs + 1)
    else now
  }

  /** The tests of one iteration after the candidate is known to be new and not an orphan. */
  method TryAdd(cfg: Config, b: Block, q: Queues, tx: nat, allowFree: bool)
    returns (b': Block, q': Queues, outcome: Outcome)
    requires Inv(cfg, b) && Known(cfg, q) && tx < |cfg.pool|
    requires tx !in b.inBlock && Requested(cfg, tx) && cfg.pool[tx].parents <= b.inBlock
    ensures Inv(cfg, b') && Known(cfg, q')
    ensures outcome.Added? <==> Accepts(cfg, b, tx)
    ensures outcome.Stop? <==>
      (TooLarge(cfg, b, tx) && (b.nBlockSize > SizeLimit(cfg) - 100 || q.lastFewTxs > 50)) || SigOpsSpent(cfg, b, tx)
    ensures b' == if outcome.Added? then Push(cfg, b, tx) else b
    ensures q' == After(cfg, b, q, tx, allowFree, outcome)
  {
    b', q' := b, q;
    var e := cfg.pool[tx];
    if q'.fPriorityBlock && (b.nBlockSize + e.txSize >= PriorityLimit(cfg) || !allowFree) {
      q' := q'.(fPriorityBlock := false, waitPriMap := {});
    }
    if b.nBlockSize + e.txSize >= SizeLimit(cfg) {
      if b.nBlockSize > SizeLimit(cfg) - 100 || q'.lastFewTxs > 50 {
        return b, q', Stop;
      }
      if b.nBlockSize > SizeLimit(cfg) - 1000 {
        q' := q'.(lastFewTxs := q'.lastFewTxs + 1);
      }
      return b, q', Skipped;
    }
    if !Admissible(cfg, e) {
      return b, q', Skipped;
    }
    if Limited(e) {
      if !SpendFits(cfg, b, e) {
        return b, q', Skipped;
      }
      PushKeepsInv(cfg, b, tx);
      return Push(cfg, b, tx), q', Added;
    }
    if b.nBlockSigOps + e.sigOpCost >= MAX_BLOCK_SIGOPS_COST {
      return b, q', if b.nBlockSigOps > MAX_BLOCK_SIGOPS_COST - 2 then Stop else Skipped;
    }
    PushKeepsInv(cfg, b, tx);
    b' := Push(cfg, b, tx);
    q' := ReleaseChildren(cfg, q', tx);
    return b', q', Added;
  }

  // ----- why a transaction is left out -----

  /** The block with the transactions of s, added one after the other. */
  function Build(cfg: Config, s: seq<nat>): Block
    requires InPool(cfg, s)
  {
    if s == [] then EMPTY else Push(cfg, Build(cfg, s[..|s| - 1]), s[|s| - 1])
  }

  /** tx does not go into the block with the first k transactions of s, which holds its parents. */
  predicate RefusedAt(cfg: Config, s: seq<nat>, k: nat, tx: nat)
    requires InPool(cfg, s) && tx < |cfg.pool| && k <= |s|
  {
    cfg.pool[tx].parents <= Build(cfg, s[..k]).inBlock && !Accepts(cfg, Build(cfg, s[..k]), tx)
  }

  ghost predicate Refused(cfg: Config, s: seq<nat>, tx: nat)
    requires InPool(cfg, s) && tx < |cfg.pool|
  {
    exists k: nat :: k <= |s| && RefusedAt(cfg, s, k, tx)
  }

  /**
   * tx lacked a parent when the block had k transactions, and no later one could release it: each
   * later parent is a limited spend or among the first pri transactions, added in priority mode.
   */
  ghost predicate WaitsFrom(cfg: Config, s: seq<nat>, pri: nat, k: nat, tx: nat)
    requires InPool(cfg, s) && tx < |cfg.pool| && k <= |s|
  {
    && (exists p :: p in cfg.pool[tx].parents && p !in s[..k])
    && forall j | k <= j < |s| && s[j] in cfg.pool[tx].parents :: j < pri || Limited(cfg.pool[s[j]])
  }

  ghost predicate Stranded(cfg: Config, s: seq<nat>, pri: nat, tx: nat)
    requires InPool(cfg, s) && tx < |cfg.pool|
  {
    exists k: nat :: k <= |s| && WaitsFrom(cfg, s, pri, k, tx)
  }

  /** What became of a transaction that the loop has drawn in score order. */
  ghost predicate Seen(cfg: Config, s: seq<nat>, q: Queues, tx: nat)
    requires InPool(cfg, s) && tx < |cfg.pool|
  {
    tx in s || !Requested(cfg, tx) || Refused(cfg, s, tx) || tx in q.waitSet || tx in q.clearedTxs
  }

  ghost predicate SeenBut(cfg: Config, s: seq<nat>, q: Queues, but: set<nat>)
    requires Ok(cfg) && Known(cfg, q) && InPool(cfg, s)
  {
    forall i | 0 <= i < q.mi :: cfg.scoreOrder[i] in but || Seen(cfg, s, q, cfg.scoreOrder[i])
  }

  /** The bookkeeping of the loop; but holds the candidate that is being looked at. */
  ghost predicate Tracks(cfg: Config, b: Block, q: Queues, pri: nat, but: set<nat>)
    requires Ok(cfg) && Known(cfg, q) && InPool(cfg, b.vtx)
  {
    && b == Build(cfg, b.vtx) && pri <= |b.vtx| && (q.fPriorityBlock ==> pri == |b.vtx|)
    && (q.lastFewTxs > 0 ==> b.nBlockSize > SizeLimit(cfg) - 1000)
    && (forall tx | tx in q.waitSet :: Stranded(cfg, b.vtx, pri, tx))
    && SeenBut(cfg, b.vtx, q, but)
  }

  /** The loop stops early only with little space left, or with no ordinary signature operation left. */
  predicate NearlyFull(cfg: Config, b: Block) {
    b.nBlockSize > SizeLimit(cfg) - 1000 || b.nBlockSigOps == MAX_BLOCK_SIGOPS_COST - 1
  }

  /** What a completed loop says of a transaction in score order. */
  ghost predicate Explained(cfg: Config, s: seq<nat>, pri: nat, tx: nat)
    requires InPool(cfg, s) && tx < |cfg.pool|
  {
    tx in s || !Requested(cfg, tx) || Refused(cfg, s, tx) || Stranded(cfg, s, pri, tx)
  }

  lemma DrawKeeps(cfg: Config, b: Block, q: Queues, tx: nat, priorityTx: bool, q': Queues, pri: nat)
    requires Ok(cfg) && Known(cfg, q) && Known(cfg, q') && InPool(cfg, b.vtx) && Tracks(cfg, b, q, pri, {})
    requires q' == q.(vecPriority := q'.vecPriority, clearedTxs := q'.clearedTxs, mi := q'.mi)
    requires if priorityTx then q'.clearedTxs == q.clearedTxs && q'.mi == q.mi
             else if q.clearedTxs == [] then
               q'.clearedTxs == [] && q.mi < |cfg.scoreOrder| && tx == cfg.scoreOrder[q.mi] && q'.mi == q.mi + 1
             else q'.mi == q.mi && Drawn(q.clearedTxs, tx, q'.clearedTxs)
    ensures Tracks(cfg, b, q', pri, if priorityTx then {} else {tx})
  {
    forall i | 0 <= i < q'.mi && (priorityTx || cfg.scoreOrder[i] != tx)
      ensures Seen(cfg, b.vtx, q', cfg.scoreOrder[i])
    {
      assert Seen(cfg, b.vtx, q, cfg.scoreOrder[i]);
      if !priorityTx && q.clearedTxs != [] { DrawnKeeps(q.clearedTxs, tx, q'.clearedTxs, cfg.scoreOrder[i]); }
    }
  }

  lemma DrawnKeeps(s: seq<nat>, tx: nat, t: seq<nat>, other: nat)
    requires Drawn(s, tx, t) && other != tx
    ensures other in s ==> other in t
  {
    var k: nat :| k < |s| && s[k] == tx && t == Without(s, k);
    if other in s {
      var i :| 0 <= i < |s| && s[i] == other;
      assert t[if i < k then i else i - 1] == other;
    }
  }

  lemma Settled(cfg: Config, b: Block, q: Queues, pri: nat, tx: nat)
    requires Ok(cfg) && Known(cfg, q) && InPool(cfg, b.vtx) && Tracks(cfg, b, q, pri, {tx})
    requires tx < |cfg.pool| && Seen(cfg, b.vtx, q, tx)
    ensures Tracks(cfg, b, q, pri, {})
  {
    forall i | 0 <= i < q.mi ensures Seen(cfg, b.vtx, q, cfg.scoreOrder[i]) {
      assert cfg.scoreOrder[i] in {tx} || Seen(cfg, b.vtx, q, cfg.scoreOrder[i]);
    }
  }

  /** An orphan drawn in score order waits from now on. */
  lemma PostponeKeeps(cfg: Config, b: Block, q: Queues, tx: nat, priorityTx: bool, pri: nat)
    requires Ok(cfg) && Known(cfg, q) && InPool(cfg, b.vtx) && Tracks(cfg, b, q, pri, if priorityTx then {} else {tx})
    requires tx < |cfg.pool| && Stranded(cfg, b.vtx, pri, tx)
    ensures Known(cfg, Postpone(q, tx, priorityTx)) && Tracks(cfg, b, Postpone(q, tx, priorityTx), pri, {})
  {
    var q' := Postpone(q, tx, priorityTx);
    if priorityTx {
      SeenMore(cfg, b.vtx, q, q', {});
    } else {
      SeenMore(cfg, b.vtx, q, q', {tx});
      Settled(cfg, b, q', pri, tx);
    }
  }

  lemma SeenMore(cfg: Config, s: seq<nat>, q: Queues, q': Queues, but: set<nat>)
    requires Ok(cfg) && Known(cfg, q) && Known(cfg, q') && InPool(cfg, s) && SeenBut(cfg, s, q, but)
    requires q'.mi == q.mi && q'.clearedTxs == q.clearedTxs && q.waitSet <= q'.waitSet
    ensures SeenBut(cfg, s, q', but)
  {
    forall i | 0 <= i < q.mi && cfg.scoreOrder[i] !in but ensures Seen(cfg, s, q', cfg.scoreOrder[i]) {
      assert Seen(cfg, s, q, cfg.scoreOrder[i]);
    }
  }

  lemma StrandedNow(cfg: Config, b: Block, pri: nat, tx: nat)
    requires Inv(cfg, b) && tx < |cfg.pool| && !(cfg.pool[tx].parents <= b.inBlock)
    ensures Stranded(cfg, b.vtx, pri, tx)
  {
    var p :| p in cfg.pool[tx].parents && p !in b.inBlock;
    assert b.vtx[..|b.vtx|] == b.vtx;
    assert p !in b.vtx[..|b.vtx|];
    assert WaitsFrom(cfg, b.vtx, pri, |b.vtx|, tx);
  }

  lemma RefusedNow(cfg: Config, b: Block, tx: nat)
    requires InPool(cfg, b.vtx) && b == Build(cfg, b.vtx)
    requires tx < |cfg.pool| && cfg.pool[tx].parents <= b.inBlock && !Accepts(cfg, b, tx)
    ensures Refused(cfg, b.vtx, tx)
  {
    assert b.vtx[..|b.vtx|] == b.vtx;
    assert RefusedAt(cfg, b.vtx, |b.vtx|, tx);
  }

  lemma RefusedStays(cfg: Config, s: seq<nat>, more: nat, tx: nat)
    requires InPool(cfg, s) && more < |cfg.pool| && tx < |cfg.pool| && Refused(cfg, s, tx)
    ensures Refused(cfg, s + [more], tx)
  {
    var k: nat :| k <= |s| && RefusedAt(cfg, s, k, tx);
    assert (s + [more])[..k] == s[..k];
    assert RefusedAt(cfg, s + [more], k, tx);
  }

  /** A waiting transaction keeps waiting unless an ordinary parent goes in outside priority mode. */
  lemma StrandedStays(cfg: Config, s: seq<nat>, more: nat, pri: nat, pri': nat, tx: nat)
    requires InPool(cfg, s) && more < |cfg.pool| && tx < |cfg.pool| && Stranded(cfg, s, pri, tx) && pri <= pri'
    requires more !in cfg.pool[tx].parents || Limited(cfg.pool[more]) || |s| < pri'
    ensures Stranded(cfg, s + [more], pri', tx)
  {
    var k: nat :| k <= |s| && WaitsFrom(cfg, s, pri, k, tx);
    assert (s + [more])[..k] == s[..k];
    assert WaitsFrom(cfg, s + [more], pri', k, tx);
  }

  lemma {:induction false} WaitingHas(cfg: Config, w: set<nat>, tx: nat, n: nat, c: nat)
    requires n <= |cfg.pool| && c < n && tx in cfg.pool[c].parents && c in w
    ensures c in Waiting(cfg, w, tx, n)
  {
    if c < n - 1 { WaitingHas(cfg, w, tx, n - 1, c); }
  }

  /** The queues after tx went in, and how many transactions went in in priority mode. */
  function AfterPush(cfg: Config, q: Queues, tx: nat): Queues
    requires tx < |cfg.pool|
  {
    if Limited(cfg.pool[tx]) then q else Released(cfg, q, tx, |cfg.pool|)
  }

  function PriAfter(b: Block, q: Queues, pri: nat): nat { if q.fPriorityBlock then |b.vtx| + 1 else pri }

  lemma SeenStays(cfg: Config, s: seq<nat>, q: Queues, more: nat, tx: nat)
    requires InPool(cfg, s) && more < |cfg.pool| && tx < |cfg.pool| && Seen(cfg, s, q, tx)
    ensures Seen(cfg, s + [more], AfterPush(cfg, q, more), tx)
  {
    if Refused(cfg, s, tx) {
      RefusedStays(cfg, s, more, tx);
    } else if tx in q.waitSet && tx !in AfterPush(cfg, q, more).waitSet {
      ChildrenBelow(cfg, more, |cfg.pool|);
      WaitingHas(cfg, q.waitSet, more, |cfg.pool|, tx);
    }
  }

  lemma WaitersStay(cfg: Config, b: Block, q: Queues, more: nat, pri: nat, tx: nat)
    requires InPool(cfg, b.vtx) && more < |cfg.pool| && pri <= |b.vtx|
    requires tx < |cfg.pool| && tx in AfterPush(cfg, q, more).waitSet && Stranded(cfg, b.vtx, pri, tx)
    ensures Stranded(cfg, b.vtx + [more], PriAfter(b, q, pri), tx)
  {
    ChildrenBelow(cfg, more, |cfg.pool|);
    StrandedStays(cfg, b.vtx, more, pri, PriAfter(b, q, pri), tx);
  }

  lemma PushTracks(cfg: Config, b: Block, q: Queues, pri: nat, but: set<nat>, tx: nat)
    requires Ok(cfg) && Known(cfg, q) && InPool(cfg, b.vtx) && Tracks(cfg, b, q, pri, but) && tx < |cfg.pool|
    requires Known(cfg, AfterPush(cfg, q, tx)) && InPool(cfg, Push(cfg, b, tx).vtx)
    ensures Tracks(cfg, Push(cfg, b, tx), AfterPush(cfg, q, tx), PriAfter(b, q, pri), but)
  {
    var b', q', pri' := Push(cfg, b, tx), AfterPush(cfg, q, tx), PriAfter(b, q, pri);
    assert b'.vtx[..|b'.vtx| - 1] == b.vtx;
    forall w | w in q'.waitSet ensures Stranded(cfg, b'.vtx, pri', w) {
      WaitersStay(cfg, b, q, tx, pri, w);
    }
    forall i | 0 <= i < q'.mi && cfg.scoreOrder[i] !in but ensures Seen(cfg, b'.vtx, q', cfg.scoreOrder[i]) {
      SeenStays(cfg, b.vtx, q, tx, cfg.scoreOrder[i]);
    }
  }

  /** With one kind of transaction and no priority mode, only a missing parent keeps one waiting. */
  lemma LeftOutOrdinary(cfg: Config, s: seq<nat>, tx: nat)
    requires InPool(cfg, s) && tx < |cfg.pool| && Explained(cfg, s, 0, tx)
    requires forall i | 0 <= i < |cfg.pool| :: !Limited(cfg.pool[i])
    ensures tx in s || !Requested(cfg, tx) || Refused(cfg, s, tx) || exists p :: p in cfg.pool[tx].parents && p !in s
  {
    if Stranded(cfg, s, 0, tx) {
      var k: nat :| k <= |s| && WaitsFrom(cfg, s, 0, k, tx);
      var p :| p in cfg.pool[tx].parents && p !in s[..k];
      forall j | 0 <= j < |s| ensures s[j] != p {
        if j < k { assert s[..k][j] == s[j]; }
      }
    }
  }

  const SPEND := Entry(200, 200, 0, 10, 0, {}, false, true, false, true, false, false, false, 1, 1)
  const CHILD := Entry(200, 200, 10, 0, 0, {0}, false, true, false, false, false, false, false, 1, 0)
  const FAMILY := Config([SPEND, CHILD], [1, 0], {}, 1_000_000, 0, false, false, false, 10, 10, 10, 10)

  /** A child drawn before its parent, a spend, still waits at the end of the loop although it would fit. */
  lemma ChildLeftBehind(allowFree: bool)
    ensures var drawn := Postpone(Queues([], [], 1, {}, {}, false, 0), 1, false);
            var last := After(FAMILY, EMPTY, drawn.(mi := 2), 0, allowFree, Added);
            && Accepts(FAMILY, EMPTY, 0) && Accepts(FAMILY, Push(FAMILY, EMPTY, 0), 1)
            && last.mi == |FAMILY.scoreOrder| && last.clearedTxs == [] && last.waitSet == {1}
    ensures Stranded(FAMILY, [0], 0, 1)
  {
    assert 0 in CHILD.parents && 0 !in [0][..0];
    assert WaitsFrom(FAMILY, [0], 0, 0, 1);
  }

  /** What an iteration does with a candidate whose parents are in the block. */
  method Consider(cfg: Config, b: Block, q: Queues, tx: nat, priorityTx: bool, ghost pri: nat)
    returns (b': Block, q': Queues, stop: bool, ghost pri': nat)
    requires Ok(cfg) && Inv(cfg, b) && Known(cfg, q) && tx < |cfg.pool|
    requires tx !in b.inBlock && Requested(cfg, tx) && cfg.pool[tx].parents <= b.inBlock
    requires Tracks(cfg, b, q, pri, if priorityTx then {} else {tx})
    ensures Inv(cfg, b') && Known(cfg, q')
    ensures stop ==> NearlyFull(cfg, b')
    ensures !stop ==> Tracks(cfg, b', q', pri', {})
    ensures PriOnly(q, pri, q', pri')
    ensures (b' == b && Pending(cfg, q') == Pending(cfg, q)) || b' == Push(cfg, b, tx)
  {
    var allowFree: bool := *;
    var outcome;
    b', q', outcome := TryAdd(cfg, b, q, tx, allowFree);
    stop := outcome == Stop;
    pri' := Concluded(cfg, b, q, pri, tx, priorityTx, allowFree, outcome);
  }

  /** Priority mode is never entered again, and only in it the count of its transactions grows. */
  predicate PriOnly(q: Queues, pri: nat, q': Queues, pri': nat) {
    !q.fPriorityBlock ==> !q'.fPriorityBlock && pri' == pri
  }

  lemma Concluded(cfg: Config, b: Block, q: Queues, pri: nat, tx: nat, priorityTx: bool, allowFree: bool, outcome: Outcome)
    returns (pri': nat)
    requires Ok(cfg) && Known(cfg, q) && InPool(cfg, b.vtx) && b.nBlockSigOps < MAX_BLOCK_SIGOPS_COST && tx < |cfg.pool|
    requires Tracks(cfg, b, q, pri, if priorityTx then {} else {tx}) && cfg.pool[tx].parents <= b.inBlock
    requires outcome.Skipped? ==> !Accepts(cfg, b, tx)
    requires outcome.Stop? ==>
      (TooLarge(cfg, b, tx) && (b.nBlockSize > SizeLimit(cfg) - 100 || q.lastFewTxs > 50)) || SigOpsSpent(cfg, b, tx)
    requires Known(cfg, After(cfg, b, q, tx, allowFree, outcome))
    ensures PriOnly(q, pri, After(cfg, b, q, tx, allowFree, outcome), pri')
    ensures !outcome.Added? ==> Pending(cfg, After(cfg, b, q, tx, allowFree, outcome)) == Pending(cfg, q)
    ensures match outcome
            case Added => InPool(cfg, Push(cfg, b, tx).vtx)
                          && Tracks(cfg, Push(cfg, b, tx), After(cfg, b, q, tx, allowFree, outcome), pri', {})
            case Skipped => Tracks(cfg, b, After(cfg, b, q, tx, allowFree, outcome), pri', {})
            case Stop => NearlyFull(cfg, b)
  {
    var now := Mode(cfg, b, q, tx, allowFree);
    pri' := pri;
    match outcome
    case Added =>
      ModeTracks(cfg, b, q, now, pri, if priorityTx then {} else {tx});
      pri' := PriAfter(b, now, pri);
      AddedTracks(cfg, b, now, pri, tx, priorityTx);
    case Skipped =>
      ModeTracks(cfg, b, q, now, pri, if priorityTx then {} else {tx});
      SkippedTracks(cfg, b, now, After(cfg, b, q, tx, allowFree, outcome), pri, tx, priorityTx);
    case Stop =>
  }

  lemma ModeTracks(cfg: Config, b: Block, q: Queues, now: Queues, pri: nat, but: set<nat>)
    requires Ok(cfg) && Known(cfg, q) && InPool(cfg, b.vtx) && Tracks(cfg, b, q, pri, but)
    requires now == q || now == q.(fPriorityBlock := false, waitPriMap := {})
    ensures Known(cfg, now) && Tracks(cfg, b, now, pri, but)
  {
    SeenMore(cfg, b.vtx, q, now, but);
  }

  lemma AddedTracks(cfg: Config, b: Block, q: Queues, pri: nat, tx: nat, priorityTx: bool)
    requires Ok(cfg) && Known(cfg, q) && InPool(cfg, b.vtx) && tx < |cfg.pool|
    requires Tracks(cfg, b, q, pri, if priorityTx then {} else {tx}) && Known(cfg, AfterPush(cfg, q, tx))
    ensures InPool(cfg, Push(cfg, b, tx).vtx)
    ensures Tracks(cfg, Push(cfg, b, tx), AfterPush(cfg, q, tx), PriAfter(b, q, pri), {})
  {
    PushTracks(cfg, b, q, pri, if priorityTx then {} else {tx}, tx);
    if !priorityTx {
      assert Push(cfg, b, tx).vtx[|b.vtx|] == tx;
      Settled(cfg, Push(cfg, b, tx), AfterPush(cfg, q, tx), PriAfter(b, q, pri), tx);
    }
  }

  lemma SkippedTracks(cfg: Config, b: Block, q: Queues, q': Queues, pri: nat, tx: nat, priorityTx: bool)
    requires Ok(cfg) && Known(cfg, q) && InPool(cfg, b.vtx) && tx < |cfg.pool|
    requires Tracks(cfg, b, q, pri, if priorityTx then {} else {tx})
    requires cfg.pool[tx].parents <= b.inBlock && !Accepts(cfg, b, tx)
    requires q' == q || (q' == q.(lastFewTxs := q.lastFewTxs + 1) && b.nBlockSize > SizeLimit(cfg) - 1000)
    ensures Known(cfg, q') && Tracks(cfg, b, q', pri, {})
  {
    SeenMore(cfg, b.vtx, q, q', if priorityTx then {} else {tx});
    if !priorityTx {
      RefusedNow(cfg, b, tx);
      Settled(cfg, b, q', pri, tx);
    }
  }

  /** One iteration of the selection loop: either a transaction is added or a candidate used up. */
  method Round(cfg: Config, b: Block, q: Queues, ghost pri: nat)
    returns (b': Block, q': Queues, stop: bool, ghost pri': nat)
    requires Ok(cfg) && Inv(cfg, b) && Known(cfg, q) && (q.mi < |cfg.scoreOrder| || q.clearedTxs != [])
    requires Tracks(cfg, b, q, pri, {})
    ensures Inv(cfg, b') && Known(cfg, q')
    ensures stop ==> NearlyFull(cfg, b')
    ensures !stop ==> Tracks(cfg, b', q', pri', {})
    ensures PriOnly(q, pri, q', pri')
    ensures (b' == b && Pending(cfg, q') < Pending(cfg, q)) || Grows(cfg, b, b')
  {
    var tx, priorityTx, next := NextCandidate(cfg, q);
    DrawKeeps(cfg, b, q, tx, priorityTx, next, pri);
    pri' := pri;
    if tx in b.inBlock || !Requested(cfg, tx) {
      if !priorityTx { Settled(cfg, b, next, pri, tx); }
      return b, next, false, pri;
    }
    if !(cfg.pool[tx].parents <= b.inBlock) {
      StrandedNow(cfg, b, pri, tx);
      PostponeKeeps(cfg, b, next, tx, priorityTx, pri);
      return b, Postpone(next, tx, priorityTx), false, pri;
    }
    b', q', stop, pri' := Consider(cfg, b, next, tx, priorityTx, pri);
  }

  /**
   * The selection loop.  It ends because every round uses up a candidate or adds a transaction.
   * The first pri transactions were added in priority mode; stopped tells of an early end.
   */
  method SelectTransactions(cfg: Config) returns (b: Block, ghost pri: nat, ghost stopped: bool)
    requires Ok(cfg)
    ensures Inv(cfg, b)
    ensures Moderate(cfg) ==> BothSigOps(cfg, b.vtx) < SIGOPS_LEFT
    ensures stopped ==> NearlyFull(cfg, b)
    ensures !stopped ==> forall i | 0 <= i < |cfg.scoreOrder| :: Explained(cfg, b.vtx, pri, cfg.scoreOrder[i])
    ensures PriorityLimit(cfg) <= 0 ==> pri == 0
  {
    var q := Queues([], [], 0, {}, {}, PriorityLimit(cfg) > 0, 0);
    if q.fPriorityBlock {
      q := q.(vecPriority := seq(|cfg.pool|, i requires 0 <= i => i));
    }
    StartTracks(cfg, q);
    ghost var last;
    b, pri, last, stopped := SelectFrom(cfg, q);
    SigOpsBound(cfg, b);
    if !stopped { Accounted(cfg, b, last, pri); }
  }

  /** The loop itself, from the queues q; last are the queues it ends with. */
  method SelectFrom(cfg: Config, q: Queues) returns (b: Block, ghost pri: nat, ghost last: Queues, ghost stopped: bool)
    requires Ok(cfg) && Inv(cfg, EMPTY) && Known(cfg, q) && Tracks(cfg, EMPTY, q, 0, {})
    ensures Inv(cfg, b) && Known(cfg, last)
    ensures if stopped then NearlyFull(cfg, b)
            else Tracks(cfg, b, last, pri, {}) && last.mi == |cfg.scoreOrder| && last.clearedTxs == []
    ensures PriOnly(q, 0, last, pri)
  {
    b := EMPTY;
    var q', stop := q, false;
    pri := 0;
    while !stop && (q'.mi < |cfg.scoreOrder| || q'.clearedTxs != [])
      invariant Inv(cfg, b) && Known(cfg, q') && PriOnly(q, 0, q', pri)
      invariant if stop then NearlyFull(cfg, b) else Tracks(cfg, b, q', pri, {})
      decreases Below(|cfg.pool|) - b.inBlock, Pending(cfg, q')
    {
      ghost var before := b;
      b, q', stop, pri := Round(cfg, b, q', pri);
      Shrinks(cfg, before, b);
    }
    last, stopped := q', stop;
  }

  lemma StartTracks(cfg: Config, q: Queues)
    requires Ok(cfg) && q.mi == 0 && q.clearedTxs == [] && q.waitSet == {} && q.waitPriMap == {} && q.lastFewTxs == 0
    requires forall i | 0 <= i < |q.vecPriority| :: q.vecPriority[i] < |cfg.pool|
    ensures Inv(cfg, EMPTY) && Known(cfg, q) && Tracks(cfg, EMPTY, q, 0, {})
  {}

  lemma Accounted(cfg: Config, b: Block, q: Queues, pri: nat)
    requires Ok(cfg) && Known(cfg, q) && InPool(cfg, b.vtx) && Tracks(cfg, b, q, pri, {})
    requires q.mi == |cfg.scoreOrder| && q.clearedTxs == []
    ensures forall i | 0 <= i < |cfg.scoreOrder| :: Explained(cfg, b.vtx, pri, cfg.scoreOrder[i])
  {
    forall i | 0 <= i < |cfg.scoreOrder| ensures Explained(cfg, b.vtx, pri, cfg.scoreOrder[i]) {
      assert Seen(cfg, b.vtx, q, cfg.scoreOrder[i]);
    }
  }

  ghost predicate Grows(cfg: Config, b: Block, b': Block) {
    exists tx: nat :: tx < |cfg.pool| && tx !in b.inBlock && b' == Push(cfg, b, tx)
  }

  lemma Shrinks(cfg: Config, b: Block, b': Block)
    ensures Grows(cfg, b, b') ==> Below(|cfg.pool|) - b'.inBlock < Below(|cfg.pool|) - b.inBlock
  {
    if Grows(cfg, b, b') {
      var tx: nat :| tx < |cfg.pool| && tx !in b.inBlock && b' == Push(cfg, b, tx);
      assert tx in Below(|cfg.pool|) - b.inBlock && tx in b'.inBlock;
    }
  }

  // ----- the coinbase -----

  /** The founder outputs and what they take from the miner's output. */
  const FOUNDERS: seq<int> :=
    [-5 * COIN, 2 * COIN, 130_000_000, 80_000_000, 30_000_000, 30_000_000, 30_000_000]

  datatype Template = Template(coinbase: seq<int>, block: Block)

  /**
   * The rest of CreateNewBlock: the block reward goes to the first coinbase output.  payments are
   * the outputs that FillBlockPayments appends.
   */
  method CreateNewBlock(cfg: Config, founders: bool, subsidy: int, xnodes: bool, xnodePayment: int, payments: seq<int>)
    returns (t: Template)
    requires Ok(cfg)
    ensures InPool(cfg, t.block.vtx) && Distinct(t.block.vtx) && ParentsFirst(cfg, t.block.vtx) && Selected(cfg, t.block.vtx)
    ensures Within(cfg, t.block) && Sum(t.block.vTxFees) == 0
    ensures Moderate(cfg) ==> BothSigOps(cfg, t.block.vtx) < SIGOPS_LEFT
    ensures Sum(t.coinbase) == subsidy + TallyOf(cfg, t.block.vtx).fees + if xnodes then Sum(payments) - xnodePayment else 0
  {
    var vout := if founders then FOUNDERS else [0];
    FoundersSumToZero();
    var b, _, _ := SelectTransactions(cfg);
    var blockReward := b.nFees + subsidy;
    if xnodes {
      AddToFirst(vout, -xnodePayment);
      vout := vout[0 := vout[0] - xnodePayment];
      SumConcat(vout, payments);
      vout := vout + payments;
    }
    AddToFirst(vout, blockReward);
    vout := vout[0 := vout[0] + blockReward];
    FeesSumToZero(b.vTxFees, b.nFees);
    t := Template(vout, b.(vTxFees := b.vTxFees[0 := -b.nFees]));
  }

  lemma FoundersSumToZero()
    ensures Sum(FOUNDERS) == 0 && Sum([0]) == 0
  {
    var f := FOUNDERS;
    SumStep(f, 0);
    SumStep(f, 1);
    SumStep(f, 2);
    SumStep(f, 3);
    SumStep(f, 4);
    SumStep(f, 5);
    SumStep(f, 6);
    assert f[..7] == f;
  }

  lemma SumStep(s: seq<int>, i: nat)
    requires i < |s|
    ensures Sum(s[..i + 1]) == Sum(s[..i]) + s[i]
  {
    assert s[..i + 1][..i] == s[..i];
  }

  lemma {:induction false} SumFirst(s: seq<int>)
    requires s != []
    ensures Sum(s) == s[0] + Sum(s[1..])
  {
    assert s == [s[0]] + s[1..];
    SumConcat([s[0]], s[1..]);
  }

  lemma AddToFirst(s: seq<int>, x: int)
    requires s != []
    ensures Sum(s[0 := s[0] + x]) == Sum(s) + x
  {
    SumFirst(s);
    SumFirst(s[0 := s[0] + x]);
    assert s[0 := s[0] + x][1..] == s[1..];
  }

  lemma FeesSumToZero(fees: seq<int>, total: int)
    requires fees != [] && Sum(fees[1..]) == total
    ensures Sum(fees[0 := -total]) == 0
  {
    SumFirst(fees[0 := -total]);
    assert fees[0 := -total][1..] == fees[1..];
  }
}
