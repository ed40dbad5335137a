/**
 * Transaction locking by xnode votes: CInstantSend of src/instantx.h and src/instantx.cpp,
 * between two expiries of lock candidates.
 */
module InstantSend {
  import opened Collections

  const SIGNATURES_REQUIRED := 6
  const SIGNATURES_TOTAL := 10

  datatype OutPoint = OutPoint(hash: nat, n: nat)

  /** An xnode is known by its collateral output. */
  type Xnode = OutPoint

  /** A transaction; its hash determines its inputs. */
  datatype Tx = Tx(id: nat, vin: seq<OutPoint>)

  datatype Vote = Vote(tx: Tx, outpoint: OutPoint, xnode: Xnode)

  /** mapOutPointLocks of a candidate: for every outpoint the xnodes whose vote was counted. */
  type Locks = map<OutPoint, set<Xnode>>

  datatype State = State(
    candidates: map<Tx, Locks>,
    voted: map<OutPoint, set<Tx>>,
    locked: map<OutPoint, Tx>,
    orphans: set<Vote>,
    requests: set<Tx>)

  /** The xnodes whose rank for an outpoint is in the top SIGNATURES_TOTAL. */
  type Quorum = q: OutPoint -> set<Xnode> | forall o :: |q(o)| <= SIGNATURES_TOTAL witness _ => {}

  predicate HasVoted(s: State, tx: Tx, o: OutPoint, m: Xnode) {
    tx in s.candidates && o in s.candidates[tx] && m in s.candidates[tx][o]
  }

  predicate OutPointReady(s: State, tx: Tx, o: OutPoint) {
    tx in s.candidates && o in s.candidates[tx] && |s.candidates[tx][o]| >= SIGNATURES_REQUIRED
  }

  /** IsAllOutPointsReady. */
  predicate Ready(s: State, tx: Tx) {
    tx in s.candidates && s.candidates[tx] != map[] && forall o | o in s.candidates[tx] :: OutPointReady(s, tx, o)
  }

  predicate LockedTo(s: State, o: OutPoint, tx: Tx) { o in s.locked && s.locked[o] == tx }

  /** IsLockedInstantSendTransaction. */
  predicate IsLocked(s: State, tx: Tx) {
    tx in s.candidates && s.candidates[tx] != map[] && forall o | o in s.candidates[tx] :: LockedTo(s, o, tx)
  }

  // ----- the invariant -----

  ghost predicate CandidateOk(s: State, q: Quorum, tx: Tx)
    requires tx in s.candidates
  {
    && s.candidates[tx].Keys == (set o | o in tx.vin)
    && forall o | o in s.candidates[tx] :: s.candidates[tx][o] <= q(o)
  }

  /** Every counted vote is recorded for its outpoint, and every recorded transaction is a candidate. */
  ghost predicate Recorded(s: State) {
    && (forall o | o in s.voted :: s.voted[o] <= s.candidates.Keys)
    && (forall tx, o, m | HasVoted(s, tx, o, m) :: o in s.voted && tx in s.voted[o])
  }

  /** No xnode is counted on one outpoint for two transactions. */
  ghost predicate Exclusive(s: State) {
    forall tx, tx', o, m | HasVoted(s, tx, o, m) && HasVoted(s, tx', o, m) :: tx == tx'
  }

  /** A locked outpoint belongs to a transaction that is ready and locked as a whole. */
  ghost predicate LocksComplete(s: State) {
    forall o | o in s.locked :: o in s.locked[o].vin && Ready(s, s.locked[o]) && IsLocked(s, s.locked[o])
  }

  ghost predicate Inv(s: State, q: Quorum) {
    && (forall tx | tx in s.candidates :: CandidateOk(s, q, tx))
    && Recorded(s)
    && Exclusive(s)
    && LocksComplete(s)
  }

  const EMPTY := State(map[], map[], map[], {}, {})

  // ----- consequences: at most one winner per outpoint -----

  /** Two disjoint groups of six do not fit into a quorum of ten. */
  lemma QuorumsOverlap(a: set<Xnode>, b: set<Xnode>, all: set<Xnode>)
    requires a <= all && b <= all && |all| <= SIGNATURES_TOTAL
    requires |a| >= SIGNATURES_REQUIRED && |b| >= SIGNATURES_REQUIRED
    ensures exists m :: m in a && m in b
  {
    if m :| m in a * b {
      assert m in a && m in b;
    } else {
      assert a * b == {};
      assert |a + b| == |a| + |b|;
      SubsetSize(a + b, all);
    }
  }

  /** Two candidates that spend the same outpoint are never both ready. */
  lemma NeverBothReady(s: State, q: Quorum, tx: Tx, tx': Tx, o: OutPoint)
    requires Inv(s, q) && o in tx.vin && o in tx'.vin && Ready(s, tx) && Ready(s, tx')
    ensures tx == tx'
  {
    assert CandidateOk(s, q, tx) && CandidateOk(s, q, tx');
    assert OutPointReady(s, tx, o) && OutPointReady(s, tx', o);
    QuorumsOverlap(s.candidates[tx][o], s.candidates[tx'][o], q(o));
    var m :| m in s.candidates[tx][o] && m in s.candidates[tx'][o];
    assert HasVoted(s, tx, o, m) && HasVoted(s, tx', o, m);
  }

  /** Two locked transactions share no input. */
  lemma LockedAreDisjoint(s: State, q: Quorum, tx: Tx, tx': Tx, o: OutPoint)
    requires Inv(s, q) && IsLocked(s, tx) && IsLocked(s, tx') && o in tx.vin && o in tx'.vin
    ensures tx == tx'
  {
    assert CandidateOk(s, q, tx) && CandidateOk(s, q, tx');
    assert LockedTo(s, o, tx) && LockedTo(s, o, tx');
  }

  /** The check for completed locks never holds back a candidate that is ready. */
  lemma ReadyNoConflict(s: State, q: Quorum, tx: Tx)
    requires Inv(s, q)
    ensures Ready(s, tx) ==> !Conflicts(s, tx)
  {
    if Ready(s, tx) {
      forall o | o in tx.vin && o in s.locked ensures s.locked[o] == tx {
        NeverBothReady(s, q, tx, s.locked[o], o);
      }
    }
  }

  /** Candidates, counted votes and completed locks are never taken back. */
  ghost predicate Grows(s: State, s': State) {
    && (forall tx | tx in s.candidates :: tx in s'.candidates)
    && (forall tx, o, m | HasVoted(s, tx, o, m) :: HasVoted(s', tx, o, m))
    && (forall o | o in s.locked :: LockedTo(s', o, s.locked[o]))
  }

  lemma GrowsTrans(s: State, s': State, s'': State)
    requires Grows(s, s') && Grows(s', s'')
    ensures Grows(s, s'')
  {
    forall o | o in s.locked ensures LockedTo(s'', o, s.locked[o]) {
      assert LockedTo(s', o, s.locked[o]);
    }
  }

  // ----- the elementary changes of state -----

  /** CreateTxLockCandidate for a new transaction. */
  function NewCandidate(s: State, tx: Tx): State {
    if tx in s.candidates then s
    else s.(candidates := s.candidates[tx := map o: OutPoint | o in tx.vin :: {}])
  }

  function VotedFor(s: State, o: OutPoint): set<Tx> { if o in s.voted then s.voted[o] else {} }

  /** The transaction is entered for the outpoint in mapVotedOutpoints. */
  function Enter(s: State, o: OutPoint, tx: Tx): State { s.(voted := s.voted[o := VotedFor(s, o) + {tx}]) }

  /** COutPointLock::AddVote. */
  function Count(s: State, v: Vote): State
    requires v.tx in s.candidates && v.outpoint in s.candidates[v.tx]
  {
    var locks := s.candidates[v.tx];
    s.(candidates := s.candidates[v.tx := locks[v.outpoint := locks[v.outpoint] + {v.xnode}]])
  }

  /** LockTransactionInputs: existing entries of mapLockedOutpoints stay. */
  function LockInputs(s: State, tx: Tx): State
    requires tx in s.candidates
  {
    s.(locked := (map o: OutPoint | o in s.candidates[tx] :: tx) + s.locked)
  }

  /** Some other transaction recorded for this outpoint already has this xnode's vote. */
  predicate VotedElsewhere(s: State, v: Vote) {
    exists tx | tx in VotedFor(s, v.outpoint) :: tx != v.tx && HasVoted(s, tx, v.outpoint, v.xnode)
  }

  /** An input is locked to another transaction. */
  predicate Conflicts(s: State, tx: Tx) { exists o | o in tx.vin :: o in s.locked && s.locked[o] != tx }

  // ----- each keeps the invariant -----

  /** Readiness and locks survive when candidates only gain votes. */
  lemma LocksSurvive(s: State, s': State)
    requires LocksComplete(s) && s'.locked == s.locked
    requires forall tx | tx in s.candidates :: tx in s'.candidates && s'.candidates[tx].Keys == s.candidates[tx].Keys
    requires forall tx, o | OutPointReady(s, tx, o) :: OutPointReady(s', tx, o)
    ensures LocksComplete(s')
  {
    forall o | o in s'.locked ensures o in s'.locked[o].vin && Ready(s', s'.locked[o]) && IsLocked(s', s'.locked[o]) {
      var tx := s.locked[o];
      assert Ready(s, tx) && IsLocked(s, tx);
      forall p | p in s'.candidates[tx] ensures OutPointReady(s', tx, p) && LockedTo(s', p, tx) {
        assert OutPointReady(s, tx, p) && LockedTo(s, p, tx);
      }
    }
  }

  lemma NewCandidateKeepsInv(s: State, q: Quorum, tx: Tx)
    requires Inv(s, q)
    ensures Inv(NewCandidate(s, tx), q) && Grows(s, NewCandidate(s, tx))
  {
    if tx !in s.candidates {
      var s' := NewCandidate(s, tx);
      forall t | t in s'.candidates ensures CandidateOk(s', q, t) {
        if t != tx { assert CandidateOk(s, q, t); }
      }
      forall t, o, m | HasVoted(s', t, o, m) ensures HasVoted(s, t, o, m) {}
      forall t, o, m | HasVoted(s, t, o, m) ensures HasVoted(s', t, o, m) {}
      forall t, o | OutPointReady(s, t, o) ensures OutPointReady(s', t, o) {}
      LocksSurvive(s, s');
    }
  }

  lemma EnterKeepsInv(s: State, q: Quorum, o: OutPoint, tx: Tx)
    requires Inv(s, q) && tx in s.candidates
    ensures Inv(Enter(s, o, tx), q) && Grows(s, Enter(s, o, tx))
  {
    var s' := Enter(s, o, tx);
    forall t | t in s'.candidates ensures CandidateOk(s', q, t) { assert CandidateOk(s, q, t); }
    forall t, p, m | HasVoted(s', t, p, m) ensures HasVoted(s, t, p, m) && p in s'.voted && t in s'.voted[p] {
      assert HasVoted(s, t, p, m);
    }
    forall t, p, m | HasVoted(s, t, p, m) ensures HasVoted(s', t, p, m) {}
    forall t, p | OutPointReady(s, t, p) ensures OutPointReady(s', t, p) {}
    LocksSurvive(s, s');
  }

  /** After counting a vote, the votes are the old ones and this one. */
  lemma CountVotes(s: State, v: Vote)
    requires v.tx in s.candidates && v.outpoint in s.candidates[v.tx]
    ensures forall t, p, m :: HasVoted(Count(s, v), t, p, m) <==> HasVoted(s, t, p, m) || Vote(t, p, m) == v
    ensures forall t, p | OutPointReady(s, t, p) :: OutPointReady(Count(s, v), t, p)
  {
    var s' := Count(s, v);
    forall t, p | OutPointReady(s, t, p) ensures OutPointReady(s', t, p) {
      SubsetSize(s.candidates[t][p], s'.candidates[t][p]);
    }
  }

  lemma CountKeepsInv(s: State, q: Quorum, v: Vote)
    requires Inv(s, q) && v.tx in s.candidates && v.outpoint in s.candidates[v.tx]
    requires v.xnode in q(v.outpoint) && v.tx in VotedFor(s, v.outpoint) && !VotedElsewhere(s, v)
    ensures Inv(Count(s, v), q) && Grows(s, Count(s, v))
  {
    var s' := Count(s, v);
    CountVotes(s, v);
    forall t | t in s'.candidates ensures CandidateOk(s', q, t) { assert CandidateOk(s, q, t); }
    forall t, p, m | HasVoted(s', t, p, m) ensures p in s'.voted && t in s'.voted[p] {}
    forall t, t', p, m | HasVoted(s', t, p, m) && HasVoted(s', t', p, m) ensures t == t' {
      CountExclusive(s, v, t, t', p, m);
    }
    LocksSurvive(s, s');
  }

  lemma CountExclusive(s: State, v: Vote, t: Tx, t': Tx, p: OutPoint, m: Xnode)
    requires Recorded(s) && Exclusive(s) && !VotedElsewhere(s, v)
    requires HasVoted(s, t, p, m) || Vote(t, p, m) == v
    requires HasVoted(s, t', p, m) || Vote(t', p, m) == v
    ensures t == t'
  {
    if Vote(t, p, m) == v && HasVoted(s, t', p, m) {
      assert t' in VotedFor(s, v.outpoint);
    }
    if Vote(t', p, m) == v && HasVoted(s, t, p, m) {
      assert t in VotedFor(s, v.outpoint);
    }
  }

  lemma LockKeepsInv(s: State, q: Quorum, tx: Tx)
    requires Inv(s, q) && Ready(s, tx) && !Conflicts(s, tx)
    ensures Inv(LockInputs(s, tx), q) && Grows(s, LockInputs(s, tx)) && IsLocked(LockInputs(s, tx), tx)
  {
    var s' := LockInputs(s, tx);
    assert CandidateOk(s, q, tx);
    forall t | t in s'.candidates ensures CandidateOk(s', q, t) { assert CandidateOk(s, q, t); }
    forall t, p, m | HasVoted(s', t, p, m) ensures HasVoted(s, t, p, m) {}
    forall t, p, m | HasVoted(s, t, p, m) ensures HasVoted(s', t, p, m) {}
    forall o | o in s.candidates[tx] ensures LockedTo(s', o, tx) && OutPointReady(s', tx, o) {
      assert OutPointReady(s, tx, o);
    }
    assert IsLocked(s', tx) && Ready(s', tx);
    forall o | o in s'.locked ensures o in s'.locked[o].vin && Ready(s', s'.locked[o]) && IsLocked(s', s'.locked[o]) {
      if s'.locked[o] != tx {
        var t := s.locked[o];
        assert Ready(s, t) && IsLocked(s, t);
        forall p | p in s'.candidates[t] ensures OutPointReady(s', t, p) && LockedTo(s', p, t) {
          assert OutPointReady(s, t, p) && LockedTo(s, p, t);
        }
      }
    }
  }

  // ----- the message handlers -----

  /**
   * What the handlers learn from outside in one call: whether this node is an xnode and which,
   * which outputs are in the UTXO set, whether a vote can be signed, whether the signature of a
   * vote and the age and fee of a request are in order, whether ResolveConflicts succeeds beyond
   * its check of completed locks, and whether an xnode sends orphan votes too fast.
   */
  datatype Env = Env(
    fXNode: bool,
    me: Xnode,
    utxoKnown: OutPoint -> bool,
    signs: Vote -> bool,
    voteChecks: Vote -> bool,
    requestChecks: (Tx, bool) -> bool,
    resolves: Tx -> bool,
    spams: Vote -> bool)

  /** CTxLockVote::IsValid: the signature is good and the xnode is in the quorum of the outpoint. */
  predicate IsValid(v: Vote, q: Quorum, env: Env) { env.voteChecks(v) && v.xnode in q(v.outpoint) }

  /** IsEnoughOrphanVotesForTx. */
  predicate EnoughOrphans(orphans: set<Vote>, tx: Tx) {
    forall o | o in tx.vin :: |set v | v in orphans && v.tx == tx && v.outpoint == o| >= SIGNATURES_REQUIRED
  }

  ghost predicate Safe(s: State, s': State, q: Quorum) { Inv(s', q) && Grows(s, s') }

  lemma SafeTrans(s: State, s': State, s'': State, q: Quorum)
    requires Safe(s, s', q) && Safe(s', s'', q)
    ensures Safe(s, s'', q)
  {
    GrowsTrans(s, s', s'');
  }

  /** A candidate that is ready and resolves is locked. */
  predicate Finalized(s: State, tx: Tx, env: Env) {
    Ready(s, tx) && env.resolves(tx) ==> IsLocked(s, tx)
  }

  function NoVotes(tx: Tx): Locks { map o: OutPoint | o in tx.vin :: {} }

  /** The counted votes are those of before and, if it was accepted, v. */
  ghost predicate OnlyVote(s: State, s': State, v: Vote, ok: bool) {
    forall t, o, m :: HasVoted(s', t, o, m) <==> HasVoted(s, t, o, m) || (ok && v == Vote(t, o, m))
  }

  /** New votes are this node's, for tx, where it is in the quorum. */
  ghost predicate OwnVotesOnly(s: State, s': State, tx: Tx, env: Env) {
    forall t, o, m | HasVoted(s', t, o, m) && !HasVoted(s, t, o, m) :: t == tx && m == env.me && env.fXNode
  }

  predicate CanVote(tx: Tx, env: Env) {
    forall o | o in tx.vin :: env.utxoKnown(o) && env.signs(Vote(tx, o, env.me))
  }

  ghost predicate HasVotedSomewhere(s: State, o: OutPoint, m: Xnode) { exists t :: HasVoted(s, t, o, m) }

  /** A vote is entered for its outpoint and, if the candidate has the outpoint, counted. */
  lemma RecordKeepsInv(s: State, q: Quorum, v: Vote)
    requires Inv(s, q) && v.tx in s.candidates && v.xnode in q(v.outpoint) && !VotedElsewhere(s, v)
    ensures var e := Enter(s, v.outpoint, v.tx);
            && Safe(s, e, q) && OnlyVote(s, e, v, false)
            && (v.outpoint in e.candidates[v.tx] ==> Safe(s, Count(e, v), q) && OnlyVote(s, Count(e, v), v, true))
  {
    var e := Enter(s, v.outpoint, v.tx);
    EnterKeepsInv(s, q, v.outpoint, v.tx);
    StillNotElsewhere(s, v);
    if v.outpoint in e.candidates[v.tx] {
      CountKeepsInv(e, q, v);
      CountVotes(e, v);
      SafeTrans(s, e, Count(e, v), q);
    }
  }

  /** The outpoints not in todo have been voted on. */
  ghost predicate Casting(s0: State, s: State, q: Quorum, tx: Tx, env: Env, todo: set<OutPoint>) {
    && Safe(s0, s, q) && s.candidates.Keys == s0.candidates.Keys && tx in s.candidates && OwnVotesOnly(s0, s, tx, env)
    && forall o | o in tx.vin && o !in todo && env.me in q(o) :: HasVotedSomewhere(s, o, env.me)
  }

  lemma CastStops(s0: State, s: State, s': State, q: Quorum, tx: Tx, env: Env, todo: set<OutPoint>)
    requires Casting(s0, s, q, tx, env, todo) && Safe(s, s', q) && OwnVotesOnly(s, s', tx, env)
    ensures Safe(s0, s', q) && OwnVotesOnly(s0, s', tx, env)
  {
    SafeTrans(s0, s, s', q);
  }

  lemma CastNext(s0: State, s: State, s': State, q: Quorum, tx: Tx, env: Env, todo: set<OutPoint>, o: OutPoint)
    requires Casting(s0, s, q, tx, env, todo) && Safe(s, s', q) && OwnVotesOnly(s, s', tx, env)
    requires s'.candidates.Keys == s.candidates.Keys && (env.me in q(o) ==> HasVotedSomewhere(s', o, env.me))
    ensures Casting(s0, s', q, tx, env, todo - {o})
  {
    CastStops(s0, s, s', q, tx, env, todo);
    forall p | p in tx.vin && p !in todo - {o} && env.me in q(p) ensures HasVotedSomewhere(s', p, env.me) {
      if p != o {
        var t :| HasVoted(s, t, p, env.me);
        assert HasVoted(s', t, p, env.me);
      }
    }
  }

  // ----- the sweep over the orphan votes -----

  predicate Counted(s: State, v: Vote) { HasVoted(s, v.tx, v.outpoint, v.xnode) }

  /**
   * An orphan vote goes when it was counted now.  It also goes when it is valid and its transaction
   * is still no candidate, unless its xnode is too fast.
   */
  predicate Erased(s0: State, s: State, q: Quorum, env: Env, v: Vote) {
    && IsValid(v, q, env)
    && if v.tx in s0.candidates then Counted(s, v) && !Counted(s0, v) else !env.spams(v)
  }

  predicate Countable(s: State, q: Quorum, env: Env, v: Vote) {
    IsValid(v, q, env) && v.tx in s.candidates && v.outpoint in v.tx.vin
  }

  /** Every valid orphan vote for tx is counted, or its xnode's vote on that input for a rival is. */
  ghost predicate OrphansCounted(orphans: set<Vote>, candidates: map<Tx, Locks>, q: Quorum, env: Env, tx: Tx) {
    forall v | v in orphans && v.tx == tx && IsValid(v, q, env) && v.outpoint in tx.vin ::
      CountedFor(candidates, v.outpoint, v.xnode)
  }

  predicate CountedFor(candidates: map<Tx, Locks>, o: OutPoint, m: Xnode) {
    exists t | t in candidates :: o in candidates[t] && m in candidates[t][o]
  }

  /** New votes are those of valid orphans in done for candidates. */
  ghost predicate FromOrphans(s0: State, s: State, q: Quorum, env: Env, done: set<Vote>) {
    forall t, o, m | HasVoted(s, t, o, m) && !HasVoted(s0, t, o, m) ::
      Vote(t, o, m) in done && Countable(s0, q, env, Vote(t, o, m))
  }

  /** What the sweep has done with a vote. */
  ghost predicate Swept(s0: State, s: State, q: Quorum, env: Env, v: Vote) {
    && (v !in s.orphans <==> Erased(s0, s, q, env, v))
    && (Countable(s0, q, env, v) ==> HasVotedSomewhere(s, v.outpoint, v.xnode))
  }

  /** The orphan votes of s0 that are not in todo have been swept. */
  ghost predicate Sweeping(s0: State, s: State, q: Quorum, env: Env, todo: set<Vote>) {
    && Safe(s0, s, q) && s.candidates.Keys == s0.candidates.Keys && todo <= s.orphans <= s0.orphans
    && FromOrphans(s0, s, q, env, s0.orphans - todo)
    && forall v | v in s0.orphans - todo :: Swept(s0, s, q, env, v)
  }

  /** The effect of ProcessTxLockVote on a vote that is an orphan vote already. */
  ghost predicate Processed(s: State, s': State, q: Quorum, env: Env, v: Vote, ok: bool) {
    && Safe(s, s', q) && s'.candidates.Keys == s.candidates.Keys && s'.orphans == s.orphans
    && (ok ==> IsValid(v, q, env))
    && if v.tx in s.candidates then
         && OnlyVote(s, s', v, ok)
         && (IsValid(v, q, env) ==> (ok <==> !VotedElsewhere(s, v) && v.outpoint in s.candidates[v.tx] && !Counted(s, v)))
       else
         s' == s && (ok <==> IsValid(v, q, env) && !env.spams(v))
  }

  lemma ProcessedVotes(s: State, s': State, q: Quorum, env: Env, v: Vote, ok: bool)
    requires Inv(s, q) && Processed(s, s', q, env, v, ok)
    ensures forall t, o, m :: HasVoted(s', t, o, m) <==>
      HasVoted(s, t, o, m) || (ok && v.tx in s.candidates && v == Vote(t, o, m))
    ensures Countable(s, q, env, v) ==> HasVotedSomewhere(s', v.outpoint, v.xnode)
    ensures ok && v.tx in s.candidates ==> Countable(s, q, env, v)
  {
    if v.tx in s.candidates {
      assert CandidateOk(s, q, v.tx);
      if Countable(s, q, env, v) {
        if VotedElsewhere(s, v) {
          var t :| t in VotedFor(s, v.outpoint) && t != v.tx && HasVoted(s, t, v.outpoint, v.xnode);
          assert HasVoted(s', t, v.outpoint, v.xnode);
        } else {
          assert Counted(s', v);
        }
      }
    }
  }

  /** A vote that waits is not counted by the votes before it. */
  lemma NotYetCounted(s0: State, s: State, q: Quorum, env: Env, todo: set<Vote>, v: Vote)
    requires Sweeping(s0, s, q, env, todo) && v in todo
    ensures Counted(s, v) <==> Counted(s0, v)
  {
    assert Vote(v.tx, v.outpoint, v.xnode) == v && v !in s0.orphans - todo;
  }

  lemma SweepStep(s0: State, s: State, s': State, q: Quorum, env: Env, todo: set<Vote>, v: Vote, ok: bool)
    requires Sweeping(s0, s, q, env, todo) && v in todo && Processed(s, s', q, env, v, ok)
    ensures Sweeping(s0, if ok then s'.(orphans := s'.orphans - {v}) else s', q, env, todo - {v})
  {
    var r := if ok then s'.(orphans := s'.orphans - {v}) else s';
    SafeTrans(s0, s, s', q);
    SameLocks(s', r, q);
    SafeTrans(s0, s', r, q);
    ProcessedVotes(s, s', q, env, v, ok);
    NotYetCounted(s0, s, q, env, todo, v);
    SweepFrom(s0, s, s', r, q, env, todo, v, ok);
    forall w | w in s0.orphans - (todo - {v}) ensures Swept(s0, r, q, env, w) {
      if w == v {
        assert Counted(r, v) <==> Counted(s', v);
        SomewhereSame(s', r, v);
      } else {
        SweptStays(s0, s, s', r, q, env, v, ok, w);
      }
    }
  }

  lemma SomewhereSame(s: State, r: State, v: Vote)
    requires r.candidates == s.candidates
    ensures HasVotedSomewhere(s, v.outpoint, v.xnode) ==> HasVotedSomewhere(r, v.outpoint, v.xnode)
  {
    if t :| HasVoted(s, t, v.outpoint, v.xnode) {
      assert HasVoted(r, t, v.outpoint, v.xnode);
    }
  }

  lemma SweepFrom(s0: State, s: State, s': State, r: State, q: Quorum, env: Env, todo: set<Vote>, v: Vote, ok: bool)
    requires v in todo && todo <= s0.orphans && FromOrphans(s0, s, q, env, s0.orphans - todo)
    requires r.candidates == s'.candidates && s.candidates.Keys == s0.candidates.Keys
    requires forall t, o, m :: HasVoted(s', t, o, m) <==>
      HasVoted(s, t, o, m) || (ok && v.tx in s.candidates && v == Vote(t, o, m))
    requires ok && v.tx in s.candidates ==> Countable(s, q, env, v)
    ensures FromOrphans(s0, r, q, env, s0.orphans - (todo - {v}))
  {
    forall t, o, m | HasVoted(r, t, o, m) && !HasVoted(s0, t, o, m)
      ensures Vote(t, o, m) in s0.orphans - (todo - {v}) && Countable(s0, q, env, Vote(t, o, m))
    {
      assert HasVoted(s', t, o, m);
      if HasVoted(s, t, o, m) {
        assert Vote(t, o, m) in s0.orphans - todo;
      }
    }
  }

  lemma SweptStays(s0: State, s: State, s': State, r: State, q: Quorum, env: Env, v: Vote, ok: bool, w: Vote)
    requires Swept(s0, s, q, env, w) && w != v && r.candidates == s'.candidates
    requires w in r.orphans <==> w in s.orphans
    requires forall t, o, m :: HasVoted(s', t, o, m) <==>
      HasVoted(s, t, o, m) || (ok && v.tx in s.candidates && v == Vote(t, o, m))
    ensures Swept(s0, r, q, env, w)
  {
    assert Counted(r, w) <==> Counted(s', w);
    assert Vote(w.tx, w.outpoint, w.xnode) == w;
    if HasVotedSomewhere(s, w.outpoint, w.xnode) {
      var t :| HasVoted(s, t, w.outpoint, w.xnode);
      assert HasVoted(s', t, w.outpoint, w.xnode);
      SomewhereSame(s', r, w);
    }
  }

  /** Every countable orphan vote has its xnode counted on its outpoint. */
  ghost predicate AllCounted(s0: State, s: State, q: Quorum, env: Env) {
    forall v | v in s0.orphans && Countable(s0, q, env, v) :: HasVotedSomewhere(s, v.outpoint, v.xnode)
  }

  lemma TheirsCounted(s0: State, s: State, q: Quorum, env: Env, tx: Tx)
    requires AllCounted(s0, s, q, env) && tx in s0.candidates
    ensures OrphansCounted(s0.orphans, s.candidates, q, env, tx)
  {
    forall v | v in s0.orphans && v.tx == tx && IsValid(v, q, env) && v.outpoint in tx.vin
      ensures CountedFor(s.candidates, v.outpoint, v.xnode)
    {
      assert Countable(s0, q, env, v);
      var t :| HasVoted(s, t, v.outpoint, v.xnode);
    }
  }

  lemma SweepEnds(s0: State, s: State, q: Quorum, env: Env)
    requires Sweeping(s0, s, q, env, {})
    ensures s.orphans == set v | v in s0.orphans && !Erased(s0, s, q, env, v)
    ensures AllCounted(s0, s, q, env)
    ensures FromOrphans(s0, s, q, env, s0.orphans)
  {
    assert s0.orphans - {} == s0.orphans;
    forall v | v in s0.orphans
      ensures v in s.orphans <==> !Erased(s0, s, q, env, v)
      ensures Countable(s0, q, env, v) ==> HasVotedSomewhere(s, v.outpoint, v.xnode)
    {
      assert Swept(s0, s, q, env, v);
    }
  }

  class Node {
    const q: Quorum
    var candidates: map<Tx, Locks>
    var voted: map<OutPoint, set<Tx>>
    var locked: map<OutPoint, Tx>
    var orphans: set<Vote>
    var requests: set<Tx>

    ghost function S(): State
      reads this
    {
      State(candidates, voted, locked, orphans, requests)
    }

    constructor (q: Quorum)
      ensures S() == EMPTY && this.q == q && Inv(S(), q)
    {
      this.q := q;
      candidates, voted, locked, orphans, requests := map[], map[], map[], {}, {};
    }

    /** AcceptLockRequest and RejectLockRequest: the request is remembered for its orphan votes. */
    method Remember(tx: Tx)
      requires Inv(S(), q)
      modifies this`requests
      ensures Safe(old(S()), S(), q)
    {
      requests := requests + {tx};
      SameLocks(old(S()), S(), q);
    }

    /** Lock the inputs of a candidate that is ready and has no conflict. */
    method TryToFinalizeLockCandidate(tx: Tx, env: Env)
      requires Inv(S(), q) && tx in candidates
      modifies this`locked
      ensures Safe(old(S()), S(), q)
      ensures IsLocked(S(), tx) <==> old(IsLocked(S(), tx)) || (old(Ready(S(), tx)) && env.resolves(tx))
      ensures Finalized(S(), tx, env)
    {
      SameLocks(S(), S(), q);
      ReadyNoConflict(S(), q, tx);
      if IsReady(candidates[tx]) && !IsAllLocked(candidates[tx], locked, tx) {
        if !Blocked(locked, tx) && env.resolves(tx) {
          LockKeepsInv(S(), q, tx);
          locked := (map o: OutPoint | o in candidates[tx] :: tx) + locked;
        }
      }
    }

    /** The search through the transactions recorded for the outpoint of a vote. */
    method HasConflictingVote(v: Vote) returns (found: bool)
      requires Inv(S(), q)
      ensures found <==> VotedElsewhere(S(), v)
    {
      found := false;
      var todo := if v.outpoint in voted then voted[v.outpoint] else {};
      while todo != {}
        invariant todo <= VotedFor(S(), v.outpoint)
        invariant forall t | t in VotedFor(S(), v.outpoint) && t !in todo ::
          t == v.tx || !HasVoted(S(), t, v.outpoint, v.xnode)
        decreases |todo|
      {
        var t :| t in todo;
        // every recorded transaction is a candidate, so this lookup succeeds
        var locks := candidates[t];
        if t != v.tx && v.outpoint in locks && v.xnode in locks[v.outpoint] {
          assert HasVoted(S(), t, v.outpoint, v.xnode);
          return true;
        }
        todo := todo - {t};
      }
    }

    /** Record the transaction for the outpoint and count the vote. */
    method RecordVote(v: Vote) returns (ok: bool)
      requires Inv(S(), q) && v.tx in candidates && v.xnode in q(v.outpoint) && !VotedElsewhere(S(), v)
      modifies this`voted, this`candidates
      ensures Safe(old(S()), S(), q)
      ensures ok <==> v.outpoint in old(candidates)[v.tx] && !old(HasVoted(S(), v.tx, v.outpoint, v.xnode))
      ensures OnlyVote(old(S()), S(), v, ok)
      ensures candidates.Keys == old(candidates).Keys && candidates[v.tx].Keys == old(candidates)[v.tx].Keys
    {
      ghost var s := S();
      RecordKeepsInv(s, q, v);
      voted := voted[v.outpoint := (if v.outpoint in voted then voted[v.outpoint] else {}) + {v.tx}];
      if v.outpoint !in candidates[v.tx] { return false; }
      if v.xnode in candidates[v.tx][v.outpoint] { return false; }
      candidates := candidates[v.tx := candidates[v.tx][v.outpoint := candidates[v.tx][v.outpoint] + {v.xnode}]];
      return true;
    }

    /** A vote for a known candidate. */
    method CountVote(v: Vote, env: Env) returns (ok: bool)
      requires Inv(S(), q) && v.tx in candidates && v.xnode in q(v.outpoint)
      modifies this`voted, this`candidates, this`locked
      ensures Safe(old(S()), S(), q)
      ensures ok <==> (&& !old(VotedElsewhere(S(), v)) && v.outpoint in old(candidates)[v.tx]
                       && !old(HasVoted(S(), v.tx, v.outpoint, v.xnode)))
      ensures OnlyVote(old(S()), S(), v, ok) && candidates.Keys == old(candidates).Keys
      ensures ok ==> Finalized(S(), v.tx, env)
    {
      SameLocks(S(), S(), q);
      var conflict := HasConflictingVote(v);
      if conflict { return false; }
      ok := RecordVote(v);
      if ok {
        ghost var s := S();
        TryToFinalizeLockCandidate(v.tx, env);
        SafeTrans(old(S()), s, S(), q);
      }
    }

    /** Whether this xnode's vote on an outpoint was counted for any transaction recorded there. */
    method AlreadyVoted(o: OutPoint, me: Xnode) returns (found: bool)
      requires Inv(S(), q)
      ensures found <==> exists t | t in VotedFor(S(), o) :: HasVoted(S(), t, o, me)
    {
      found := false;
      var todo := if o in voted then voted[o] else {};
      while todo != {}
        invariant todo <= VotedFor(S(), o)
        invariant forall t | t in VotedFor(S(), o) && t !in todo :: !HasVoted(S(), t, o, me)
        decreases |todo|
      {
        var t :| t in todo;
        var locks := candidates[t];
        if o in locks && me in locks[o] {
          assert HasVoted(S(), t, o, me);
          return true;
        }
        todo := todo - {t};
      }
    }

    /** One iteration of Vote, for outpoint o. */
    method CastVote(tx: Tx, o: OutPoint, env: Env) returns (go: bool)
      requires Inv(S(), q) && tx in candidates && o in candidates[tx] && env.fXNode
      modifies this`voted, this`candidates
      ensures Safe(old(S()), S(), q) && candidates.Keys == old(candidates).Keys
      ensures OwnVotesOnly(old(S()), S(), tx, env)
      ensures env.utxoKnown(o) && env.signs(Vote(tx, o, env.me)) ==> go
      ensures go && env.me in q(o) ==> HasVotedSomewhere(S(), o, env.me)
    {
      SameLocks(S(), S(), q);
      if !env.utxoKnown(o) { return false; }
      if env.me in q(o) {
        var voted' := AlreadyVoted(o, env.me);
        if !voted' {
          var vote := Vote(tx, o, env.me);
          if !env.signs(vote) { return false; }
          ghost var s := S();
          var ok := RecordVote(vote);
          assert HasVoted(S(), tx, o, env.me);
        }
      }
      return true;
    }

    /** Vote: this node votes for the outpoints of a candidate it has not voted on. */
    method CastVotes(tx: Tx, env: Env)
      requires Inv(S(), q) && tx in candidates
      modifies this`voted, this`candidates
      ensures Safe(old(S()), S(), q) && candidates.Keys == old(candidates).Keys
      ensures OwnVotesOnly(old(S()), S(), tx, env)
      ensures env.fXNode && CanVote(tx, env) ==>
        forall o | o in tx.vin && env.me in q(o) :: HasVotedSomewhere(S(), o, env.me)
    {
      SameLocks(S(), S(), q);
      if !env.fXNode { return; }
      ghost var all := set o | o in tx.vin;
      var todo := candidates[tx].Keys;
      assert CandidateOk(S(), q, tx);
      while todo != {}
        invariant todo <= all && Casting(old(S()), S(), q, tx, env, todo)
        decreases |todo|
      {
        var o :| o in todo;
        ghost var s := S();
        assert CandidateOk(s, q, tx);
        var go := CastVote(tx, o, env);
        if !go { CastStops(old(S()), s, S(), q, tx, env, todo); return; }
        CastNext(old(S()), s, S(), q, tx, env, todo, o);
        todo := todo - {o};
      }
    }

    method CreateTxLockCandidate(tx: Tx, env: Env) returns (ok: bool)
      requires Inv(S(), q)
      modifies this`candidates
      ensures Safe(old(S()), S(), q)
      ensures ok <==> env.requestChecks(tx, !EnoughOrphans(orphans, tx))
      ensures candidates == if ok && tx !in old(candidates) then old(candidates)[tx := NoVotes(tx)] else old(candidates)
    {
      NewCandidateKeepsInv(S(), q, tx);
      SameLocks(S(), S(), q);
      if !env.requestChecks(tx, !EnoughOrphans(orphans, tx)) { return false; }
      if tx !in candidates {
        candidates := candidates[tx := NoVotes(tx)];
      }
      return true;
    }

    method ProcessTxLockRequest(tx: Tx, env: Env) returns (ok: bool)
      requires Inv(S(), q)
      modifies this
      ensures Safe(old(S()), S(), q)
      ensures ok <==> !old(exists o | o in tx.vin :: o in locked) && env.requestChecks(tx, !EnoughOrphans(old(orphans), tx))
      ensures ok ==> tx in candidates && Finalized(S(), tx, env)
      ensures ok ==> OrphansCounted(old(orphans), candidates, q, env, tx)
      ensures !ok ==> S() == old(S())
      decreases 4
    {
      ghost var s0 := S();
      SameLocks(s0, s0, q);
      if exists o | o in tx.vin :: o in locked { return false; }
      ok := CreateTxLockCandidate(tx, env);
      if !ok { return; }
      ghost var s1 := S();
      CastVotes(tx, env);
      SafeTrans(s0, s1, S(), q);
      ghost var s2 := S();
      SweepAndFinalize(tx, env);
      SafeTrans(s0, s2, S(), q);
    }

    /** The end of ProcessTxLockRequest. */
    method SweepAndFinalize(tx: Tx, env: Env)
      requires Inv(S(), q) && tx in candidates
      modifies this
      ensures Safe(old(S()), S(), q)
      ensures tx in candidates && Finalized(S(), tx, env) && OrphansCounted(old(orphans), candidates, q, env, tx)
      decreases 3
    {
      ghost var s := S();
      SweepFor(tx, env);
      ghost var s' := S();
      TryToFinalizeLockCandidate(tx, env);
      SafeTrans(s, s', S(), q);
    }

    /** What the sweep means for one candidate. */
    method SweepFor(tx: Tx, env: Env)
      requires Inv(S(), q) && tx in candidates
      modifies this
      ensures Safe(old(S()), S(), q) && tx in candidates && OrphansCounted(old(orphans), candidates, q, env, tx)
      decreases 2
    {
      ghost var s := S();
      ProcessOrphanTxLockVotes(env);
      TheirsCounted(s, S(), q, env, tx);
    }

    method ProcessOrphanTxLockVotes(env: Env)
      requires Inv(S(), q)
      modifies this
      ensures Safe(old(S()), S(), q) && candidates.Keys == old(candidates).Keys
      ensures orphans == set v | v in old(orphans) && !Erased(old(S()), S(), q, env, v)
      ensures AllCounted(old(S()), S(), q, env)
      ensures FromOrphans(old(S()), S(), q, env, old(orphans))
      decreases 1
    {
      SameLocks(S(), S(), q);
      var todo := orphans;
      ghost var s0 := S();
      while todo != {}
        invariant Sweeping(s0, S(), q, env, todo)
        decreases |todo|
      {
        var v :| v in todo;
        ghost var s := S();
        var done := ProcessTxLockVote(v, env);
        SweepStep(s0, s, S(), q, env, todo, v, done);
        if done {
          orphans := orphans - {v};
        }
        todo := todo - {v};
      }
      SweepEnds(s0, S(), q, env);
    }

    method ProcessTxLockVote(v: Vote, env: Env) returns (ok: bool)
      requires Inv(S(), q)
      modifies this
      ensures Safe(old(S()), S(), q)
      ensures v in old(orphans) ==> Processed(old(S()), S(), q, env, v, ok)
      ensures !IsValid(v, q, env) ==> !ok && S() == old(S())
      ensures IsValid(v, q, env) && v.tx in old(candidates) ==>
                (ok <==> (&& !old(VotedElsewhere(S(), v)) && v.outpoint in old(candidates)[v.tx]
                          && !old(HasVoted(S(), v.tx, v.outpoint, v.xnode))))
      ensures v.tx in old(candidates) ==> OnlyVote(old(S()), S(), v, ok)
      ensures ok && v.tx in old(candidates) ==> Finalized(S(), v.tx, env)
      decreases if v in orphans then 0 else 5
    {
      SameLocks(S(), S(), q);
      if !IsValid(v, q, env) { return false; }
      if v.tx !in candidates {
        ok := StoreOrphan(v, env);
      } else {
        ok := CountVote(v, env);
      }
    }

    /** A vote for a transaction that is not a candidate yet. */
    method StoreOrphan(v: Vote, env: Env) returns (ok: bool)
      requires Inv(S(), q) && v.tx !in candidates
      modifies this
      ensures Safe(old(S()), S(), q)
      ensures v in old(orphans) ==> S() == old(S()) && (ok <==> !env.spams(v))
      decreases if v in orphans then 0 else 5, 0
    {
      ghost var s0 := S();
      SameLocks(s0, s0, q);
      if v !in orphans {
        orphans := orphans + {v};
        ghost var s1 := S();
        SameLocks(s0, s1, q);
        if v.tx in requests && EnoughOrphans(orphans, v.tx) {
          var _ := ProcessTxLockRequest(v.tx, env);
          SafeTrans(s0, s1, S(), q);
          return true;
        }
      }
      return !env.spams(v);
    }
  }

  lemma StillNotElsewhere(s: State, v: Vote)
    requires !VotedElsewhere(s, v)
    ensures !VotedElsewhere(Enter(s, v.outpoint, v.tx), v)
  {
    var e := Enter(s, v.outpoint, v.tx);
    forall t | t in VotedFor(e, v.outpoint) && t != v.tx ensures !HasVoted(e, t, v.outpoint, v.xnode) {
      assert t in VotedFor(s, v.outpoint);
    }
  }

  /** Inv and Grows do not look at orphan votes and remembered requests. */
  lemma SameLocks(s: State, s': State, q: Quorum)
    requires Inv(s, q) && s'.candidates == s.candidates && s'.voted == s.voted && s'.locked == s.locked
    ensures Safe(s, s', q)
  {
    forall tx | tx in s'.candidates ensures CandidateOk(s', q, tx) { assert CandidateOk(s, q, tx); }
    forall t, p, m | HasVoted(s', t, p, m) ensures HasVoted(s, t, p, m) {}
    forall t, p, m | HasVoted(s, t, p, m) ensures HasVoted(s', t, p, m) {}
    forall t, p | OutPointReady(s, t, p) ensures OutPointReady(s', t, p) {}
    LocksSurvive(s, s');
  }

  predicate IsReady(locks: Locks) { locks != map[] && forall o | o in locks :: |locks[o]| >= SIGNATURES_REQUIRED }

  predicate IsAllLocked(locks: Locks, locked: map<OutPoint, Tx>, tx: Tx) {
    locks != map[] && forall o | o in locks :: o in locked && locked[o] == tx
  }

  predicate Blocked(locked: map<OutPoint, Tx>, tx: Tx) { exists o | o in tx.vin :: o in locked && locked[o] != tx }

  // ----- whole runs -----

  /** A transaction that was locked once stays locked. */
  lemma LockedStaysLocked(s: State, s': State, q: Quorum, tx: Tx)
    requires Inv(s, q) && Safe(s, s', q) && IsLocked(s, tx)
    ensures IsLocked(s', tx)
  {
    assert CandidateOk(s, q, tx) && CandidateOk(s', q, tx);
    var o :| o in s.candidates[tx];
    assert o in s'.candidates[tx];
    forall p | p in s'.candidates[tx] ensures LockedTo(s', p, tx) {
      assert LockedTo(s, p, tx);
      assert LockedTo(s', p, s.locked[p]);
    }
  }

  /** No double spend can be locked: not even at different moments of a run. */
  lemma NoDoubleSpendLocked(s: State, s': State, q: Quorum, tx: Tx, tx': Tx, o: OutPoint)
    requires Inv(s, q) && Safe(s, s', q)
    requires IsLocked(s, tx) && IsLocked(s', tx') && o in tx.vin && o in tx'.vin
    ensures tx == tx'
  {
    LockedStaysLocked(s, s', q, tx);
    LockedAreDisjoint(s', q, tx, tx', o);
  }

  datatype Event = Request(tx: Tx, env: Env) | Voted(vote: Vote, env: Env) | Seen(tx: Tx)

  /** Any sequence of lock requests and votes, with any behaviour of the outside, is safe. */
  method Run(node: Node, events: seq<Event>)
    requires Inv(node.S(), node.q)
    modifies node
    ensures Safe(old(node.S()), node.S(), node.q)
  {
    SameLocks(node.S(), node.S(), node.q);
    for i := 0 to |events|
      invariant Safe(old(node.S()), node.S(), node.q)
    {
      ghost var s := node.S();
      match events[i] {
        case Request(tx, env) => var _ := node.ProcessTxLockRequest(tx, env);
        case Voted(vote, env) => var _ := node.ProcessTxLockVote(vote, env);
        case Seen(tx) => node.Remember(tx);
      }
      SafeTrans(old(node.S()), s, node.S(), node.q);
    }
  }
}
