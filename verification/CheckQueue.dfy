/**
 * The parallel verification queue of src/checkqueue.h as a transition system.
 *
 * Thread 0 is the master (the only thread that calls Add and Wait); threads 1, 2, ...
 * are workers.  One step is one critical section, one evaluation of one check outside
 * the mutex, or one change of a condition variable's wait set.  A run is any interleaving
 * of such steps.
 */
module CheckQueue {
  import opened Arithmetic

  /** A queued verification: `ok` is what its operator() returns. */
  datatype Check = Check(id: nat, ok: bool)

  /**
   * Where a thread is in Loop.
   * Active: outside the mutex, with the batch it took (empty before its first critical
   * section), the number of checks of that batch already processed, and its fOk.
   * Asleep: blocked in cond.wait.  Woken: notified (or spuriously awake), not yet holding the mutex.
   * Locked: inside the mutex (only within a step).
   */
  datatype Thread =
    | Outside
    | Active(batch: seq<Check>, pos: nat, fOk: bool)
    | Asleep
    | Woken
    | Locked

  /** A Wait that has returned: the checks added for it, those taken for it, and its result. */
  datatype Completed = Completed(checks: seq<Check>, taken: multiset<Check>, result: bool)

  /**
   * queue .. threads are the program's state.  added, done and completed record history:
   * the checks added since the last Wait returned, those of them whose batch has been
   * accounted for, and the Waits that have returned.
   */
  datatype State = State(
    queue: seq<Check>,
    nIdle: int,
    nTotal: int,
    fAllOk: bool,
    nTodo: int,
    fQuit: bool,
    nBatchSize: nat,
    threads: seq<Thread>,
    added: seq<Check>,
    done: multiset<Check>,
    completed: seq<Completed>)

  /**
   * Start(t): thread t calls Loop.  Lock(t): t enters the mutex at the top of the loop.
   * Relock(t): t re-acquires the mutex inside cond.wait.  Eval(t): t processes one check.
   * Spurious(t): t wakes without a notification.  Push(cs, pick): the master calls Add;
   * `pick` is the worker that notify_one chooses.  Quit: fQuit becomes true.
   */
  datatype Action =
    | Start(t: nat)
    | Lock(t: nat)
    | Relock(t: nat)
    | Eval(t: nat)
    | Spurious(t: nat)
    | Push(checks: seq<Check>, pick: nat)
    | Quit

  const MASTER: nat := 0

  function Init(workers: nat, nBatchSize: nat): State {
    State([], 0, 0, true, 0, false, nBatchSize, seq(workers + 1, _ => Outside), [], multiset{}, [])
  }

  // ----- the critical sections -----

  /** How many checks a thread takes from a non-empty queue. */
  function BatchSize(s: State): (n: nat)
    requires s.queue != []
    ensures 1 <= n <= |s.queue|
    ensures n > 1 ==> n <= s.nBatchSize
  {
    // the divisor is positive in every reachable state
    Max(1, Min(s.nBatchSize, Share(|s.queue|, s.nTotal + s.nIdle + 1)))
  }

  function Share(size: nat, sharers: int): (n: nat)
    ensures n <= size
  {
    if sharers > 0 then DivLe(size, sharers); size / sharers else 0
  }

  /** The last n elements of the queue, popped one by one from the back. */
  function PopBatch(queue: seq<Check>, n: nat): (batch: seq<Check>)
    requires n <= |queue|
    ensures |batch| == n
  {
    if n == 0 then [] else [queue[|queue| - 1]] + PopBatch(queue[..|queue| - 1], n - 1)
  }

  lemma {:induction false} PopBatchIsTail(queue: seq<Check>, n: nat)
    requires n <= |queue|
    ensures multiset(PopBatch(queue, n)) == multiset(queue[|queue| - n..])
  {
    if n > 0 {
      var last := |queue| - 1;
      PopBatchIsTail(queue[..last], n - 1);
      assert queue[|queue| - n..] == queue[..last][last - (n - 1)..] + [queue[last]];
    }
  }

  lemma PopBatchConserves(queue: seq<Check>, n: nat)
    requires n <= |queue|
    ensures multiset(queue) == multiset(queue[..|queue| - n]) + multiset(PopBatch(queue, n))
  {
    PopBatchIsTail(queue, n);
    assert queue == queue[..|queue| - n] + queue[|queue| - n..];
  }

  /** notify_one on condMaster: lost unless the master sleeps. */
  function NotifyMaster(s: State): State
    requires |s.threads| > 0
  {
    if s.threads[MASTER].Asleep? then s.(threads := s.threads[MASTER := Woken]) else s
  }

  /** Clean-up after the batch of thread t: its verdict and its size are accounted for. */
  function Account(s: State, t: nat): State
    requires t < |s.threads| && s.threads[t].Active?
  {
    s.(fAllOk := s.fAllOk && s.threads[t].fOk,
       nTodo := s.nTodo - |s.threads[t].batch|,
       done := s.done + multiset(s.threads[t].batch),
       threads := s.threads[t := Locked])
  }

  /** The first critical section of a thread counts it. */
  function Enlist(s: State, t: nat): State
    requires t < |s.threads|
  {
    s.(nTotal := s.nTotal + 1, threads := s.threads[t := Locked])
  }

  /** From acquiring the mutex at the top of the loop to `logically, the do loop starts here`. */
  function Merge(s: State, t: nat): State
    requires t < |s.threads| && s.threads[t].Active?
  {
    if |s.threads[t].batch| != 0 then
      var m := Account(s, t);
      if m.nTodo == 0 && t != MASTER then NotifyMaster(m) else m
    else
      Enlist(s, t)
  }

  /** cond.wait returns with the mutex held again. */
  function Reacquire(s: State, t: nat): State
    requires t < |s.threads|
  {
    s.(nIdle := s.nIdle - 1, threads := s.threads[t := Locked])
  }

  /** Thread t moves n checks to its own batch; fOk starts from the common verdict so far. */
  function Take(s: State, t: nat, n: nat): State
    requires t < |s.threads| && n <= |s.queue|
  {
    s.(queue := s.queue[..|s.queue| - n],
       threads := s.threads[t := Active(PopBatch(s.queue, n), 0, s.fAllOk)])
  }

  /** One test of `while (queue.empty())` by a thread that holds the mutex, and what follows it. */
  function Proceed(s: State, t: nat): State
    requires t < |s.threads| && s.threads[t].Locked?
  {
    if s.queue == [] then
      if (t == MASTER || s.fQuit) && s.nTodo == 0 then
        var left := s.(nTotal := s.nTotal - 1, threads := s.threads[t := Outside]);
        if t == MASTER then
          left.(fAllOk := true, added := [], done := multiset{},
                completed := s.completed + [Completed(s.added, s.done, s.fAllOk)])
        else
          left
      else
        s.(nIdle := s.nIdle + 1, threads := s.threads[t := Asleep])
    else
      Take(s, t, BatchSize(s))
  }

  function WakeAll(threads: seq<Thread>): (r: seq<Thread>)
    ensures |r| == |threads|
  {
    seq(|threads|, i requires 0 <= i < |threads| =>
      if i != MASTER && threads[i].Asleep? then Woken else threads[i])
  }

  predicate SleepingWorker(s: State, t: nat) {
    t != MASTER && t < |s.threads| && s.threads[t].Asleep?
  }

  function Add(s: State, checks: seq<Check>, pick: nat): State {
    s.(queue := s.queue + checks,
       nTodo := s.nTodo + |checks|,
       added := s.added + checks,
       threads := if |checks| == 1 then (if SleepingWorker(s, pick) then s.threads[pick := Woken] else s.threads)
                  else if |checks| > 1 then WakeAll(s.threads)
                  else s.threads)
  }

  // ----- steps and runs -----

  predicate Enabled(s: State, a: Action) {
    match a
    case Start(t) => t < |s.threads| && s.threads[t].Outside?
    case Lock(t) =>
      && t < |s.threads|
      && s.threads[t].Active?
      && s.threads[t].pos == |s.threads[t].batch|
    case Relock(t) => t < |s.threads| && s.threads[t].Woken?
    case Eval(t) => t < |s.threads| && s.threads[t].Active? && s.threads[t].pos < |s.threads[t].batch|
    case Spurious(t) => t < |s.threads| && s.threads[t].Asleep?
    case Push(_, pick) =>
      && |s.threads| > 0
      && s.threads[MASTER].Outside?
      // notify_one wakes some sleeping worker if there is one
      && ((exists t: nat | t < |s.threads| :: SleepingWorker(s, t)) ==> SleepingWorker(s, pick))
    case Quit => true
  }

  function Next(s: State, a: Action): State
    requires Enabled(s, a)
  {
    match a
    case Start(t) => s.(threads := s.threads[t := Active([], 0, true)])
    case Lock(t) => Proceed(Merge(s, t), t)
    case Relock(t) => Proceed(Reacquire(s, t), t)
    case Eval(t) =>
      var th := s.threads[t];
      s.(threads := s.threads[t := th.(pos := th.pos + 1, fOk := th.fOk && th.batch[th.pos].ok)])
    case Spurious(t) => s.(threads := s.threads[t := Woken])
    case Push(checks, pick) => Add(s, checks, pick)
    case Quit => s.(fQuit := true)
  }

  ghost predicate Runs(s: State, actions: seq<Action>)
    decreases |actions|
  {
    actions == [] || (Enabled(s, actions[0]) && Runs(Next(s, actions[0]), actions[1..]))
  }

  /** The state after a run. */
  ghost function Execute(s: State, actions: seq<Action>): State
    requires Runs(s, actions)
    decreases |actions|
  {
    if actions == [] then s else Execute(Next(s, actions[0]), actions[1..])
  }

  // ----- sums over the threads -----

  function BatchOf(th: Thread): seq<Check> { if th.Active? then th.batch else [] }
  function Held(th: Thread): nat { |BatchOf(th)| }
  function Idle(th: Thread): nat { if th.Asleep? || th.Woken? then 1 else 0 }
  /** 1 for a thread that nTotal counts: it has been through its first critical section. */
  function Counted(th: Thread): nat { if th.Locked? || Idle(th) == 1 || Held(th) > 0 then 1 else 0 }

  /** Over all threads: checks held in batches, threads counted by nTotal, threads counted by nIdle. */
  datatype Totals = Totals(held: nat, counted: nat, idle: nat)

  function Tally(threads: seq<Thread>): Totals {
    if threads == [] then Totals(0, 0, 0)
    else
      var rest := Tally(threads[1..]);
      Totals(Held(threads[0]) + rest.held, Counted(threads[0]) + rest.counted, Idle(threads[0]) + rest.idle)
  }

  function InFlight(threads: seq<Thread>): multiset<Check> {
    if threads == [] then multiset{} else multiset(BatchOf(threads[0])) + InFlight(threads[1..])
  }

  lemma {:induction false} TallyUpdate(threads: seq<Thread>, t: nat, th: Thread)
    requires t < |threads|
    ensures Tally(threads[t := th]).held == Tally(threads).held - Held(threads[t]) + Held(th)
    ensures Tally(threads[t := th]).counted == Tally(threads).counted - Counted(threads[t]) + Counted(th)
    ensures Tally(threads[t := th]).idle == Tally(threads).idle - Idle(threads[t]) + Idle(th)
  {
    if t == 0 {
      assert threads[0 := th][1..] == threads[1..];
    } else {
      assert threads[t := th][1..] == threads[1..][t - 1 := th];
      TallyUpdate(threads[1..], t - 1, th);
    }
  }

  lemma {:induction false} TallySame(a: seq<Thread>, b: seq<Thread>)
    requires |a| == |b|
    requires forall i :: 0 <= i < |a| ==> a[i] == b[i] || (a[i].Asleep? && b[i].Woken?)
    ensures Tally(a) == Tally(b) && InFlight(a) == InFlight(b)
  {
    if a != [] { TallySame(a[1..], b[1..]); }
  }

  lemma {:induction false} TallyAtLeast(threads: seq<Thread>, t: nat)
    requires t < |threads|
    ensures Held(threads[t]) <= Tally(threads).held
  {
    if t > 0 { TallyAtLeast(threads[1..], t - 1); }
  }

  lemma {:induction false} HeldWitness(threads: seq<Thread>) returns (t: nat)
    requires Tally(threads).held > 0
    ensures t < |threads| && Held(threads[t]) > 0
  {
    if Held(threads[0]) > 0 { t := 0; } else { t := HeldWitness(threads[1..]); t := t + 1; }
  }

  lemma {:induction false} InFlightUpdate(threads: seq<Thread>, t: nat, th: Thread)
    requires t < |threads|
    ensures InFlight(threads[t := th]) + multiset(BatchOf(threads[t])) == InFlight(threads) + multiset(BatchOf(th))
  {
    if t == 0 {
      assert threads[0 := th][1..] == threads[1..];
    } else {
      assert threads[t := th][1..] == threads[1..][t - 1 := th];
      InFlightUpdate(threads[1..], t - 1, th);
      var first := multiset(BatchOf(threads[0]));
      var rest, rest' := InFlight(threads[1..]), InFlight(threads[1..][t - 1 := th]);
      var b, b' := multiset(BatchOf(threads[t])), multiset(BatchOf(th));
      assert threads[1..][t - 1] == threads[t];
      assert rest' + b == rest + b';
      assert first + rest' + b == first + (rest' + b) == first + (rest + b') == first + rest + b';
    }
  }

  lemma {:induction false} InFlightSize(threads: seq<Thread>)
    ensures |InFlight(threads)| == Tally(threads).held
  {
    if threads != [] { InFlightSize(threads[1..]); }
  }

  // ----- the invariant -----

  ghost predicate AllOk(checks: multiset<Check>) { forall c | c in checks :: c.ok }
  ghost predicate SomeBad(checks: seq<Check>) { exists c | c in checks :: !c.ok }

  ghost predicate ThreadInv(s: State, th: Thread) {
    th.Active? ==>
      && th.pos <= |th.batch|
      && (th.batch == [] ==> th.fOk)
      && (th.fOk ==> forall i | 0 <= i < th.pos :: th.batch[i].ok)
      && (!th.fOk ==> SomeBad(s.added))
  }

  ghost predicate Counts(s: State) {
    && s.nTodo == |s.queue| + Tally(s.threads).held
    && s.nTotal == Tally(s.threads).counted
    && s.nIdle == Tally(s.threads).idle
  }

  ghost predicate Conserved(s: State) {
    multiset(s.added) == multiset(s.queue) + InFlight(s.threads) + s.done
  }

  ghost predicate Verdicts(s: State) {
    && (s.fAllOk ==> AllOk(s.done))
    && (!s.fAllOk ==> SomeBad(s.added))
    && (forall t | 0 <= t < |s.threads| :: ThreadInv(s, s.threads[t]))
  }

  /** What a completed Wait means: every check was taken exactly once and the result is their conjunction. */
  ghost predicate Correct(w: Completed) {
    && w.taken == multiset(w.checks)
    && (w.result <==> forall c | c in w.checks :: c.ok)
  }

  /** The invariant without the clause about a sleeping master. */
  ghost predicate BaseInv(s: State) {
    && |s.threads| > 0
    && Counts(s)
    && Conserved(s)
    && Verdicts(s)
    && (forall i | 0 <= i < |s.completed| :: Correct(s.completed[i]))
  }

  ghost predicate Inv(s: State) {
    && BaseInv(s)
    && (s.threads[MASTER].Asleep? ==> s.queue == [] && s.nTodo > 0)
  }

  // ----- every step keeps the invariant -----

  lemma Cancel(x: multiset<Check>, y: multiset<Check>, z: multiset<Check>)
    requires x + z == y + z
    ensures x == y
  {
    assert x == x + z - z;
    assert y == y + z - z;
  }

  /** What replacing thread t does to the checks in flight. */
  lemma Replaced(threads: seq<Thread>, t: nat, th: Thread)
    requires t < |threads|
    ensures BatchOf(threads[t]) == BatchOf(th) ==> InFlight(threads[t := th]) == InFlight(threads)
    ensures BatchOf(threads[t]) == [] ==> InFlight(threads[t := th]) == InFlight(threads) + multiset(BatchOf(th))
    ensures BatchOf(th) == [] ==> InFlight(threads[t := th]) + multiset(BatchOf(threads[t])) == InFlight(threads)
  {
    InFlightUpdate(threads, t, th);
    if BatchOf(threads[t]) == BatchOf(th) {
      Cancel(InFlight(threads[t := th]), InFlight(threads), multiset(BatchOf(th)));
    }
  }

  /** Waking threads changes no sum and no verdict. */
  lemma WakingKeepsInv(s: State, s': State)
    requires BaseInv(s) && s' == s.(threads := s'.threads) && |s'.threads| == |s.threads|
    requires forall i | 0 <= i < |s.threads| ::
      s'.threads[i] == s.threads[i] || (s.threads[i].Asleep? && s'.threads[i].Woken?)
    ensures BaseInv(s')
  {
    TallySame(s.threads, s'.threads);
    forall i | 0 <= i < |s'.threads| ensures ThreadInv(s', s'.threads[i]) {
      assert ThreadInv(s, s.threads[i]);
    }
  }

  lemma AccountKeepsInv(s: State, t: nat)
    requires BaseInv(s) && t < |s.threads| && s.threads[t].Active? && s.threads[t].pos == |s.threads[t].batch| > 0
    ensures BaseInv(Account(s, t))
  {
    var th := s.threads[t];
    var m := Account(s, t);
    TallyUpdate(s.threads, t, Locked);
    Replaced(s.threads, t, Locked);
    assert ThreadInv(s, th);
    assert InFlight(s.threads) + s.done == InFlight(m.threads) + m.done;
    assert Conserved(m);
    forall i | 0 <= i < |m.threads| ensures ThreadInv(m, m.threads[i]) {
      assert ThreadInv(s, s.threads[i]);
    }
    assert m.fAllOk ==> AllOk(m.done);
  }

  lemma EnlistKeepsInv(s: State, t: nat)
    requires Inv(s) && t < |s.threads| && s.threads[t].Active? && s.threads[t].batch == []
    ensures Inv(Enlist(s, t))
  {
    var m := Enlist(s, t);
    TallyUpdate(s.threads, t, Locked);
    Replaced(s.threads, t, Locked);
    forall i | 0 <= i < |m.threads| ensures ThreadInv(m, m.threads[i]) {
      assert ThreadInv(s, s.threads[i]);
    }
  }

  lemma NotifyKeepsInv(m: State)
    requires BaseInv(m)
    ensures BaseInv(NotifyMaster(m)) && !NotifyMaster(m).threads[MASTER].Asleep?
  {
    WakingKeepsInv(m, NotifyMaster(m));
  }

  /** If the master sleeps and this thread does not notify it, work is left. */
  lemma AccountLeavesWork(s: State, t: nat)
    requires Inv(s) && t < |s.threads| && s.threads[t].Active? && BaseInv(Account(s, t))
    ensures var m := Account(s, t); m.nTodo != 0 || t == MASTER ==> Inv(m)
  {
    var m := Account(s, t);
    assert Counts(m);
  }

  lemma MergeKeepsInv(s: State, t: nat)
    requires Inv(s) && t < |s.threads| && s.threads[t].Active? && s.threads[t].pos == |s.threads[t].batch|
    ensures Inv(Merge(s, t))
  {
    if s.threads[t].batch == [] {
      EnlistKeepsInv(s, t);
    } else {
      AccountKeepsInv(s, t);
      AccountLeavesWork(s, t);
      NotifyKeepsInv(Account(s, t));
    }
  }

  lemma Shift(all: multiset<Check>, queue: multiset<Check>, queue': multiset<Check>,
              flight: multiset<Check>, flight': multiset<Check>, batch: multiset<Check>, done: multiset<Check>)
    requires all == queue + flight + done && queue == queue' + batch && flight' == flight + batch
    ensures all == queue' + flight' + done
  {}

  lemma TakeConserves(s: State, t: nat, n: nat)
    requires Conserved(s) && t < |s.threads| && s.threads[t].Locked? && n <= |s.queue|
    ensures Conserved(Take(s, t, n))
  {
    var batch := PopBatch(s.queue, n);
    var p := Take(s, t, n);
    TakeInFlight(s, t, n);
    PopBatchConserves(s.queue, n);
    Shift(multiset(s.added), multiset(s.queue), multiset(p.queue),
          InFlight(s.threads), InFlight(p.threads), multiset(batch), s.done);
  }

  lemma TakeInFlight(s: State, t: nat, n: nat)
    requires t < |s.threads| && s.threads[t].Locked? && n <= |s.queue|
    ensures InFlight(Take(s, t, n).threads) == InFlight(s.threads) + multiset(PopBatch(s.queue, n))
  {
    Replaced(s.threads, t, Take(s, t, n).threads[t]);
  }

  lemma TakeKeepsInv(s: State, t: nat, n: nat)
    requires Inv(s) && t < |s.threads| && s.threads[t].Locked? && 0 < n <= |s.queue|
    ensures Inv(Take(s, t, n))
  {
    var p := Take(s, t, n);
    TallyUpdate(s.threads, t, p.threads[t]);
    TakeConserves(s, t, n);
    forall i | 0 <= i < |p.threads| ensures ThreadInv(p, p.threads[i]) {
      assert ThreadInv(s, s.threads[i]);
    }
  }

  lemma SleepKeepsInv(s: State, t: nat)
    requires Inv(s) && t < |s.threads| && s.threads[t].Locked? && s.queue == []
    requires !((t == MASTER || s.fQuit) && s.nTodo == 0)
    ensures Inv(Proceed(s, t))
  {
    var p := Proceed(s, t);
    TallyUpdate(s.threads, t, Asleep);
    Replaced(s.threads, t, Asleep);
    assert InFlight(p.threads) == InFlight(s.threads);
    forall i | 0 <= i < |p.threads| ensures ThreadInv(p, p.threads[i]) {
      assert ThreadInv(s, s.threads[i]);
    }
  }

  /** With nothing left to do, no thread holds a batch. */
  lemma NothingHeld(s: State)
    requires BaseInv(s) && s.nTodo == 0
    ensures s.queue == [] && InFlight(s.threads) == multiset{}
    ensures forall i | 0 <= i < |s.threads| :: Held(s.threads[i]) == 0
    ensures multiset(s.added) == s.done
  {
    InFlightSize(s.threads);
    forall i | 0 <= i < |s.threads| ensures Held(s.threads[i]) == 0 {
      TallyAtLeast(s.threads, i);
    }
  }

  lemma SameElements(a: seq<Check>, m: multiset<Check>)
    requires multiset(a) == m
    ensures forall c :: c in a <==> c in m
  {}

  lemma LeaveKeepsInv(s: State, t: nat)
    requires Inv(s) && t < |s.threads| && s.threads[t].Locked? && s.queue == []
    requires (t == MASTER || s.fQuit) && s.nTodo == 0
    ensures Inv(Proceed(s, t))
  {
    var p := Proceed(s, t);
    TallyUpdate(s.threads, t, Outside);
    Replaced(s.threads, t, Outside);
    assert InFlight(p.threads) == InFlight(s.threads);
    NothingHeld(s);
    forall i | 0 <= i < |p.threads| ensures ThreadInv(p, p.threads[i]) {
      assert ThreadInv(s, s.threads[i]);
      assert Held(s.threads[i]) == 0;
    }
    SameElements(s.added, s.done);
  }

  lemma ProceedKeepsInv(s: State, t: nat)
    requires Inv(s) && t < |s.threads| && s.threads[t].Locked?
    ensures Inv(Proceed(s, t))
  {
    if s.queue != [] {
      TakeKeepsInv(s, t, BatchSize(s));
    } else if (t == MASTER || s.fQuit) && s.nTodo == 0 {
      LeaveKeepsInv(s, t);
    } else {
      SleepKeepsInv(s, t);
    }
  }

  /** A step that only replaces thread t by one with the same contributions. */
  lemma ReplaceKeepsInv(s: State, t: nat, th: Thread)
    requires Inv(s) && t < |s.threads| && ThreadInv(s, th)
    requires BatchOf(th) == BatchOf(s.threads[t]) && !th.Asleep?
    requires Counted(th) == Counted(s.threads[t]) && Idle(th) == Idle(s.threads[t])
    ensures Inv(s.(threads := s.threads[t := th]))
  {
    var s' := s.(threads := s.threads[t := th]);
    TallyUpdate(s.threads, t, th);
    Replaced(s.threads, t, th);
    assert InFlight(s'.threads) == InFlight(s.threads);
    ThreadsKept(s, t, th);
  }

  lemma ThreadsKept(s: State, t: nat, th: Thread)
    requires Inv(s) && t < |s.threads| && ThreadInv(s, th)
    ensures var s' := s.(threads := s.threads[t := th]); forall i | 0 <= i < |s'.threads| :: ThreadInv(s', s'.threads[i])
  {
    var s' := s.(threads := s.threads[t := th]);
    forall i | 0 <= i < |s'.threads| ensures ThreadInv(s', s'.threads[i]) {
      assert ThreadInv(s, s.threads[i]);
    }
  }

  lemma StartKeepsInv(s: State, t: nat)
    requires Inv(s) && Enabled(s, Start(t))
    ensures Inv(Next(s, Start(t)))
  {
    ReplaceKeepsInv(s, t, Active([], 0, true));
  }

  lemma SpuriousKeepsInv(s: State, t: nat)
    requires Inv(s) && Enabled(s, Spurious(t))
    ensures Inv(Next(s, Spurious(t)))
  {
    ReplaceKeepsInv(s, t, Woken);
  }

  lemma RelockKeepsInv(s: State, t: nat)
    requires Inv(s) && Enabled(s, Relock(t))
    ensures Inv(Next(s, Relock(t)))
  {
    ReacquireKeepsInv(s, t);
    ProceedKeepsInv(Reacquire(s, t), t);
  }

  lemma ReacquireKeepsInv(s: State, t: nat)
    requires Inv(s) && t < |s.threads| && s.threads[t].Woken?
    ensures Inv(Reacquire(s, t))
  {
    var s' := Reacquire(s, t);
    TallyUpdate(s.threads, t, Locked);
    Replaced(s.threads, t, Locked);
    forall i | 0 <= i < |s'.threads| ensures ThreadInv(s', s'.threads[i]) {
      assert ThreadInv(s, s.threads[i]);
    }
  }

  lemma AddKeepsInv(s: State, checks: seq<Check>, pick: nat)
    requires Inv(s) && s.threads[MASTER].Outside?
    ensures Inv(Add(s, checks, pick))
  {
    var q := s.(queue := s.queue + checks, nTodo := s.nTodo + |checks|, added := s.added + checks);
    assert multiset(q.added) == multiset(s.added) + multiset(checks);
    forall i | 0 <= i < |q.threads| ensures ThreadInv(q, q.threads[i]) {
      assert ThreadInv(s, s.threads[i]);
    }
    WakingKeepsInv(q, Add(s, checks, pick));
  }

  lemma {:induction false} BatchInFlight(threads: seq<Thread>, t: nat)
    requires t < |threads|
    ensures multiset(BatchOf(threads[t])) <= InFlight(threads)
  {
    if t > 0 { BatchInFlight(threads[1..], t - 1); }
  }

  lemma EvalVerdict(s: State, t: nat)
    requires Inv(s) && Enabled(s, Eval(t))
    ensures var th := s.threads[t]; ThreadInv(s, th.(pos := th.pos + 1, fOk := th.fOk && th.batch[th.pos].ok))
  {
    var th := s.threads[t];
    assert ThreadInv(s, th);
    BatchInFlight(s.threads, t);
    var c := th.batch[th.pos];
    assert c in multiset(th.batch);
    assert c in multiset(s.added);
    assert c in s.added;
  }

  lemma QuitKeepsInv(s: State)
    requires Inv(s)
    ensures Inv(s.(fQuit := true))
  {
    forall i | 0 <= i < |s.threads| ensures ThreadInv(s.(fQuit := true), s.threads[i]) {
      assert ThreadInv(s, s.threads[i]);
    }
  }

  lemma LockKeepsInv(s: State, t: nat)
    requires Inv(s) && Enabled(s, Lock(t))
    ensures Inv(Next(s, Lock(t)))
  {
    MergeKeepsInv(s, t);
    ProceedKeepsInv(Merge(s, t), t);
  }

  lemma EvalKeepsInv(s: State, t: nat)
    requires Inv(s) && Enabled(s, Eval(t))
    ensures Inv(Next(s, Eval(t)))
  {
    var th := s.threads[t];
    EvalVerdict(s, t);
    ReplaceKeepsInv(s, t, th.(pos := th.pos + 1, fOk := th.fOk && th.batch[th.pos].ok));
  }

  lemma StepKeepsInv(s: State, a: Action)
    requires Inv(s) && Enabled(s, a)
    ensures Inv(Next(s, a))
  {
    match a
    case Start(t) => StartKeepsInv(s, t);
    case Lock(t) => LockKeepsInv(s, t);
    case Relock(t) => RelockKeepsInv(s, t);
    case Eval(t) => EvalKeepsInv(s, t);
    case Spurious(t) => SpuriousKeepsInv(s, t);
    case Push(checks, pick) => AddKeepsInv(s, checks, pick);
    case Quit => QuitKeepsInv(s);
  }

  lemma {:induction false} RunKeepsInv(s: State, actions: seq<Action>)
    requires Inv(s) && Runs(s, actions)
    ensures Inv(Execute(s, actions))
    decreases |actions|
  {
    if actions != [] {
      StepKeepsInv(s, actions[0]);
      RunKeepsInv(Next(s, actions[0]), actions[1..]);
    }
  }

  // ----- what holds in every reachable state -----

  ghost predicate NoneLocked(s: State) { forall t | 0 <= t < |s.threads| :: !s.threads[t].Locked? }

  ghost predicate SameRound(s: State, s': State) { s'.added == s.added && s'.completed == s.completed }

  /** Wait returned between s and s': the round was closed and logged. */
  ghost predicate Returned(s: State, s': State) {
    && s'.added == []
    && |s'.completed| == |s.completed| + 1
    && s'.completed[..|s.completed|] == s.completed
    && s'.completed[|s.completed|].checks == s.added
  }

  /** What one step does to the round: nothing, unless it is the master leaving Wait. */
  ghost predicate RoundEffect(s: State, s': State) {
    && |s'.threads| == |s.threads| > 0
    && (if !s.threads[MASTER].Outside? && s'.threads[MASTER].Outside? then Returned(s, s') else SameRound(s, s'))
  }

  lemma ProceedEffect(s: State, t: nat)
    requires t < |s.threads| && s.threads[t].Locked?
    ensures var p := Proceed(s, t);
            RoundEffect(s, p) && p.threads == s.threads[t := p.threads[t]] && !p.threads[t].Locked?
  {}

  lemma MergeEffect(s: State, t: nat)
    requires t < |s.threads| && s.threads[t].Active?
    ensures var m := Merge(s, t);
            && SameRound(s, m) && |m.threads| == |s.threads| && m.threads[t].Locked?
            && forall i | 0 <= i < |s.threads| && i != t ::
                 m.threads[i] == s.threads[i] || (s.threads[i].Asleep? && m.threads[i].Woken?)
  {}

  lemma LockEffect(s: State, t: nat)
    requires Enabled(s, Lock(t)) && NoneLocked(s)
    ensures NoneLocked(Next(s, Lock(t))) && RoundEffect(s, Next(s, Lock(t)))
    ensures s.threads[MASTER].Outside? ==> Next(s, Lock(t)).threads[MASTER].Outside?
  {
    var m := Merge(s, t);
    MergeEffect(s, t);
    ProceedEffect(m, t);
    assert SameRound(s, m);
  }

  lemma RelockEffect(s: State, t: nat)
    requires Enabled(s, Relock(t)) && NoneLocked(s)
    ensures NoneLocked(Next(s, Relock(t))) && RoundEffect(s, Next(s, Relock(t)))
    ensures s.threads[MASTER].Outside? ==> Next(s, Relock(t)).threads[MASTER].Outside?
  {
    var m := Reacquire(s, t);
    ProceedEffect(m, t);
    assert SameRound(s, m);
  }

  lemma StepUnlocks(s: State, a: Action)
    requires Enabled(s, a) && NoneLocked(s)
    ensures NoneLocked(Next(s, a)) && |Next(s, a).threads| == |s.threads|
  {
    match a
    case Lock(t) => LockEffect(s, t);
    case Relock(t) => RelockEffect(s, t);
    case _ =>
  }

  lemma {:induction false} RunUnlocks(s: State, actions: seq<Action>)
    requires Runs(s, actions) && NoneLocked(s)
    ensures NoneLocked(Execute(s, actions)) && |Execute(s, actions).threads| == |s.threads|
    decreases |actions|
  {
    if actions != [] {
      StepUnlocks(s, actions[0]);
      RunUnlocks(Next(s, actions[0]), actions[1..]);
    }
  }

  predicate IsIdle(s: State) { s.nTotal == s.nIdle && s.nTodo == 0 && s.fAllOk }

  lemma {:induction false} IdleWhenNothingHeld(threads: seq<Thread>)
    requires Tally(threads).held == 0 && forall t | 0 <= t < |threads| :: !threads[t].Locked?
    ensures Tally(threads).counted == Tally(threads).idle
  {
    if threads != [] { IdleWhenNothingHeld(threads[1..]); }
  }

  ghost predicate WorkerHoldsBatch(s: State) {
    exists t: nat | t < |s.threads| :: t != MASTER && BatchOf(s.threads[t]) != []
  }

  lemma SleepingMasterHasHelp(s: State)
    requires Inv(s) && s.threads[MASTER].Asleep?
    ensures WorkerHoldsBatch(s)
  {
    var t := HeldWitness(s.threads);
    assert t != MASTER && BatchOf(s.threads[t]) != [];
  }

  ghost predicate Safe(s: State) {
    && Inv(s)
    && NoneLocked(s)
    && (s.threads[MASTER].Asleep? ==> WorkerHoldsBatch(s))
    && (s.nTodo == 0 ==> s.nTotal == s.nIdle)
    && (s.threads[MASTER].Outside? && s.added == [] ==> IsIdle(s))
  }

  lemma InvIsSafe(s: State)
    requires Inv(s) && NoneLocked(s)
    ensures Safe(s)
  {
    if s.threads[MASTER].Asleep? { SleepingMasterHasHelp(s); }
    InFlightSize(s.threads);
    if s.nTodo == 0 { IdleWhenNothingHeld(s.threads); }
    if s.added == [] {
      assert |multiset(s.added)| == |multiset(s.queue)| + |InFlight(s.threads)| + |s.done|;
    }
  }

  lemma {:induction false} AllOutside(threads: seq<Thread>)
    requires forall t | 0 <= t < |threads| :: threads[t].Outside?
    ensures Tally(threads) == Totals(0, 0, 0) && InFlight(threads) == multiset{}
  {
    if threads != [] { AllOutside(threads[1..]); }
  }

  /** Safety: for any number of workers and any batch size, every interleaving reaches only safe states. */
  lemma EveryRunIsSafe(workers: nat, nBatchSize: nat, actions: seq<Action>)
    requires Runs(Init(workers, nBatchSize), actions)
    ensures Safe(Execute(Init(workers, nBatchSize), actions))
  {
    var init := Init(workers, nBatchSize);
    AllOutside(init.threads);
    RunKeepsInv(init, actions);
    RunUnlocks(init, actions);
    InvIsSafe(Execute(init, actions));
  }

  // ----- the completed Waits partition the checks that were added -----

  function Pushed(actions: seq<Action>): seq<Check> {
    if actions == [] then []
    else (if actions[0].Push? then actions[0].checks else []) + Pushed(actions[1..])
  }

  function Waited(completed: seq<Completed>): seq<Check> {
    if completed == [] then [] else Waited(completed[..|completed| - 1]) + completed[|completed| - 1].checks
  }

  /** All checks the state remembers, in the order they were added. */
  function Log(s: State): seq<Check> { Waited(s.completed) + s.added }

  lemma StepAccounts(s: State, a: Action)
    requires Enabled(s, a) && NoneLocked(s)
    ensures Log(Next(s, a)) == Log(s) + (if a.Push? then a.checks else [])
  {
    var s' := Next(s, a);
    match a
    case Lock(t) => LockEffect(s, t);
    case Relock(t) => RelockEffect(s, t);
    case Push(checks, _) =>
      assert Waited(s.completed) + (s.added + checks) == Waited(s.completed) + s.added + checks;
    case _ => assert SameRound(s, s');
  }

  lemma {:induction false} RunAccounts(s: State, actions: seq<Action>)
    requires Runs(s, actions) && NoneLocked(s)
    ensures Log(Execute(s, actions)) == Log(s) + Pushed(actions)
    decreases |actions|
  {
    if actions != [] {
      var a := actions[0];
      StepAccounts(s, a);
      StepUnlocks(s, a);
      RunAccounts(Next(s, a), actions[1..]);
      Associative(Log(s), if a.Push? then a.checks else [], Pushed(actions[1..]));
    }
  }

  lemma Associative(a: seq<Check>, b: seq<Check>, c: seq<Check>)
    ensures a + b + c == a + (b + c)
  {}

  /**
   * Over a whole run, every check the master ever added belongs to exactly one completed Wait
   * or to the current round, in order.
   */
  lemma EveryRunAccountsForChecks(workers: nat, nBatchSize: nat, actions: seq<Action>)
    requires Runs(Init(workers, nBatchSize), actions)
    ensures Log(Execute(Init(workers, nBatchSize), actions)) == Pushed(actions)
  {
    RunAccounts(Init(workers, nBatchSize), actions);
  }

  // ----- Wait returns -----

  /** Steps other than new work, new threads, shutdown and spurious wake-ups. */
  predicate Internal(a: Action) { a.Lock? || a.Relock? || a.Eval? }

  function Weight(th: Thread): int {
    match th
    case Outside => 0
    case Asleep => 0
    case Woken => 1
    case Locked => 0
    case Active(batch, pos, _) => 2 + |batch| - pos
  }

  function TotalWeight(threads: seq<Thread>): int {
    if threads == [] then 0 else Weight(threads[0]) + TotalWeight(threads[1..])
  }

  function Work(s: State): int { 4 * |s.queue| + TotalWeight(s.threads) }

  lemma {:induction false} WeightUpdate(threads: seq<Thread>, t: nat, th: Thread)
    requires t < |threads|
    ensures TotalWeight(threads[t := th]) == TotalWeight(threads) - Weight(threads[t]) + Weight(th)
  {
    if t == 0 {
      assert threads[0 := th][1..] == threads[1..];
    } else {
      assert threads[t := th][1..] == threads[1..][t - 1 := th];
      WeightUpdate(threads[1..], t - 1, th);
    }
  }

  lemma ProceedWork(s: State, t: nat)
    requires t < |s.threads| && s.threads[t].Locked?
    ensures Work(Proceed(s, t)) <= Work(s)
  {
    WeightUpdate(s.threads, t, Proceed(s, t).threads[t]);
  }

  lemma MergeWork(s: State, t: nat)
    requires Enabled(s, Lock(t))
    ensures Work(Merge(s, t)) < Work(s)
  {
    WeightUpdate(s.threads, t, Locked);
    var m := Account(s, t);
    WeightUpdate(m.threads, MASTER, Woken);
  }

  lemma StepConsumesWork(s: State, a: Action)
    requires Enabled(s, a) && Internal(a)
    ensures Work(Next(s, a)) < Work(s)
  {
    match a
    case Lock(t) =>
      MergeWork(s, t);
      ProceedWork(Merge(s, t), t);
    case Relock(t) =>
      WeightUpdate(s.threads, t, Locked);
      ProceedWork(Reacquire(s, t), t);
    case Eval(t) =>
      WeightUpdate(s.threads, t, Next(s, a).threads[t]);
  }

  lemma {:induction false} WorkNonNegative(s: State, threads: seq<Thread>)
    requires forall t | 0 <= t < |threads| :: ThreadInv(s, threads[t])
    ensures TotalWeight(threads) >= 0
  {
    if threads != [] {
      assert ThreadInv(s, threads[0]);
      WorkNonNegative(s, threads[1..]);
    }
  }

  lemma {:induction false} RunLengthBounded(s: State, actions: seq<Action>)
    requires Inv(s) && Runs(s, actions) && forall a | a in actions :: Internal(a)
    ensures |actions| <= Work(s)
    decreases |actions|
  {
    if actions == [] {
      WorkNonNegative(s, s.threads);
    } else {
      StepConsumesWork(s, actions[0]);
      StepKeepsInv(s, actions[0]);
      RunLengthBounded(Next(s, actions[0]), actions[1..]);
    }
  }

  predicate Stuck(s: State) {
    forall t: nat | t < |s.threads| :: !Enabled(s, Lock(t)) && !Enabled(s, Relock(t)) && !Enabled(s, Eval(t))
  }

  /** No deadlock and no lost wake-up: while the master is in Wait some thread can step. */
  lemma NeverStuckInWait(s: State)
    requires Safe(s) && !s.threads[MASTER].Outside?
    ensures !Stuck(s)
  {
    var t: nat := MASTER;
    if s.threads[MASTER].Asleep? {
      t :| t < |s.threads| && BatchOf(s.threads[t]) != [];
    }
    assert ThreadInv(s, s.threads[t]);
    assert Enabled(s, Lock(t)) || Enabled(s, Relock(t)) || Enabled(s, Eval(t));
  }

  predicate InWait(s: State) { |s.threads| > 0 && !s.threads[MASTER].Outside? }

  /** During Wait the round does not change until Wait returns. */
  lemma StepInWait(s: State, a: Action)
    requires Enabled(s, a) && Internal(a) && |s.threads| > 0 && NoneLocked(s)
    ensures NoneLocked(Next(s, a)) && RoundEffect(s, Next(s, a))
    ensures !InWait(s) ==> !InWait(Next(s, a))
  {
    match a
    case Lock(t) => LockEffect(s, t);
    case Relock(t) => RelockEffect(s, t);
    case Eval(t) => assert SameRound(s, Next(s, a));
  }

  lemma {:induction false} RunOutsideWait(s: State, actions: seq<Action>)
    requires Runs(s, actions) && |s.threads| > 0 && NoneLocked(s) && forall a | a in actions :: Internal(a)
    requires !InWait(s)
    ensures SameRound(s, Execute(s, actions)) && !InWait(Execute(s, actions))
    decreases |actions|
  {
    if actions != [] {
      StepInWait(s, actions[0]);
      RunOutsideWait(Next(s, actions[0]), actions[1..]);
    }
  }

  lemma {:induction false} RunInWait(s: State, actions: seq<Action>)
    requires Runs(s, actions) && |s.threads| > 0 && NoneLocked(s) && forall a | a in actions :: Internal(a)
    requires InWait(s)
    ensures var e := Execute(s, actions); if InWait(e) then SameRound(s, e) else Returned(s, e)
    decreases |actions|
  {
    if actions != [] {
      var s' := Next(s, actions[0]);
      StepInWait(s, actions[0]);
      if InWait(s') {
        RunInWait(s', actions[1..]);
      } else {
        RunOutsideWait(s', actions[1..]);
      }
    }
  }

  /**
   * Termination and result of Wait.  From any reachable state in which the master is inside
   * Wait, internal steps can be taken in any order, but only Work(s) of them; and when none is
   * left, Wait has returned the conjunction of exactly the checks of this round.
   */
  lemma WaitReturnsConjunction(workers: nat, nBatchSize: nat, before: seq<Action>, actions: seq<Action>)
    requires Runs(Init(workers, nBatchSize), before)
    requires InWait(Execute(Init(workers, nBatchSize), before))
    requires Runs(Execute(Init(workers, nBatchSize), before), actions)
    requires forall a | a in actions :: Internal(a)
    ensures var s := Execute(Init(workers, nBatchSize), before);
            var e := Execute(s, actions);
            && |actions| <= Work(s)
            && (Stuck(e) ==>
                  && !InWait(e)
                  && |e.completed| == |s.completed| + 1
                  && e.completed[|s.completed|].checks == s.added
                  && (e.completed[|s.completed|].result <==> forall c | c in s.added :: c.ok))
  {
    var s := Execute(Init(workers, nBatchSize), before);
    var e := Execute(s, actions);
    EveryRunIsSafe(workers, nBatchSize, before);
    RunLengthBounded(s, actions);
    RunKeepsInv(s, actions);
    RunUnlocks(s, actions);
    InvIsSafe(e);
    RunInWait(s, actions);
    if InWait(e) { NeverStuckInWait(e); }
    if Stuck(e) { assert Correct(e.completed[|s.completed|]); }
  }
}
