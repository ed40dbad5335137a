/**
 * Check_ of src/addrman.cpp, with all its conditions: those on the structure, which AddrMan.Check
 * collects, those on time stamps and the key, and the lookup that takes an absent address for 0.
 */
module AddrManCheck {
  import opened AddrMan
  import opened Collections

  const NULL_KEY: Key := 0

  /** mapAddr[ip] of a std::map: an absent address is entered with 0. */
  function Lookup(mapAddr: map<Ip, int>, ip: Ip): int { if ip in mapAddr then mapAddr[ip] else 0 }

  /** The time stamps of an entry. */
  predicate Stamped(i: Info) { i.nLastTry >= 0 && i.nLastSuccess >= 0 && (i.fInTried ==> i.nLastSuccess != 0) }

  predicate Counts(i: Info) { if i.fInTried then i.nRefCount == 0 else 1 <= i.nRefCount <= NEW_PER_ADDRESS }

  predicate Placed(i: Info, n: int, order: seq<int>) { 0 <= i.nRandomPos < |order| && order[i.nRandomPos] == n }

  predicate EntryPasses(s: State, n: int)
    requires n in s.mapInfo
  {
    var i := s.mapInfo[n];
    Stamped(i) && Counts(i) && Placed(i, n, s.vRandom) && Lookup(s.mapAddr, i.service.ip) == n
  }

  ghost predicate EntriesPass(s: State) { forall n | n in s.mapInfo :: EntryPasses(s, n) }

  /** What Check_ accepts. */
  ghost predicate Passes(s: State) {
    && |s.vRandom| == s.nTried + s.nNew && EntriesPass(s) && Counted(s, 0)
    && TablesPass(s) && s.nKey != NULL_KEY
  }

  ghost predicate TablesPass(s: State) {
    TriedOk(s.mapInfo, s.vvTried, s.h, s.nKey) && NewOk(s.mapInfo, s.vvNew, s.h, s.nKey, {})
  }

  ghost predicate AllStamped(info: map<int, Info>) { forall n | n in info :: Stamped(info[n]) }

  /** A manager whose structure is in order passes exactly when its stamps and its key are. */
  lemma PassesIff(s: State)
    requires Check(s)
    ensures Passes(s) <==> AllStamped(s.mapInfo) && s.nKey != NULL_KEY
  {
    OrderSize(s);
    forall n | n in s.mapInfo ensures EntryPasses(s, n) <==> Stamped(s.mapInfo[n]) {
      assert RefOk(s.mapInfo[n], n in {});
    }
    if Passes(s) {
      forall n | n in s.mapInfo ensures Stamped(s.mapInfo[n]) { assert EntryPasses(s, n); }
    }
  }

  // ----- stamps over whole runs -----

  /** The stamps of all entries are in order, and those in extra may become tried. */
  ghost predicate StampedFor(info: map<int, Info>, extra: set<int>) {
    AllStamped(info) && forall n | n in info && n in extra :: info[n].nLastSuccess > 0
  }

  /** The key is the same, and every entry of r is one of s with the same stamps, and tried only if it was. */
  ghost predicate StampsFrom(s: State, r: State) {
    r.nKey == s.nKey && forall n | n in r.mapInfo :: n in s.mapInfo && SameStamps(s.mapInfo[n], r.mapInfo[n])
  }

  predicate SameStamps(i: Info, i': Info) {
    i'.nLastTry == i.nLastTry && i'.nLastSuccess == i.nLastSuccess && (i'.fInTried ==> i.fInTried)
  }

  lemma StampsKept(s: State, r: State, extra: set<int>)
    requires StampsFrom(s, r) && StampedFor(s.mapInfo, extra)
    ensures StampedFor(r.mapInfo, extra)
  {
    forall n | n in r.mapInfo ensures Stamped(r.mapInfo[n]) && (n in extra ==> r.mapInfo[n].nLastSuccess > 0) {
      assert SameStamps(s.mapInfo[n], r.mapInfo[n]) && Stamped(s.mapInfo[n]);
    }
  }

  lemma StampsFromTrans(s: State, r: State, q: State)
    requires StampsFrom(s, r) && StampsFrom(r, q)
    ensures StampsFrom(s, q)
  {
    forall n | n in q.mapInfo ensures n in s.mapInfo && SameStamps(s.mapInfo[n], q.mapInfo[n]) {
      assert SameStamps(r.mapInfo[n], q.mapInfo[n]) && SameStamps(s.mapInfo[n], r.mapInfo[n]);
    }
  }

  /** Deleting changes other entries in their position only. */
  lemma DeleteKeepsEntries(s: State, id: int)
    requires Ordered(s.mapInfo, s.vRandom) && Deletable(s, id)
    ensures forall n | n in Delete(s, id).mapInfo :: n in s.mapInfo && SameEntry(s.mapInfo[n], Delete(s, id).mapInfo[n])
  {
    DeleteMovesToEnd(s, id);
    SwapKeepsEntries(s, s.mapInfo[id].nRandomPos, |s.vRandom| - 1);
    var w := ToEnd(s, id);
    forall n | n in Delete(s, id).mapInfo ensures n in s.mapInfo && SameEntry(s.mapInfo[n], Delete(s, id).mapInfo[n]) {
      assert n in w.mapInfo && Delete(s, id).mapInfo[n] == w.mapInfo[n];
    }
  }

  lemma SwapKeepsEntries(s: State, i: int, j: int)
    requires Ordered(s.mapInfo, s.vRandom) && 0 <= i < |s.vRandom| && 0 <= j < |s.vRandom|
    ensures forall n | n in SwapRandom(s, i, j).mapInfo ::
      n in s.mapInfo && SameEntry(s.mapInfo[n], SwapRandom(s, i, j).mapInfo[n])
  {}

  lemma DeleteStamps(s: State, id: int)
    requires Ordered(s.mapInfo, s.vRandom) && Deletable(s, id)
    ensures StampsFrom(s, Delete(s, id))
  {
    DeleteKeepsEntries(s, id);
    forall n | n in Delete(s, id).mapInfo ensures n in s.mapInfo && SameStamps(s.mapInfo[n], Delete(s, id).mapInfo[n]) {
      assert SameEntry(s.mapInfo[n], Delete(s, id).mapInfo[n]);
    }
  }

  lemma ClearNewStamps(s: State, t: Slot)
    requires Ordered(s.mapInfo, s.vRandom) && Clearable(s, t)
    ensures StampsFrom(s, ClearNew(s, t))
  {
    if t in s.vvNew {
      var d := DropRef(s, t);
      assert StampsFrom(s, d);
      if d.mapInfo[s.vvNew[t]].nRefCount == 0 {
        DeleteStamps(d, s.vvNew[t]);
        StampsFromTrans(s, d, Delete(d, s.vvNew[t]));
      }
    }
  }

  lemma RelistStamps(s: State, n: int)
    requires Relist.requires(s, n)
    ensures StampsFrom(s, Relist(s, n))
  {
    var c := ClearNew(s, HomeSlot(s, n));
    ClearNewStamps(s, HomeSlot(s, n));
    assert StampsFrom(c, Relist(s, n));
    StampsFromTrans(s, c, Relist(s, n));
  }

  lemma EvictStamps(s: State, t: Slot, limbo: set<int>, off: int)
    requires Inv(s, limbo, off) && t in s.vvTried
    ensures StampsFrom(s, Evict(s, t, limbo, off))
  {
    UntryKeepsInv(s, t, limbo, off);
    UntryStamps(s, t);
    RelistAfterStamps(s, Untry(s, t), s.vvTried[t], limbo + {s.vvTried[t]}, off - 1);
  }

  lemma UntryStamps(s: State, t: Slot)
    requires t in s.vvTried && s.vvTried[t] in s.mapInfo
    ensures StampsFrom(s, Untry(s, t))
  {}

  lemma RelistAfterStamps(s: State, r: State, n: int, limbo: set<int>, off: int)
    requires Inv(r, limbo, off) && n in limbo && StampsFrom(s, r)
    ensures Relist.requires(r, n) && StampsFrom(s, Relist(r, n))
  {
    RelistKeepsInv(r, n, limbo, off);
    RelistStamps(r, n);
    StampsFromTrans(s, r, Relist(r, n));
  }

  lemma MakeRoomStamps(s: State, id: int)
    requires Check(s) && id in s.mapInfo && !s.mapInfo[id].fInTried
    ensures StampsFrom(s, MakeRoom(s, id))
  {
    UnlistKeepsInv(s, id);
    var u, t := Unlist(s, id), TriedSlot(s.h, s.nKey, s.mapInfo[id].service);
    assert StampsFrom(s, u);
    if t in u.vvTried {
      EvictStamps(u, t, {id}, -1);
      StampsFromTrans(s, u, Evict(u, t, {id}, -1));
    }
  }

  lemma MakeTriedStamps(s: State, id: int)
    requires Check(s) && id in s.mapInfo && !s.mapInfo[id].fInTried && StampedFor(s.mapInfo, {id})
    ensures AllStamped(MakeTried(s, id).mapInfo) && MakeTried(s, id).nKey == s.nKey
  {
    MakeRoomKeepsInv(s, id);
    MakeRoomStamps(s, id);
    StampsKept(s, MakeRoom(s, id), {id});
    EnterStamps(MakeRoom(s, id), id, TriedSlot(s.h, s.nKey, s.mapInfo[id].service));
  }

  lemma EnterStamps(s: State, id: int, t: Slot)
    requires id in s.mapInfo && t !in s.vvTried && StampedFor(s.mapInfo, {id})
    ensures AllStamped(EnterTried(s, id, t).mapInfo) && EnterTried(s, id, t).nKey == s.nKey
  {}

  lemma GoodStamps(s: State, a: Service, nTime: int)
    requires Check(s) && AllStamped(s.mapInfo) && (Known(s, a) ==> nTime > 0)
    ensures AllStamped(Good(s, a, nTime).mapInfo) && Good(s, a, nTime).nKey == s.nKey
  {
    MarkGoodKeepsCheck(s, a, nTime);
    var g := MarkGood(s, a, nTime);
    if Known(s, a) {
      var n := s.mapAddr[a.ip];
      assert StampedFor(g.mapInfo, {n});
      if !g.mapInfo[n].fInTried && OwnSlots(g, n) != {} { MakeTriedStamps(g, n); }
    }
  }

  lemma SettleStamps(s: State, id: int, t: Slot, now: int, limbo: set<int>)
    requires Settles(s, id, t, limbo)
    ensures StampsFrom(s, Settle(s, id, t, now, limbo))
  {
    SettleFacts(s, id, t, limbo);
    if InSlot(s.vvNew, t, id) {
    } else if Inserts(s, id, t, now) {
      InsertStamps(s, id, t);
    } else if s.mapInfo[id].nRefCount == 0 {
      DeleteStamps(s, id);
    }
  }

  lemma InsertStamps(s: State, id: int, t: Slot)
    requires Ordered(s.mapInfo, s.vRandom) && id in s.mapInfo && Clearable(s, t) && (t in s.vvNew ==> s.vvNew[t] != id)
    ensures id in ClearNew(s, t).mapInfo && StampsFrom(s, AddRef(ClearNew(s, t), id, t))
  {
    ClearNewLeavesOthers(s, t, id);
    var c := ClearNew(s, t);
    ClearNewStamps(s, t);
    assert StampsFrom(c, AddRef(c, id, t));
    StampsFromTrans(s, c, AddRef(c, id, t));
  }

  lemma AddStamps(s: State, a: Address, source: Ip, nTimePenalty: int, now: int, coin: nat)
    requires Check(s) && AllStamped(s.mapInfo)
    ensures AllStamped(Add(s, a, source, nTimePenalty, now, coin).state.mapInfo)
    ensures Add(s, a, source, nTimePenalty, now, coin).state.nKey == s.nKey
  {
    if a.routable {
      if a.service.ip in s.mapAddr {
        AddKnownStamps(s, a, source, nTimePenalty, now, coin);
      } else {
        AddUnknownStamps(s, a, source, nTimePenalty, now);
      }
    }
  }

  lemma AddUnknownStamps(s: State, a: Address, source: Ip, nTimePenalty: int, now: int)
    requires Check(s) && AllStamped(s.mapInfo) && a.service.ip !in s.mapAddr
    ensures AllStamped(AddUnknown(s, a, source, nTimePenalty, now).mapInfo)
    ensures AddUnknown(s, a, source, nTimePenalty, now).nKey == s.nKey
  {
    IntroduceKeepsInv(s, a, source, nTimePenalty);
    NewSlotRange(s.h, s.nKey, a.service, source);
    var i, t := Introduce(s, a, source, nTimePenalty), NewSlot(s.h, s.nKey, a.service, source);
    assert StampedFor(i.mapInfo, {});
    SettleStamps(i, s.nIdCount, t, now, {s.nIdCount});
    StampsKept(i, AddUnknown(s, a, source, nTimePenalty, now), {});
  }

  lemma AddKnownStamps(s: State, a: Address, source: Ip, nTimePenalty: int, now: int, coin: nat)
    requires Check(s) && AllStamped(s.mapInfo) && a.service.ip in s.mapAddr
    ensures AllStamped(AddKnown(s, a, source, nTimePenalty, now, coin).mapInfo)
    ensures AddKnown(s, a, source, nTimePenalty, now, coin).nKey == s.nKey
  {
    var n := s.mapAddr[a.service.ip];
    var i := Refresh(s.mapInfo[n], a, nTimePenalty, now);
    var r := SetInfo(s, n, i);
    assert StampedFor(r.mapInfo, {});
    if Multiplies(i, a, coin) {
      StatsKeepInv(s, n, i, {}, 0);
      assert RefOk(i, n in {});
      NewSlotRange(s.h, s.nKey, i.service, source);
      SettleStamps(r, n, NewSlot(s.h, s.nKey, i.service, source), now, {});
      StampsKept(r, AddKnown(s, a, source, nTimePenalty, now, coin), {});
    }
  }

  lemma GetAddrStamps(s: State, rnd: nat -> nat, now: int)
    requires Check(s) && AllStamped(s.mapInfo)
    ensures AllStamped(GetAddr(s, rnd, now).state.mapInfo) && GetAddr(s, rnd, now).state.nKey == s.nKey
  {
    GetAddrReorders(s, 0, [], Wanted(s), rnd, now);
    var r := GetAddr(s, rnd, now).state;
    forall n | n in r.mapInfo ensures Stamped(r.mapInfo[n]) {
      assert SameEntry(s.mapInfo[n], r.mapInfo[n]) && Stamped(s.mapInfo[n]);
    }
  }

  /** The time given for an entry is a possible one: positive for Good_, not negative for Attempt_. */
  predicate Timely(s: State, op: Op) {
    match op
    case OpGood(a, nTime) => Known(s, a) ==> nTime > 0
    case OpAttempt(a, _, nTime) => Known(s, a) ==> nTime >= 0
    case _ => true
  }

  lemma TimelyStamps(s: State, op: Op)
    requires Check(s) && AllStamped(s.mapInfo) && Timely(s, op)
    ensures AllStamped(Step(s, op).mapInfo) && Step(s, op).nKey == s.nKey
  {
    match op
    case OpAdd(a, source, nTimePenalty, now, coin) => AddStamps(s, a, source, nTimePenalty, now, coin);
    case OpGood(a, nTime) => GoodStamps(s, a, nTime);
    case OpAttempt(a, fCountFailure, nTime) =>
    case OpConnected(a, nTime) =>
    case OpSetServices(a, nServices) =>
    case OpGetAddr(rnd, now) => GetAddrStamps(s, rnd, now);
  }

  /** A time that is not possible shows up in the entry it is given for. */
  lemma UntimelyStamps(s: State, op: Op)
    requires Check(s) && !Timely(s, op)
    ensures !AllStamped(Step(s, op).mapInfo)
  {
    var r := Step(s, op);
    match op
    case OpGood(a, nTime) =>
      var n := s.mapAddr[a.ip];
      GoodMarks(s, a, nTime);
      GoodMakesTried(s, a, nTime);
      assert !Stamped(r.mapInfo[n]);
    case OpAttempt(a, fCountFailure, nTime) =>
      var n := s.mapAddr[a.ip];
      assert n in r.mapInfo && !Stamped(r.mapInfo[n]);
  }

  lemma GoodMarks(s: State, a: Service, nTime: int)
    requires Check(s) && Known(s, a)
    ensures s.mapAddr[a.ip] in Good(s, a, nTime).mapInfo ==>
              Good(s, a, nTime).mapInfo[s.mapAddr[a.ip]].nLastSuccess == nTime
  {
    MarkGoodKeepsCheck(s, a, nTime);
    var g, n := MarkGood(s, a, nTime), s.mapAddr[a.ip];
    if !g.mapInfo[n].fInTried && OwnSlots(g, n) != {} {
      MakeRoomKeepsInv(g, n);
      MakeRoomStamps(g, n);
      assert SameStamps(g.mapInfo[n], MakeRoom(g, n).mapInfo[n]);
    }
  }

  /** After an operation Check_ passes exactly when it passed before and the operation got a possible time. */
  lemma StepPassesIff(s: State, op: Op)
    requires Check(s) && Passes(s)
    ensures Passes(Step(s, op)) <==> Timely(s, op)
  {
    StepKeepsCheck(s, op);
    PassesIff(s);
    PassesIff(Step(s, op));
    if Timely(s, op) { TimelyStamps(s, op); } else { UntimelyStamps(s, op); }
  }

  /** Every operation of a run got a possible time. */
  ghost predicate TimelyRun(key: Key, h: Hashes, ops: seq<Op>) {
    forall i | 0 <= i < |ops| :: Timely(After(key, h, ops[..i]), ops[i])
  }

  lemma TimelyBefore(key: Key, h: Hashes, ops: seq<Op>, n: nat)
    requires n < |ops| && TimelyRun(key, h, ops)
    ensures TimelyRun(key, h, ops[..n]) && Timely(After(key, h, ops[..n]), ops[n])
  {
    forall i | 0 <= i < n ensures Timely(After(key, h, ops[..n][..i]), ops[..n][i]) {
      assert ops[..n][..i] == ops[..i];
      assert Timely(After(key, h, ops[..i]), ops[i]);
    }
  }

  /** Every run from the empty manager whose times are possible ends in a manager that Check_ accepts. */
  lemma {:induction false} RunPasses(key: Key, h: Hashes, ops: seq<Op>)
    requires key != NULL_KEY && TimelyRun(key, h, ops)
    ensures Passes(After(key, h, ops))
  {
    if ops == [] {
      PassesIff(Empty(key, h));
    } else {
      var n := |ops| - 1;
      TimelyBefore(key, h, ops, n);
      RunPasses(key, h, ops[..n]);
      StepPassesIff(After(key, h, ops[..n]), ops[n]);
    }
  }

  ghost predicate AlwaysPasses(key: Key, h: Hashes, ops: seq<Op>) {
    forall i | 0 <= i <= |ops| :: Passes(After(key, h, ops[..i]))
  }

  lemma StartPasses(key: Key, h: Hashes, ops: seq<Op>)
    requires AlwaysPasses(key, h, ops)
    ensures key != NULL_KEY
  {
    assert ops[..0] == [] && Passes(After(key, h, ops[..0]));
  }

  lemma PrefixPasses(key: Key, h: Hashes, ops: seq<Op>, i: nat)
    requires i <= |ops| && key != NULL_KEY && TimelyRun(key, h, ops)
    ensures Passes(After(key, h, ops[..i]))
  {
    if i < |ops| { TimelyBefore(key, h, ops, i); } else { assert ops[..i] == ops; }
    RunPasses(key, h, ops[..i]);
  }

  lemma PassesThenTimely(key: Key, h: Hashes, ops: seq<Op>, i: nat)
    requires i < |ops| && AlwaysPasses(key, h, ops)
    ensures Timely(After(key, h, ops[..i]), ops[i])
  {
    assert ops[..i + 1][..i] == ops[..i];
    assert Passes(After(key, h, ops[..i])) && Passes(After(key, h, ops[..i + 1]));
    StepPassesIff(After(key, h, ops[..i]), ops[i]);
  }

  /** Check_ accepts every state of a run exactly when the key is not null and every operation got a possible time. */
  lemma RunPassesIff(key: Key, h: Hashes, ops: seq<Op>)
    ensures AlwaysPasses(key, h, ops) <==> key != NULL_KEY && TimelyRun(key, h, ops)
  {
    if AlwaysPasses(key, h, ops) {
      StartPasses(key, h, ops);
      forall i | 0 <= i < |ops| ensures Timely(After(key, h, ops[..i]), ops[i]) { PassesThenTimely(key, h, ops, i); }
    }
    if key != NULL_KEY && TimelyRun(key, h, ops) {
      forall i | 0 <= i <= |ops| ensures Passes(After(key, h, ops[..i])) { PrefixPasses(key, h, ops, i); }
    }
  }

  // ----- the loops over the tables -----

  /** The slots that the two nested loops visit before position i of bucket n. */
  predicate Earlier(u: Slot, n: int, i: int) { u.bucket < n || (u.bucket == n && u.pos < i) }

  ghost function Part(t: Table, n: int, i: int): Table { map u | u in t && Earlier(u, n, i) :: t[u] }

  /** A table has no slots outside the given number of buckets. */
  ghost predicate Fits(t: Table, buckets: nat) {
    forall u | u in t :: 0 <= u.bucket < buckets && 0 <= u.pos < BUCKET_SIZE
  }

  lemma PartStarts(t: Table, buckets: nat)
    requires Fits(t, buckets)
    ensures Part(t, 0, 0) == map[]
  {}

  lemma PartNextBucket(t: Table, buckets: nat, n: int)
    requires Fits(t, buckets)
    ensures Part(t, n, BUCKET_SIZE) == Part(t, n + 1, 0)
  {}

  lemma PartStep(t: Table, n: int, i: int)
    ensures Slot(n, i) !in Part(t, n, i)
    ensures Part(t, n, i + 1) == if Slot(n, i) in t then Part(t, n, i)[Slot(n, i) := t[Slot(n, i)]] else Part(t, n, i)
  {}

  /** The slots seen so far are right, and left are the tried entries not met yet. */
  ghost predicate TriedSeen(s: State, part: Table, left: set<int>) {
    && (forall u | u in part :: TriedSlotOk(s.mapInfo, part[u], s.h, s.nKey, u))
    && left == set n | n in Tried(s.mapInfo) && !InSlot(part, TriedSlot(s.h, s.nKey, s.mapInfo[n].service), n)
  }

  lemma TriedSeenNext(s: State, part: Table, left: set<int>, u: Slot, n: int)
    requires TriedSeen(s, part, left) && u !in part
    ensures n in left && u == TriedSlot(s.h, s.nKey, s.mapInfo[n].service) <==> TriedSlotOk(s.mapInfo, n, s.h, s.nKey, u)
    ensures TriedSlotOk(s.mapInfo, n, s.h, s.nKey, u) ==> TriedSeen(s, part[u := n], left - {n})
  {}

  lemma TriedSeenAll(s: State, left: set<int>)
    requires TriedSeen(s, s.vvTried, left)
    ensures left == {} <==> TriedOk(s.mapInfo, s.vvTried, s.h, s.nKey)
  {
    if left == {} {
      forall n | n in s.mapInfo && s.mapInfo[n].fInTried
        ensures InSlot(s.vvTried, TriedSlot(s.h, s.nKey, s.mapInfo[n].service), n)
      {
        assert n in Tried(s.mapInfo) && n !in left;
      }
    }
  }

  /** How many references are still to come for an entry. */
  ghost function Due(info: map<int, Info>, part: Table, n: int): int
    requires n in info
  {
    info[n].nRefCount - |SlotsOf(part, n)|
  }

  /** The slots seen so far are right, and rest counts the references still to come. */
  ghost predicate NewSeen(s: State, part: Table, rest: map<int, int>) {
    && (forall u | u in part :: NewSlotOk(s.mapInfo, part[u], s.h, s.nKey, u) && !s.mapInfo[part[u]].fInTried)
    && (forall n | n in rest :: n in s.mapInfo && !s.mapInfo[n].fInTried && rest[n] == Due(s.mapInfo, part, n) > 0)
    && (forall n | n in s.mapInfo && !s.mapInfo[n].fInTried && n !in rest :: Due(s.mapInfo, part, n) == 0)
  }

  /** --mapNew[n], erasing it at zero. */
  function Met(rest: map<int, int>, n: int): map<int, int>
    requires n in rest
  {
    if rest[n] == 1 then rest - {n} else rest[n := rest[n] - 1]
  }

  lemma NewSeenNext(s: State, part: Table, rest: map<int, int>, u: Slot, n: int)
    requires NewSeen(s, part, rest) && u !in part && 0 <= u.bucket < NEW_BUCKETS
    requires n in rest && u == NewSlotIn(s.h, s.nKey, s.mapInfo[n].service, u.bucket)
    ensures NewSeen(s, part[u := n], Met(rest, n))
  {
    forall m | m in s.mapInfo ensures Due(s.mapInfo, part[u := n], m) == Due(s.mapInfo, part, m) - if m == n then 1 else 0 {
      PutSlots(part, u, n, m);
    }
  }

  /** An occupant that is not due, or in the wrong place, is a fault of the table. */
  lemma NewSeenFault(s: State, part: Table, rest: map<int, int>, u: Slot, n: int)
    requires NewSeen(s, part, rest) && u !in part && u in s.vvNew && s.vvNew[u] == n
    requires forall w | w in part :: InSlot(s.vvNew, w, part[w])
    requires n !in rest || u != NewSlotIn(s.h, s.nKey, s.mapInfo[n].service, u.bucket)
    ensures !NewOk(s.mapInfo, s.vvNew, s.h, s.nKey, {})
  {
    if NewOk(s.mapInfo, s.vvNew, s.h, s.nKey, {}) {
      assert NewSlotOk(s.mapInfo, n, s.h, s.nKey, u) && RefOk(s.mapInfo[n], n in {});
      assert SlotsOf(part, n) + {u} <= SlotsOf(s.vvNew, n);
      Larger(SlotsOf(part, n), SlotsOf(s.vvNew, n), u);
    }
  }

  lemma Larger(a: set<Slot>, b: set<Slot>, u: Slot)
    requires a + {u} <= b && u !in a
    ensures |a| < |b|
  {
    SubsetSize(a + {u}, b);
  }

  lemma NewSeenAll(s: State, rest: map<int, int>)
    requires NewSeen(s, s.vvNew, rest) && forall n | n in s.mapInfo :: Counts(s.mapInfo[n])
    ensures rest == map[] <==> NewOk(s.mapInfo, s.vvNew, s.h, s.nKey, {})
  {
    forall n | n in s.mapInfo && s.mapInfo[n].fInTried ensures SlotsOf(s.vvNew, n) == {} {}
    if rest != map[] {
      var n := Member(rest.Keys);
      assert Due(s.mapInfo, s.vvNew, n) > 0;
    } else {
      forall n | n in s.mapInfo ensures s.mapInfo[n].nRefCount == |SlotsOf(s.vvNew, n)| && RefOk(s.mapInfo[n], false) {}
    }
  }

  // ----- what the loops compute -----

  datatype Scan<T> = Scan(code: int, rest: T)

  function TriedOne(s: State, u: Slot, left: set<int>): Scan<set<int>> {
    if u !in s.vvTried then Scan(0, left)
    else if s.vvTried[u] !in left || s.vvTried[u] !in s.mapInfo then Scan(-11, left)
    else
      var at := TriedSlot(s.h, s.nKey, s.mapInfo[s.vvTried[u]].service);
      if at.bucket != u.bucket then Scan(-17, left)
      else if at.pos != u.pos then Scan(-18, left) else Scan(0, left - {s.vvTried[u]})
  }

  function TriedScan(s: State, n: nat, i: nat, left: set<int>): Scan<set<int>>
    requires n <= TRIED_BUCKETS && i <= BUCKET_SIZE
    decreases TRIED_BUCKETS - n, BUCKET_SIZE - i
  {
    if n == TRIED_BUCKETS then Scan(0, left)
    else if i == BUCKET_SIZE then TriedScan(s, n + 1, 0, left)
    else
      var c := TriedOne(s, Slot(n, i), left);
      if c.code != 0 then c else TriedScan(s, n, i + 1, c.rest)
  }

  lemma {:induction false} TriedScanMeans(s: State, n: nat, i: nat, left: set<int>)
    requires n <= TRIED_BUCKETS && i <= BUCKET_SIZE && Fits(s.vvTried, TRIED_BUCKETS)
    requires TriedSeen(s, Part(s.vvTried, n, i), left)
    ensures var c := TriedScan(s, n, i, left);
            c.code == 0 && c.rest == {} <==> TriedOk(s.mapInfo, s.vvTried, s.h, s.nKey)
    decreases TRIED_BUCKETS - n, BUCKET_SIZE - i
  {
    if n == TRIED_BUCKETS {
      PartEnds(s.vvTried, TRIED_BUCKETS, i);
      TriedSeenAll(s, left);
    } else if i == BUCKET_SIZE {
      PartNextBucket(s.vvTried, TRIED_BUCKETS, n);
      TriedScanMeans(s, n + 1, 0, left);
    } else {
      PartStep(s.vvTried, n, i);
      TriedOneMeans(s, n, i, left);
      if TriedOne(s, Slot(n, i), left).code == 0 { TriedScanMeans(s, n, i + 1, TriedOne(s, Slot(n, i), left).rest); }
    }
  }

  lemma TriedOneMeans(s: State, n: nat, i: nat, left: set<int>)
    requires TriedSeen(s, Part(s.vvTried, n, i), left)
    ensures var c := TriedOne(s, Slot(n, i), left);
            if c.code == 0 then TriedSeen(s, Part(s.vvTried, n, i + 1), c.rest)
            else !TriedOk(s.mapInfo, s.vvTried, s.h, s.nKey)
  {
    PartStep(s.vvTried, n, i);
    if Slot(n, i) in s.vvTried { TriedSeenNext(s, Part(s.vvTried, n, i), left, Slot(n, i), s.vvTried[Slot(n, i)]); }
  }

  function NewOne(s: State, u: Slot, rest: map<int, int>): Scan<map<int, int>> {
    if u !in s.vvNew then Scan(0, rest)
    else if s.vvNew[u] !in rest || s.vvNew[u] !in s.mapInfo then Scan(-12, rest)
    else if NewSlotIn(s.h, s.nKey, s.mapInfo[s.vvNew[u]].service, u.bucket).pos != u.pos then Scan(-19, rest)
    else Scan(0, Met(rest, s.vvNew[u]))
  }

  function NewScan(s: State, n: nat, i: nat, rest: map<int, int>): Scan<map<int, int>>
    requires n <= NEW_BUCKETS && i <= BUCKET_SIZE
    decreases NEW_BUCKETS - n, BUCKET_SIZE - i
  {
    if n == NEW_BUCKETS then Scan(0, rest)
    else if i == BUCKET_SIZE then NewScan(s, n + 1, 0, rest)
    else
      var c := NewOne(s, Slot(n, i), rest);
      if c.code != 0 then c else NewScan(s, n, i + 1, c.rest)
  }

  lemma {:induction false} NewScanMeans(s: State, n: nat, i: nat, rest: map<int, int>)
    requires n <= NEW_BUCKETS && i <= BUCKET_SIZE && Fits(s.vvNew, NEW_BUCKETS) && NewSeen(s, Part(s.vvNew, n, i), rest)
    requires forall m | m in s.mapInfo :: Counts(s.mapInfo[m])
    ensures var c := NewScan(s, n, i, rest);
            c.code == 0 && c.rest == map[] <==> NewOk(s.mapInfo, s.vvNew, s.h, s.nKey, {})
    decreases NEW_BUCKETS - n, BUCKET_SIZE - i
  {
    if n == NEW_BUCKETS {
      PartEnds(s.vvNew, NEW_BUCKETS, i);
      NewSeenAll(s, rest);
    } else if i == BUCKET_SIZE {
      PartNextBucket(s.vvNew, NEW_BUCKETS, n);
      NewScanMeans(s, n + 1, 0, rest);
    } else {
      NewOneMeans(s, n, i, rest);
      if NewOne(s, Slot(n, i), rest).code == 0 { NewScanMeans(s, n, i + 1, NewOne(s, Slot(n, i), rest).rest); }
    }
  }

  lemma NewOneMeans(s: State, n: nat, i: nat, rest: map<int, int>)
    requires n < NEW_BUCKETS && NewSeen(s, Part(s.vvNew, n, i), rest)
    ensures var c := NewOne(s, Slot(n, i), rest);
            if c.code == 0 then NewSeen(s, Part(s.vvNew, n, i + 1), c.rest)
            else !NewOk(s.mapInfo, s.vvNew, s.h, s.nKey, {})
  {
    PartStep(s.vvNew, n, i);
    var part, u := Part(s.vvNew, n, i), Slot(n, i);
    if u in s.vvNew {
      if NewOne(s, u, rest).code == 0 {
        NewSeenNext(s, part, rest, u, s.vvNew[u]);
      } else {
        NewSeenFault(s, part, rest, u, s.vvNew[u]);
      }
    }
  }

  lemma PartEnds(t: Table, buckets: nat, i: nat)
    requires Fits(t, buckets)
    ensures Part(t, buckets, i) == t
  {}

  lemma NothingSeen(s: State, tried: set<int>, counts: map<int, int>)
    requires tried == Tried(s.mapInfo) && counts == RefCounts(s.mapInfo) && forall n | n in s.mapInfo :: Counts(s.mapInfo[n])
    requires Fits(s.vvTried, TRIED_BUCKETS) && Fits(s.vvNew, NEW_BUCKETS)
    ensures TriedSeen(s, Part(s.vvTried, 0, 0), tried) && NewSeen(s, Part(s.vvNew, 0, 0), counts)
  {
    PartStarts(s.vvTried, TRIED_BUCKETS);
    PartStarts(s.vvNew, NEW_BUCKETS);
    forall n | n in s.mapInfo ensures SlotsOf(map[], n) == {} {}
  }

  /** Both scans from the start leave nothing exactly when the tables are in order. */
  lemma ScansMean(s: State, tried: set<int>, counts: map<int, int>)
    requires tried == Tried(s.mapInfo) && counts == RefCounts(s.mapInfo) && forall n | n in s.mapInfo :: Counts(s.mapInfo[n])
    requires Fits(s.vvTried, TRIED_BUCKETS) && Fits(s.vvNew, NEW_BUCKETS)
    ensures var c, d := TriedScan(s, 0, 0, tried), NewScan(s, 0, 0, counts);
            c.code == 0 && c.rest == {} && d.code == 0 && d.rest == map[] <==> TablesPass(s)
  {
    NothingSeen(s, tried, counts);
    TriedScanMeans(s, 0, 0, tried);
    NewScanMeans(s, 0, 0, counts);
  }

  ghost function RefCounts(info: map<int, Info>): map<int, int> {
    map n | n in info && !info[n].fInTried :: info[n].nRefCount
  }

  lemma RefCountsSize(info: map<int, Info>)
    ensures |RefCounts(info)| == |Untried(info)|
  {
    assert RefCounts(info).Keys == Untried(info);
  }

  /** What the loop over mapInfo knows when the entries in todo are left; mapAddr may have grown. */
  ghost predicate EntriesSeen(s: State, mapAddr: map<Ip, int>, todo: set<int>, tried: set<int>, counts: map<int, int>) {
    && todo <= s.mapInfo.Keys && Completed(s.mapInfo, s.mapAddr, mapAddr)
    && (forall n | n in s.mapInfo && n !in todo :: EntryPasses(s, n) && s.mapInfo[n].service.ip in mapAddr)
    && tried == (set n | n in s.mapInfo && n !in todo && s.mapInfo[n].fInTried)
    && counts == map n | n in s.mapInfo && n !in todo && !s.mapInfo[n].fInTried :: s.mapInfo[n].nRefCount
  }

  /** A lookup of the address of an entry. */
  predicate LookedUp(before: map<Ip, int>, after: map<Ip, int>, ip: Ip) {
    after == before || (ip !in before && after == before[ip := 0])
  }

  lemma LookedUpCompletes(s: State, before: map<Ip, int>, after: map<Ip, int>, n: int)
    requires n in s.mapInfo && Completed(s.mapInfo, s.mapAddr, before) && LookedUp(before, after, s.mapInfo[n].service.ip)
    ensures Completed(s.mapInfo, s.mapAddr, after)
    ensures EntryPasses(s.(mapAddr := before), n) <==> EntryPasses(s, n)
  {
    assert HasIp(s.mapInfo, s.mapInfo[n].service.ip);
  }

  lemma EntriesNext(s: State, before: map<Ip, int>, after: map<Ip, int>, todo: set<int>, tried: set<int>,
                    counts: map<int, int>, n: int)
    requires EntriesSeen(s, before, todo, tried, counts) && n in todo && EntryPasses(s, n)
    requires LookedUp(before, after, s.mapInfo[n].service.ip) && s.mapInfo[n].service.ip in after
    ensures var i := s.mapInfo[n];
            EntriesSeen(s, after, todo - {n}, if i.fInTried then tried + {n} else tried,
                        if i.fInTried then counts else counts[n := i.nRefCount])
  {
    LookedUpCompletes(s, before, after, n);
  }

  lemma EntriesEnd(s: State, mapAddr: map<Ip, int>, tried: set<int>, counts: map<int, int>)
    requires EntriesSeen(s, mapAddr, {}, tried, counts)
    ensures EntriesPass(s) && tried == Tried(s.mapInfo) && counts == RefCounts(s.mapInfo)
    ensures forall n | n in s.mapInfo :: s.mapInfo[n].service.ip in mapAddr && mapAddr[s.mapInfo[n].service.ip] == n
  {
    forall n | n in s.mapInfo ensures s.mapInfo[n].service.ip in mapAddr && mapAddr[s.mapInfo[n].service.ip] == n {
      assert EntryPasses(s, n);
      LookupKept(s.mapInfo, s.mapAddr, mapAddr, s.mapInfo[n].service.ip);
    }
  }

  ghost predicate HasIp(info: map<int, Info>, ip: Ip) { exists n :: n in info && info[n].service.ip == ip }

  /** The index after some lookups: addresses of entries may have been entered with 0. */
  ghost predicate Completed(info: map<int, Info>, before: map<Ip, int>, after: map<Ip, int>) {
    && (forall a | a in before :: a in after && after[a] == before[a])
    && (forall a | a in after && a !in before :: after[a] == 0 && HasIp(info, a))
  }

  lemma LookupKept(info: map<int, Info>, before: map<Ip, int>, after: map<Ip, int>, ip: Ip)
    requires Completed(info, before, after)
    ensures Lookup(after, ip) == Lookup(before, ip)
  {}
}
