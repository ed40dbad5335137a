/**
 * The address manager of src/addrman.h and src/addrman.cpp.
 *
 * Five structures describe the same set of entries: mapInfo, its index mapAddr, the random
 * order vRandom, and the bucket tables vvNew and vvTried.  A table is the map of its occupied
 * slots (a slot that holds -1 in the program is not in the map).
 */
module AddrMan {
  import opened Arithmetic

  const TRIED_BUCKETS := 256
  const NEW_BUCKETS := 1024
  const BUCKET_SIZE := 64
  const NEW_PER_ADDRESS := 8

  type Ip = int
  type Key = int

  /** CService: what GetKey() and the comparison of two services look at. */
  datatype Service = Service(ip: Ip, port: int)

  /** CAddress. */
  datatype Address = Address(service: Service, nServices: set<nat>, nTime: int, routable: bool)

  datatype Info = Info(
    service: Service,
    nServices: set<nat>,
    nTime: int,
    source: Ip,
    nLastTry: int,
    nLastCountAttempt: int,
    nLastSuccess: int,
    nAttempts: int,
    nRefCount: int,
    fInTried: bool,
    nRandomPos: int)

  datatype Slot = Slot(bucket: int, pos: int)

  type Table = map<Slot, int>

  /** The keyed hashes behind GetTriedBucket, GetNewBucket and GetBucketPosition. */
  datatype Hashes = Hashes(
    tried: (Key, Service) -> nat,
    fresh_: (Key, Service, Ip) -> nat,
    position: (Key, bool, int, Service) -> nat)

  function TriedSlot(h: Hashes, key: Key, a: Service): Slot {
    var bucket := h.tried(key, a) % TRIED_BUCKETS;
    Slot(bucket, h.position(key, false, bucket, a) % BUCKET_SIZE)
  }

  /** Where an entry goes within a given new bucket. */
  function NewSlotIn(h: Hashes, key: Key, a: Service, bucket: int): Slot {
    Slot(bucket, h.position(key, true, bucket, a) % BUCKET_SIZE)
  }

  function NewSlot(h: Hashes, key: Key, a: Service, source: Ip): Slot {
    NewSlotIn(h, key, a, h.fresh_(key, a, source) % NEW_BUCKETS)
  }

  datatype State = State(
    nIdCount: int,
    mapInfo: map<int, Info>,
    mapAddr: map<Ip, int>,
    vRandom: seq<int>,
    nTried: int,
    vvTried: Table,
    nNew: int,
    vvNew: Table,
    nLastGood: int,
    nKey: Key,
    h: Hashes)

  function Empty(key: Key, h: Hashes): State {
    State(0, map[], map[], [], 0, map[], 0, map[], 1, key, h)
  }

  // ----- the invariant, one predicate per structure -----

  /** vRandom and nRandomPos are inverse. */
  ghost predicate Ordered(info: map<int, Info>, order: seq<int>) {
    && (forall n | n in info :: 0 <= info[n].nRandomPos < |order| && order[info[n].nRandomPos] == n)
    && (forall i | 0 <= i < |order| :: order[i] in info && info[order[i]].nRandomPos == i)
  }

  /** mapAddr and mapInfo are inverse. */
  ghost predicate Indexed(info: map<int, Info>, mapAddr: map<Ip, int>) {
    && (forall n | n in info :: info[n].service.ip in mapAddr && mapAddr[info[n].service.ip] == n)
    && (forall a | a in mapAddr :: mapAddr[a] in info && info[mapAddr[a]].service.ip == a)
  }

  ghost function SlotsOf(t: Table, n: int): set<Slot> { set s | s in t && t[s] == n }

  /**
   * Every occupied new slot is the right one for its entry and nRefCount counts them.
   * Entries in limbo are between tables: not tried and in no new slot.
   */
  ghost predicate NewOk(info: map<int, Info>, t: Table, h: Hashes, key: Key, limbo: set<int>) {
    && (forall s | s in t :: NewSlotOk(info, t[s], h, key, s))
    && (forall n | n in info :: info[n].nRefCount == |SlotsOf(t, n)|)
    && (forall n | n in info :: RefOk(info[n], n in limbo))
    && (forall n | n in limbo :: n in info && !info[n].fInTried)
  }

  ghost predicate NewSlotOk(info: map<int, Info>, n: int, h: Hashes, key: Key, s: Slot) {
    n in info && 0 <= s.bucket < NEW_BUCKETS && s == NewSlotIn(h, key, info[n].service, s.bucket)
  }

  ghost predicate RefOk(i: Info, limbo: bool) {
    if i.fInTried || limbo then i.nRefCount == 0 else 1 <= i.nRefCount <= NEW_PER_ADDRESS
  }

  /** The tried table holds exactly the tried entries, each in its own slot. */
  ghost predicate TriedOk(info: map<int, Info>, t: Table, h: Hashes, key: Key) {
    && (forall s | s in t :: TriedSlotOk(info, t[s], h, key, s))
    && (forall n | n in info && info[n].fInTried :: InSlot(t, TriedSlot(h, key, info[n].service), n))
  }

  ghost predicate TriedSlotOk(info: map<int, Info>, n: int, h: Hashes, key: Key, s: Slot) {
    n in info && info[n].fInTried && s == TriedSlot(h, key, info[n].service)
  }

  predicate InSlot(t: Table, s: Slot, n: int) { s in t && t[s] == n }

  ghost function Tried(info: map<int, Info>): set<int> { set n | n in info && info[n].fInTried }
  ghost function Untried(info: map<int, Info>): set<int> { set n | n in info && !info[n].fInTried }

  /** The counters, with nNew off by `off` while an entry is between tables. */
  ghost predicate Counted(s: State, off: int) {
    && s.nTried == |Tried(s.mapInfo)|
    && s.nNew == |Untried(s.mapInfo)| + off
  }

  ghost predicate IdsBelow(info: map<int, Info>, n: int) { 0 <= n && forall i | i in info :: 0 <= i < n }

  ghost predicate Inv(s: State, limbo: set<int>, off: int) {
    && IdsBelow(s.mapInfo, s.nIdCount)
    && Ordered(s.mapInfo, s.vRandom)
    && Indexed(s.mapInfo, s.mapAddr)
    && NewOk(s.mapInfo, s.vvNew, s.h, s.nKey, limbo)
    && TriedOk(s.mapInfo, s.vvTried, s.h, s.nKey)
    && Counted(s, off)
  }

  /** The structural part of Check_. */
  ghost predicate Check(s: State) { Inv(s, {}, 0) }

  // ----- changes that no table depends on -----

  /** Two versions of an entry that the tables cannot tell apart. */
  predicate SamePlace(a: Info, b: Info) {
    && a.service == b.service
    && a.nRefCount == b.nRefCount
    && a.fInTried == b.fInTried
  }

  ghost predicate SameTables(info: map<int, Info>, info': map<int, Info>) {
    info'.Keys == info.Keys && forall n | n in info :: SamePlace(info[n], info'[n])
  }

  lemma SameTablesKeep(s: State, info': map<int, Info>, limbo: set<int>, off: int)
    requires Inv(s, limbo, off) && SameTables(s.mapInfo, info')
    ensures IdsBelow(info', s.nIdCount) && Indexed(info', s.mapAddr)
    ensures NewOk(info', s.vvNew, s.h, s.nKey, limbo)
    ensures TriedOk(info', s.vvTried, s.h, s.nKey)
    ensures Tried(info') == Tried(s.mapInfo) && Untried(info') == Untried(s.mapInfo)
  {
    var info := s.mapInfo;
    SameTablesKeepNew(info, info', s.vvNew, s.h, s.nKey, limbo);
    SameTablesKeepTried(info, info', s.vvTried, s.h, s.nKey);
    forall n | n in info' ensures 0 <= n < s.nIdCount && info'[n].service == info[n].service {
      assert SamePlace(info[n], info'[n]);
    }
  }

  lemma SameTablesKeepNew(info: map<int, Info>, info': map<int, Info>, t: Table, h: Hashes, key: Key, limbo: set<int>)
    requires NewOk(info, t, h, key, limbo) && SameTables(info, info')
    ensures NewOk(info', t, h, key, limbo)
  {
    forall n | n in info'
      ensures info'[n].nRefCount == |SlotsOf(t, n)| && RefOk(info'[n], n in limbo)
      ensures info'[n].service == info[n].service && info'[n].fInTried == info[n].fInTried
    {
      assert SamePlace(info[n], info'[n]);
      assert RefOk(info[n], n in limbo);
    }
  }

  lemma SameTablesKeepTried(info: map<int, Info>, info': map<int, Info>, t: Table, h: Hashes, key: Key)
    requires TriedOk(info, t, h, key) && SameTables(info, info')
    ensures TriedOk(info', t, h, key)
    ensures Tried(info') == Tried(info) && Untried(info') == Untried(info)
  {
    forall n | n in info' ensures info'[n].service == info[n].service && info'[n].fInTried == info[n].fInTried {
      assert SamePlace(info[n], info'[n]);
    }
  }

  /** Statistics of one entry change: time stamps, services, attempts. */
  lemma StatsKeepInv(s: State, n: int, i: Info, limbo: set<int>, off: int)
    requires Inv(s, limbo, off) && n in s.mapInfo && SamePlace(s.mapInfo[n], i) && i.nRandomPos == s.mapInfo[n].nRandomPos
    ensures Inv(s.(mapInfo := s.mapInfo[n := i]), limbo, off)
  {
    SameTablesKeep(s, s.mapInfo[n := i], limbo, off);
  }

  lemma SameIndexes(info: map<int, Info>, info': map<int, Info>, mapAddr: map<Ip, int>, n: int)
    requires SameTables(info, info') && Indexed(info, mapAddr) && IdsBelow(info, n)
    ensures Indexed(info', mapAddr) && IdsBelow(info', n)
  {
    forall i | i in info' ensures i in info && info'[i].service == info[i].service {
      assert SamePlace(info[i], info'[i]);
    }
  }

  // ----- SwapRandom -----

  function SwapInfo(info: map<int, Info>, order: seq<int>, i: int, j: int): map<int, Info>
    requires 0 <= i < |order| && 0 <= j < |order| && order[i] in info && order[j] in info
  {
    var a, b := order[i], order[j];
    var info1 := info[a := info[a].(nRandomPos := j)];
    info1[b := info1[b].(nRandomPos := i)]
  }

  function SwapRandom(s: State, i: int, j: int): State
    requires Ordered(s.mapInfo, s.vRandom) && 0 <= i < |s.vRandom| && 0 <= j < |s.vRandom|
  {
    if i == j then s
    else s.(mapInfo := SwapInfo(s.mapInfo, s.vRandom, i, j),
            vRandom := s.vRandom[i := s.vRandom[j]][j := s.vRandom[i]])
  }

  lemma SwapOrdered(s: State, i: int, j: int)
    requires Ordered(s.mapInfo, s.vRandom) && 0 <= i < |s.vRandom| && 0 <= j < |s.vRandom|
    ensures Ordered(SwapRandom(s, i, j).mapInfo, SwapRandom(s, i, j).vRandom)
    ensures SameTables(s.mapInfo, SwapRandom(s, i, j).mapInfo)
  {
    if i != j {
      var info, order := s.mapInfo, s.vRandom;
      var info', order' := SwapRandom(s, i, j).mapInfo, SwapRandom(s, i, j).vRandom;
      assert order[i] != order[j];
      forall n | n in info'
        ensures n in info && SamePlace(info[n], info'[n])
        ensures info'[n].nRandomPos == (if n == order[i] then j else if n == order[j] then i else info[n].nRandomPos)
      {}
      forall n | n in info' ensures 0 <= info'[n].nRandomPos < |order'| && order'[info'[n].nRandomPos] == n {
        assert order[info[n].nRandomPos] == n;
      }
      forall k | 0 <= k < |order'| ensures order'[k] in info' && info'[order'[k]].nRandomPos == k {
        assert info[order[k]].nRandomPos == k;
      }
    }
  }

  lemma SwapKeepsInv(s: State, i: int, j: int, limbo: set<int>, off: int)
    requires Inv(s, limbo, off) && 0 <= i < |s.vRandom| && 0 <= j < |s.vRandom|
    ensures Inv(SwapRandom(s, i, j), limbo, off)
  {
    SwapOrdered(s, i, j);
    ReorderedKeepsInv(s, SwapRandom(s, i, j), limbo, off);
  }

  lemma ReorderedKeepsInv(s: State, r: State, limbo: set<int>, off: int)
    requires Inv(s, limbo, off) && Ordered(r.mapInfo, r.vRandom) && SameTables(s.mapInfo, r.mapInfo)
    requires r == s.(mapInfo := r.mapInfo, vRandom := r.vRandom)
    ensures Inv(r, limbo, off)
  {
    SameTablesKeep(s, r.mapInfo, limbo, off);
  }

  // ----- Create and Delete -----

  function Create(s: State, a: Address, source: Ip): State {
    var info := Info(a.service, a.nServices, a.nTime, source, 0, 0, 0, 0, 0, false, |s.vRandom|);
    s.(nIdCount := s.nIdCount + 1,
       mapInfo := s.mapInfo[s.nIdCount := info],
       mapAddr := s.mapAddr[a.service.ip := s.nIdCount],
       vRandom := s.vRandom + [s.nIdCount])
  }

  /** A new entry is in limbo until it gets a slot. */
  lemma CreateKeepsInv(s: State, a: Address, source: Ip)
    requires Check(s) && a.service.ip !in s.mapAddr
    ensures Inv(Create(s, a, source), {s.nIdCount}, -1)
  {
    CreatedKeepsInv(s, Create(s, a, source), a, source, -1);
  }

  lemma CreatedKeepsInv(s: State, r: State, a: Address, source: Ip, off: int)
    requires Check(s) && a.service.ip !in s.mapAddr && r == Create(s, a, source).(nNew := s.nNew + 1 + off)
    ensures Inv(r, {s.nIdCount}, off)
  {
    var id := s.nIdCount;
    assert id !in s.mapInfo;
    CreateOrdered(s, r.mapInfo, id);
    CreateIndexed(s, r.mapInfo, id);
    CreateNew(s.mapInfo, r.mapInfo, id, s.vvNew, s.h, s.nKey);
    CreateTried(s.mapInfo, r.mapInfo, id, s.vvTried, s.h, s.nKey);
  }

  lemma CreateOrdered(s: State, info': map<int, Info>, id: int)
    requires Ordered(s.mapInfo, s.vRandom) && id !in s.mapInfo
    requires id in info' && info' == s.mapInfo[id := info'[id]] && info'[id].nRandomPos == |s.vRandom|
    ensures Ordered(info', s.vRandom + [id])
  {}

  lemma CreateIndexed(s: State, info': map<int, Info>, id: int)
    requires Indexed(s.mapInfo, s.mapAddr) && id !in s.mapInfo
    requires id in info' && info' == s.mapInfo[id := info'[id]] && info'[id].service.ip !in s.mapAddr
    ensures Indexed(info', s.mapAddr[info'[id].service.ip := id])
  {}

  lemma CreateNew(info: map<int, Info>, info': map<int, Info>, id: int, t: Table, h: Hashes, key: Key)
    requires NewOk(info, t, h, key, {}) && id !in info && id in info' && info' == info[id := info'[id]]
    requires info'[id].nRefCount == 0 && !info'[id].fInTried
    ensures NewOk(info', t, h, key, {id})
  {
    forall s | s in t ensures NewSlotOk(info', t[s], h, key, s) && t[s] != id {
      assert NewSlotOk(info, t[s], h, key, s);
    }
    assert SlotsOf(t, id) == {};
    forall n | n in info' ensures RefOk(info'[n], n in {id}) && info'[n].nRefCount == |SlotsOf(t, n)| {
      if n != id { assert RefOk(info[n], n in {}); }
    }
  }

  lemma CreateTried(info: map<int, Info>, info': map<int, Info>, id: int, t: Table, h: Hashes, key: Key)
    requires TriedOk(info, t, h, key) && id !in info && id in info' && info' == info[id := info'[id]]
    requires !info'[id].fInTried
    ensures TriedOk(info', t, h, key)
    ensures Tried(info') == Tried(info) && Untried(info') == Untried(info) + {id}
  {
    forall s | s in t ensures TriedSlotOk(info', t[s], h, key, s) {
      assert TriedSlotOk(info, t[s], h, key, s);
    }
  }

  /** Drop the entry at the end of vRandom from the maps. */
  function Forget(s: State, id: int): State
    requires id in s.mapInfo && s.vRandom != []
  {
    s.(vRandom := s.vRandom[..|s.vRandom| - 1],
       mapAddr := s.mapAddr - {s.mapInfo[id].service.ip},
       mapInfo := s.mapInfo - {id},
       nNew := s.nNew - 1)
  }

  /** What Delete asserts: the entry is in no table. */
  predicate Deletable(s: State, id: int) {
    id in s.mapInfo && !s.mapInfo[id].fInTried && s.mapInfo[id].nRefCount == 0
  }

  function ToEnd(s: State, id: int): State
    requires Ordered(s.mapInfo, s.vRandom) && id in s.mapInfo
  {
    SwapRandom(s, s.mapInfo[id].nRandomPos, |s.vRandom| - 1)
  }

  /** Swap the entry to the end of vRandom and forget it. */
  function Delete(s: State, id: int): State
    requires Ordered(s.mapInfo, s.vRandom) && Deletable(s, id)
  {
    Forget(ToEnd(s, id), id)
  }

  lemma RemoveLast(info: map<int, Info>, order: seq<int>, id: int)
    requires Ordered(info, order) && order != [] && order[|order| - 1] == id
    ensures Ordered(info - {id}, order[..|order| - 1])
  {}

  lemma RemoveIndexed(info: map<int, Info>, mapAddr: map<Ip, int>, id: int)
    requires Indexed(info, mapAddr) && id in info
    ensures Indexed(info - {id}, mapAddr - {info[id].service.ip})
  {}

  lemma RemoveTables(s: State, id: int, limbo: set<int>)
    requires NewOk(s.mapInfo, s.vvNew, s.h, s.nKey, limbo) && TriedOk(s.mapInfo, s.vvTried, s.h, s.nKey) && id in limbo
    ensures var info' := s.mapInfo - {id};
            && NewOk(info', s.vvNew, s.h, s.nKey, limbo - {id})
            && TriedOk(info', s.vvTried, s.h, s.nKey)
            && Tried(info') == Tried(s.mapInfo)
            && Untried(info') == Untried(s.mapInfo) - {id}
  {
    var info' := s.mapInfo - {id};
    assert RefOk(s.mapInfo[id], true);
    assert SlotsOf(s.vvNew, id) == {};
    forall t | t in s.vvNew ensures NewSlotOk(info', s.vvNew[t], s.h, s.nKey, t) {
      assert NewSlotOk(s.mapInfo, s.vvNew[t], s.h, s.nKey, t);
      assert t in SlotsOf(s.vvNew, s.vvNew[t]);
    }
    forall n | n in info' ensures RefOk(info'[n], n in limbo - {id}) { assert RefOk(s.mapInfo[n], n in limbo); }
    forall t | t in s.vvTried ensures TriedSlotOk(info', s.vvTried[t], s.h, s.nKey, t) {
      assert TriedSlotOk(s.mapInfo, s.vvTried[t], s.h, s.nKey, t);
    }
  }

  lemma DeleteMovesToEnd(s: State, id: int)
    requires Ordered(s.mapInfo, s.vRandom) && id in s.mapInfo
    ensures 0 <= s.mapInfo[id].nRandomPos < |s.vRandom|
    ensures var w := ToEnd(s, id); w.vRandom != [] && w.vRandom[|w.vRandom| - 1] == id && id in w.mapInfo
  {}

  /** Deleting an entry moves the others at most within vRandom. */
  lemma DeleteLeavesOthers(s: State, id: int)
    requires Ordered(s.mapInfo, s.vRandom) && Deletable(s, id)
    ensures SameTables(s.mapInfo - {id}, Delete(s, id).mapInfo)
  {
    SwapOrdered(s, s.mapInfo[id].nRandomPos, |s.vRandom| - 1);
  }

  lemma DeleteOrdered(r: State, id: int)
    requires Ordered(r.mapInfo, r.vRandom) && Deletable(r, id)
    ensures Ordered(Delete(r, id).mapInfo, Delete(r, id).vRandom)
  {
    var w := MovedToEnd(r, id);
    RemoveLast(w.mapInfo, w.vRandom, id);
  }

  lemma MovedToEnd(r: State, id: int) returns (w: State)
    requires Ordered(r.mapInfo, r.vRandom) && id in r.mapInfo
    ensures w == ToEnd(r, id) && Ordered(w.mapInfo, w.vRandom)
    ensures w.vRandom != [] && w.vRandom[|w.vRandom| - 1] == id && id in w.mapInfo
  {
    DeleteMovesToEnd(r, id);
    w := Swapped(r, r.mapInfo[id].nRandomPos, |r.vRandom| - 1);
  }

  lemma Swapped(s: State, i: int, j: int) returns (w: State)
    requires Ordered(s.mapInfo, s.vRandom) && 0 <= i < |s.vRandom| && 0 <= j < |s.vRandom|
    ensures w == SwapRandom(s, i, j) && Ordered(w.mapInfo, w.vRandom)
  {
    SwapOrdered(s, i, j);
    w := SwapRandom(s, i, j);
  }

  /** What Delete does to each field. */
  lemma DeleteFields(q: State, id: int)
    requires Ordered(q.mapInfo, q.vRandom) && Deletable(q, id)
    ensures var d := Delete(q, id);
            && d == q.(mapInfo := d.mapInfo, vRandom := d.vRandom,
                       mapAddr := q.mapAddr - {q.mapInfo[id].service.ip}, nNew := q.nNew - 1)
            && SameTables(q.mapInfo - {id}, d.mapInfo) && Ordered(d.mapInfo, d.vRandom)
  {
    DeleteLeavesOthers(q, id);
    DeleteOrdered(q, id);
    DeleteMovesToEnd(q, id);
    SwapOrdered(q, q.mapInfo[id].nRandomPos, |q.vRandom| - 1);
  }

  lemma LimboDeletable(s: State, id: int, limbo: set<int>, off: int)
    requires Inv(s, limbo, off) && id in limbo
    ensures Deletable(s, id)
  {
    assert RefOk(s.mapInfo[id], true);
  }

  lemma DeleteKeepsInv(s: State, id: int, limbo: set<int>, off: int)
    requires Inv(s, limbo, off) && id in limbo
    ensures Deletable(s, id) && Inv(Delete(s, id), limbo - {id}, off)
  {
    LimboDeletable(s, id, limbo, off);
    DeleteFields(s, id);
    ForgottenKeepsInv(s, Delete(s, id), id, limbo, off);
  }

  lemma ForgottenKeepsInv(s: State, d: State, id: int, limbo: set<int>, off: int)
    requires Inv(s, limbo, off) && id in limbo && Ordered(d.mapInfo, d.vRandom) && SameTables(s.mapInfo - {id}, d.mapInfo)
    requires d == s.(mapInfo := d.mapInfo, vRandom := d.vRandom,
                     mapAddr := s.mapAddr - {s.mapInfo[id].service.ip}, nNew := s.nNew - 1)
    ensures Inv(d, limbo - {id}, off)
  {
    var left := s.mapInfo - {id};
    RemoveTables(s, id, limbo);
    SameTablesKeepNew(left, d.mapInfo, s.vvNew, s.h, s.nKey, limbo - {id});
    SameTablesKeepTried(left, d.mapInfo, s.vvTried, s.h, s.nKey);
    RemoveIndexed(s.mapInfo, s.mapAddr, id);
    SameIndexes(left, d.mapInfo, d.mapAddr, s.nIdCount);
    assert |Untried(s.mapInfo) - {id}| == |Untried(s.mapInfo)| - 1;
  }

  // ----- the new table -----

  /** An occupied new slot is vacated and its entry loses one reference. */
  function DropRef(s: State, t: Slot): State
    requires t in s.vvNew && s.vvNew[t] in s.mapInfo
  {
    var n := s.vvNew[t];
    s.(mapInfo := s.mapInfo[n := s.mapInfo[n].(nRefCount := s.mapInfo[n].nRefCount - 1)],
       vvNew := s.vvNew - {t})
  }

  lemma DropSlots(t: Table, s: Slot, n: int)
    requires s in t
    ensures SlotsOf(t - {s}, n) == SlotsOf(t, n) - {s}
    ensures |SlotsOf(t - {s}, n)| == |SlotsOf(t, n)| - if t[s] == n then 1 else 0
  {
    assert SlotsOf(t - {s}, n) == SlotsOf(t, n) - {s};
    if t[s] == n { assert s in SlotsOf(t, n); }
  }

  /** An entry that lost its last reference is in limbo. */
  ghost function LimboAfterDrop(s: State, t: Slot, limbo: set<int>): set<int>
    requires t in s.vvNew && s.vvNew[t] in s.mapInfo
  {
    if s.mapInfo[s.vvNew[t]].nRefCount == 1 then limbo + {s.vvNew[t]} else limbo
  }

  lemma DropCount(s: State, t: Slot, limbo: set<int>, m: int)
    requires t in s.vvNew && s.vvNew[t] in s.mapInfo && m in s.mapInfo && s.vvNew[t] !in limbo
    requires s.mapInfo[m].nRefCount == |SlotsOf(s.vvNew, m)| && RefOk(s.mapInfo[m], m in limbo)
    requires !s.mapInfo[s.vvNew[t]].fInTried
    ensures var d := DropRef(s, t);
            d.mapInfo[m].nRefCount == |SlotsOf(d.vvNew, m)| && RefOk(d.mapInfo[m], m in LimboAfterDrop(s, t, limbo))
  {
    DropSlots(s.vvNew, t, m);
  }

  lemma DropNewOk(s: State, t: Slot, limbo: set<int>)
    requires t in s.vvNew && NewOk(s.mapInfo, s.vvNew, s.h, s.nKey, limbo)
    ensures s.vvNew[t] in s.mapInfo && s.vvNew[t] !in limbo
    ensures s.mapInfo[s.vvNew[t]].nRefCount >= 1 && !s.mapInfo[s.vvNew[t]].fInTried
    ensures NewOk(DropRef(s, t).mapInfo, DropRef(s, t).vvNew, s.h, s.nKey, LimboAfterDrop(s, t, limbo))
  {
    var n := s.vvNew[t];
    assert NewSlotOk(s.mapInfo, n, s.h, s.nKey, t);
    assert RefOk(s.mapInfo[n], n in limbo);
    assert t in SlotsOf(s.vvNew, n);
    var info', v' := DropRef(s, t).mapInfo, DropRef(s, t).vvNew;
    forall m | m in info'
      ensures info'[m].nRefCount == |SlotsOf(v', m)| && RefOk(info'[m], m in LimboAfterDrop(s, t, limbo))
    {
      DropCount(s, t, limbo, m);
    }
    forall u | u in v' ensures NewSlotOk(info', v'[u], s.h, s.nKey, u) {
      assert NewSlotOk(s.mapInfo, s.vvNew[u], s.h, s.nKey, u);
    }
  }

  /** Changing nRefCount alone disturbs neither the order, the index, the tried table nor the counters. */
  lemma RefChange(s: State, n: int, count: int, limbo: set<int>, off: int)
    requires Inv(s, limbo, off) && n in s.mapInfo
    ensures var info' := s.mapInfo[n := s.mapInfo[n].(nRefCount := count)];
            && IdsBelow(info', s.nIdCount) && Ordered(info', s.vRandom) && Indexed(info', s.mapAddr)
            && TriedOk(info', s.vvTried, s.h, s.nKey)
            && Tried(info') == Tried(s.mapInfo) && Untried(info') == Untried(s.mapInfo)
  {
    var info' := s.mapInfo[n := s.mapInfo[n].(nRefCount := count)];
    forall t | t in s.vvTried ensures TriedSlotOk(info', s.vvTried[t], s.h, s.nKey, t) {
      assert TriedSlotOk(s.mapInfo, s.vvTried[t], s.h, s.nKey, t);
    }
  }

  lemma DropKeepsInv(s: State, t: Slot, limbo: set<int>, off: int)
    requires Inv(s, limbo, off) && t in s.vvNew
    ensures s.vvNew[t] in s.mapInfo && s.vvNew[t] !in limbo
    ensures Inv(DropRef(s, t), LimboAfterDrop(s, t, limbo), off)
  {
    DropNewOk(s, t, limbo);
    var n := s.vvNew[t];
    RefChangeKeeps(s, DropRef(s, t), n, s.mapInfo[n].nRefCount - 1, limbo, LimboAfterDrop(s, t, limbo), off, off);
  }

  lemma RefChangeKeeps(s: State, r: State, n: int, count: int, limbo: set<int>, limbo': set<int>, off: int, off': int)
    requires Inv(s, limbo, off) && n in s.mapInfo
    requires r == s.(mapInfo := s.mapInfo[n := s.mapInfo[n].(nRefCount := count)], vvNew := r.vvNew,
                     nNew := s.nNew + off' - off)
    requires NewOk(r.mapInfo, r.vvNew, r.h, r.nKey, limbo')
    ensures Inv(r, limbo', off')
  {
    RefChange(s, n, count, limbo, off);
  }

  /** What ClearNew asserts of the occupant of a slot, and what Delete asserts after it. */
  predicate Clearable(s: State, t: Slot) {
    t in s.vvNew ==>
      s.vvNew[t] in s.mapInfo && s.mapInfo[s.vvNew[t]].nRefCount > 0 && !s.mapInfo[s.vvNew[t]].fInTried
  }

  lemma InvClearable(s: State, t: Slot, limbo: set<int>, off: int)
    requires Inv(s, limbo, off)
    ensures Clearable(s, t)
  {
    if t in s.vvNew { DropNewOk(s, t, limbo); }
  }

  /** Make room in a new slot, deleting its entry if this was its last reference. */
  function ClearNew(s: State, t: Slot): State
    requires Ordered(s.mapInfo, s.vRandom) && Clearable(s, t)
  {
    if t !in s.vvNew then s
    else
      var d := DropRef(s, t);
      if d.mapInfo[s.vvNew[t]].nRefCount == 0 then Delete(d, s.vvNew[t]) else d
  }

  lemma ClearNewKeepsInv(s: State, t: Slot, limbo: set<int>, off: int)
    requires Inv(s, limbo, off)
    ensures Clearable(s, t) && Inv(ClearNew(s, t), limbo, off)
    ensures t !in ClearNew(s, t).vvNew
  {
    InvClearable(s, t, limbo, off);
    if t in s.vvNew {
      if s.mapInfo[s.vvNew[t]].nRefCount == 1 {
        DropLastKeepsInv(s, t, s.vvNew[t], limbo, off);
      } else {
        DropKeepsInv(s, t, limbo, off);
      }
    }
  }

  lemma DropLastKeepsInv(s: State, t: Slot, n: int, limbo: set<int>, off: int)
    requires Inv(s, limbo, off) && InSlot(s.vvNew, t, n) && n in s.mapInfo && s.mapInfo[n].nRefCount == 1
    ensures Delete.requires(DropRef(s, t), n) && Inv(Delete(DropRef(s, t), n), limbo, off)
  {
    DropKeepsInv(s, t, limbo, off);
    DeleteKeepsInv(DropRef(s, t), n, limbo + {n}, off);
    assert limbo + {n} - {n} == limbo;
  }

  /** An entry takes a free new slot. */
  function AddRef(s: State, n: int, t: Slot): State
    requires n in s.mapInfo
  {
    s.(mapInfo := s.mapInfo[n := s.mapInfo[n].(nRefCount := s.mapInfo[n].nRefCount + 1)],
       vvNew := s.vvNew[t := n])
  }

  lemma PutSlots(t: Table, s: Slot, n: int, m: int)
    requires s !in t
    ensures |SlotsOf(t[s := n], m)| == |SlotsOf(t, m)| + if m == n then 1 else 0
  {
    assert SlotsOf(t[s := n], m) == if m == n then SlotsOf(t, m) + {s} else SlotsOf(t, m);
  }

  lemma AddNewOk(s: State, n: int, t: Slot, limbo: set<int>)
    requires NewOk(s.mapInfo, s.vvNew, s.h, s.nKey, limbo) && n in s.mapInfo && !s.mapInfo[n].fInTried
    requires t !in s.vvNew && NewSlotOk(s.mapInfo, n, s.h, s.nKey, t) && s.mapInfo[n].nRefCount < NEW_PER_ADDRESS
    ensures NewOk(AddRef(s, n, t).mapInfo, AddRef(s, n, t).vvNew, s.h, s.nKey, limbo - {n})
  {
    var info', v' := AddRef(s, n, t).mapInfo, AddRef(s, n, t).vvNew;
    forall m | m in info' ensures info'[m].nRefCount == |SlotsOf(v', m)| && RefOk(info'[m], m in limbo - {n}) {
      PutSlots(s.vvNew, t, n, m);
      assert RefOk(s.mapInfo[m], m in limbo);
    }
    forall u | u in v' ensures NewSlotOk(info', v'[u], s.h, s.nKey, u) {
      if u != t { assert NewSlotOk(s.mapInfo, s.vvNew[u], s.h, s.nKey, u); }
    }
  }

  lemma AddRefKeepsInv(s: State, n: int, t: Slot, limbo: set<int>, off: int)
    requires Inv(s, limbo, off) && n in s.mapInfo && !s.mapInfo[n].fInTried
    requires t !in s.vvNew && NewSlotOk(s.mapInfo, n, s.h, s.nKey, t) && s.mapInfo[n].nRefCount < NEW_PER_ADDRESS
    ensures Inv(AddRef(s, n, t), limbo - {n}, off)
  {
    AddNewOk(s, n, t, limbo);
    RefChangeKeeps(s, AddRef(s, n, t), n, s.mapInfo[n].nRefCount + 1, limbo, limbo - {n}, off, off);
  }

  /** Clearing a slot leaves every other entry in place. */
  lemma ClearNewLeavesOthers(s: State, t: Slot, n: int)
    requires Ordered(s.mapInfo, s.vRandom) && Clearable(s, t) && (t in s.vvNew ==> s.vvNew[t] != n)
    requires n in s.mapInfo
    ensures n in ClearNew(s, t).mapInfo && SamePlace(s.mapInfo[n], ClearNew(s, t).mapInfo[n])
    ensures ClearNew(s, t).vvTried == s.vvTried && ClearNew(s, t).h == s.h && ClearNew(s, t).nKey == s.nKey
  {
    if t in s.vvNew {
      var d := DropRef(s, t);
      if d.mapInfo[s.vvNew[t]].nRefCount == 0 {
        DeleteLeavesOthers(d, s.vvNew[t]);
        assert SamePlace((d.mapInfo - {s.vvNew[t]})[n], Delete(d, s.vvNew[t]).mapInfo[n]);
      }
    }
  }

  // ----- MakeTried -----

  /** The slots that the loop over all new buckets finds for an entry. */
  function OwnSlots(s: State, id: int): set<Slot>
    requires id in s.mapInfo
  {
    set b | 0 <= b < NEW_BUCKETS && InSlot(s.vvNew, NewSlotIn(s.h, s.nKey, s.mapInfo[id].service, b), id)
      :: NewSlotIn(s.h, s.nKey, s.mapInfo[id].service, b)
  }

  /** Remove an entry from all new buckets. */
  function Unlist(s: State, id: int): State
    requires id in s.mapInfo
  {
    var own := OwnSlots(s, id);
    s.(vvNew := s.vvNew - own,
       mapInfo := s.mapInfo[id := s.mapInfo[id].(nRefCount := s.mapInfo[id].nRefCount - |own|)],
       nNew := s.nNew - 1)
  }

  lemma OwnSlotsAreAll(s: State, id: int, limbo: set<int>)
    requires NewOk(s.mapInfo, s.vvNew, s.h, s.nKey, limbo) && id in s.mapInfo
    ensures OwnSlots(s, id) == SlotsOf(s.vvNew, id)
  {
    forall t | t in SlotsOf(s.vvNew, id) ensures t in OwnSlots(s, id) {
      assert NewSlotOk(s.mapInfo, s.vvNew[t], s.h, s.nKey, t);
      assert InSlot(s.vvNew, NewSlotIn(s.h, s.nKey, s.mapInfo[id].service, t.bucket), id);
    }
  }

  lemma UnlistNewOk(s: State, id: int)
    requires NewOk(s.mapInfo, s.vvNew, s.h, s.nKey, {}) && id in s.mapInfo && !s.mapInfo[id].fInTried
    ensures NewOk(Unlist(s, id).mapInfo, Unlist(s, id).vvNew, s.h, s.nKey, {id})
    ensures Unlist(s, id).mapInfo[id].nRefCount == 0
  {
    var info', v' := Unlist(s, id).mapInfo, Unlist(s, id).vvNew;
    OwnSlotsAreAll(s, id, {});
    forall m | m in info' ensures info'[m].nRefCount == |SlotsOf(v', m)| && RefOk(info'[m], m in {id}) {
      assert SlotsOf(v', m) == if m == id then {} else SlotsOf(s.vvNew, m);
      assert RefOk(s.mapInfo[m], m in {});
    }
    forall u | u in v' ensures NewSlotOk(info', v'[u], s.h, s.nKey, u) {
      assert NewSlotOk(s.mapInfo, s.vvNew[u], s.h, s.nKey, u);
    }
  }

  lemma UnlistKeepsInv(s: State, id: int)
    requires Check(s) && id in s.mapInfo && !s.mapInfo[id].fInTried
    ensures Inv(Unlist(s, id), {id}, -1)
  {
    UnlistNewOk(s, id);
    RefChangeKeeps(s, Unlist(s, id), id, s.mapInfo[id].nRefCount - |OwnSlots(s, id)|, {}, {id}, 0, -1);
  }

  /** What MakeTried asserts after its loop: the entry has no reference left. */
  lemma UnlistDrops(s: State, id: int)
    requires Check(s) && id in s.mapInfo && !s.mapInfo[id].fInTried
    ensures id != -1 && id in Unlist(s, id).mapInfo && Unlist(s, id).mapInfo[id].nRefCount == 0
  {
    UnlistNewOk(s, id);
  }

  /** Take the entry of a tried slot out of the tried table. */
  function Untry(s: State, t: Slot): State
    requires t in s.vvTried && s.vvTried[t] in s.mapInfo
  {
    var n := s.vvTried[t];
    s.(mapInfo := s.mapInfo[n := s.mapInfo[n].(fInTried := false)],
       vvTried := s.vvTried - {t},
       nTried := s.nTried - 1)
  }

  lemma UntryTables(s: State, t: Slot, limbo: set<int>, off: int)
    requires Inv(s, limbo, off) && t in s.vvTried && s.vvTried[t] in s.mapInfo
    ensures var n, info' := s.vvTried[t], Untry(s, t).mapInfo;
            && s.mapInfo[n].fInTried && n !in limbo
            && NewOk(info', s.vvNew, s.h, s.nKey, limbo + {n})
            && TriedOk(info', s.vvTried - {t}, s.h, s.nKey)
  {
    var n, info' := s.vvTried[t], Untry(s, t).mapInfo;
    assert TriedSlotOk(s.mapInfo, n, s.h, s.nKey, t);
    forall m | m in info' ensures RefOk(info'[m], m in limbo + {n}) { assert RefOk(s.mapInfo[m], m in limbo); }
    forall u | u in s.vvNew ensures NewSlotOk(info', s.vvNew[u], s.h, s.nKey, u) {
      assert NewSlotOk(s.mapInfo, s.vvNew[u], s.h, s.nKey, u);
    }
    forall u | u in s.vvTried - {t} ensures TriedSlotOk(info', s.vvTried[u], s.h, s.nKey, u) {
      assert TriedSlotOk(s.mapInfo, s.vvTried[u], s.h, s.nKey, u);
    }
    forall m | m in info' && info'[m].fInTried ensures InSlot(s.vvTried - {t}, TriedSlot(s.h, s.nKey, info'[m].service), m) {
      assert InSlot(s.vvTried, TriedSlot(s.h, s.nKey, s.mapInfo[m].service), m);
    }
  }

  /** Flipping fInTried of one entry moves it from one counted set to the other. */
  lemma FlipCounts(info: map<int, Info>, n: int, tried: bool)
    requires n in info && info[n].fInTried != tried
    ensures var info' := info[n := info[n].(fInTried := tried)];
            && |Tried(info')| == |Tried(info)| + (if tried then 1 else -1)
            && |Untried(info')| == |Untried(info)| + (if tried then -1 else 1)
  {
    var info' := info[n := info[n].(fInTried := tried)];
    if tried {
      assert Tried(info') == Tried(info) + {n} && Untried(info') == Untried(info) - {n};
    } else {
      assert Tried(info') == Tried(info) - {n} && Untried(info') == Untried(info) + {n};
    }
  }

  lemma UntryKeepsInv(s: State, t: Slot, limbo: set<int>, off: int)
    requires Inv(s, limbo, off) && t in s.vvTried
    ensures s.vvTried[t] in s.mapInfo && s.vvTried[t] !in limbo
    ensures Inv(Untry(s, t), limbo + {s.vvTried[t]}, off - 1)
  {
    assert TriedSlotOk(s.mapInfo, s.vvTried[t], s.h, s.nKey, t);
    UntryTables(s, t, limbo, off);
    FlipCounts(s.mapInfo, s.vvTried[t], false);
    FlipIndexes(s, s.vvTried[t], false);
  }

  lemma FlipIndexes(s: State, n: int, tried: bool)
    requires n in s.mapInfo && IdsBelow(s.mapInfo, s.nIdCount) && Ordered(s.mapInfo, s.vRandom)
    requires Indexed(s.mapInfo, s.mapAddr)
    ensures var info' := s.mapInfo[n := s.mapInfo[n].(fInTried := tried)];
            IdsBelow(info', s.nIdCount) && Ordered(info', s.vRandom) && Indexed(info', s.mapAddr)
  {}

  /** An entry in limbo occupies no new slot, so clearing one does not touch it. */
  lemma LimboIsSafe(s: State, n: int, t: Slot, limbo: set<int>, off: int)
    requires Inv(s, limbo, off) && n in limbo
    ensures Clearable(s, t) && (t in s.vvNew ==> s.vvNew[t] != n)
    ensures n in ClearNew(s, t).mapInfo && SamePlace(s.mapInfo[n], ClearNew(s, t).mapInfo[n])
    ensures ClearNew(s, t).vvTried == s.vvTried && ClearNew(s, t).h == s.h && ClearNew(s, t).nKey == s.nKey
  {
    InvClearable(s, t, limbo, off);
    if t in s.vvNew { DropNewOk(s, t, limbo); }
    ClearNewLeavesOthers(s, t, n);
  }

  function HomeSlot(s: State, n: int): Slot
    requires n in s.mapInfo
  {
    NewSlot(s.h, s.nKey, s.mapInfo[n].service, s.mapInfo[n].source)
  }

  /** Enter an evicted entry into the new table again, clearing the slot it needs. */
  function Relist(s: State, n: int): State
    requires Ordered(s.mapInfo, s.vRandom) && n in s.mapInfo
    requires Clearable(s, HomeSlot(s, n)) && n in ClearNew(s, HomeSlot(s, n)).mapInfo
  {
    Place(ClearNew(s, HomeSlot(s, n)), n, HomeSlot(s, n))
  }

  /** The first reference of an entry, in an empty slot. */
  function Place(s: State, n: int, t: Slot): State
    requires n in s.mapInfo && t !in s.vvNew
  {
    s.(mapInfo := s.mapInfo[n := s.mapInfo[n].(nRefCount := 1)],
       vvNew := s.vvNew[t := n],
       nNew := s.nNew + 1)
  }

  lemma PlaceKeepsInv(s: State, n: int, t: Slot, limbo: set<int>, off: int)
    requires Inv(s, limbo, off) && n in limbo
    requires t !in s.vvNew && NewSlotOk(s.mapInfo, n, s.h, s.nKey, t)
    ensures Inv(Place(s, n, t), limbo - {n}, off + 1)
  {
    assert RefOk(s.mapInfo[n], n in limbo);
    AddNewOk(s, n, t, limbo);
    RefChangeKeeps(s, Place(s, n, t), n, 1, limbo, limbo - {n}, off, off + 1);
  }

  lemma NewSlotRange(h: Hashes, key: Key, a: Service, source: Ip)
    ensures var t := NewSlot(h, key, a, source);
            0 <= t.bucket < NEW_BUCKETS && t == NewSlotIn(h, key, a, t.bucket)
  {}

  lemma RelistDefined(s: State, n: int, limbo: set<int>, off: int)
    requires Inv(s, limbo, off) && n in limbo
    ensures n in s.mapInfo && Clearable(s, HomeSlot(s, n))
    ensures n in ClearNew(s, HomeSlot(s, n)).mapInfo
  {
    LimboIsSafe(s, n, HomeSlot(s, n), limbo, off);
  }

  lemma RelistKeepsInv(s: State, n: int, limbo: set<int>, off: int)
    requires Inv(s, limbo, off) && n in limbo
    ensures Relist.requires(s, n)
    ensures Inv(Relist(s, n), limbo - {n}, off + 1)
  {
    RelistDefined(s, n, limbo, off);
    var t := HomeSlot(s, n);
    LimboIsSafe(s, n, t, limbo, off);
    ClearNewKeepsInv(s, t, limbo, off);
    NewSlotRange(s.h, s.nKey, s.mapInfo[n].service, s.mapInfo[n].source);
    PlaceKeepsInv(ClearNew(s, t), n, t, limbo, off);
  }

  /** Move the entry of a tried slot back to the new table. */
  function Evict(s: State, t: Slot, ghost limbo: set<int>, ghost off: int): State
    requires Inv(s, limbo, off) && t in s.vvTried
  {
    UntryKeepsInv(s, t, limbo, off);
    RelistKeepsInv(Untry(s, t), s.vvTried[t], limbo + {s.vvTried[t]}, off - 1);
    Relist(Untry(s, t), s.vvTried[t])
  }

  lemma EvictKeepsInv(s: State, t: Slot, limbo: set<int>, off: int)
    requires Inv(s, limbo, off) && t in s.vvTried
    ensures Inv(Evict(s, t, limbo, off), limbo, off)
  {
    UntryKeepsInv(s, t, limbo, off);
    RelistAfter(Untry(s, t), s.vvTried[t], limbo, off);
  }

  lemma RelistAfter(s: State, n: int, limbo: set<int>, off: int)
    requires Inv(s, limbo + {n}, off - 1) && n !in limbo
    ensures n in s.mapInfo && Clearable(s, HomeSlot(s, n)) && n in ClearNew(s, HomeSlot(s, n)).mapInfo
    ensures Inv(Relist(s, n), limbo, off)
  {
    RelistDefined(s, n, limbo + {n}, off - 1);
    RelistKeepsInv(s, n, limbo + {n}, off - 1);
    assert limbo + {n} - {n} == limbo;
  }

  /** Eviction frees the slot and does not touch the entry that waits for it. */
  lemma EvictLeavesOthers(s: State, t: Slot, n: int, limbo: set<int>, off: int)
    requires Inv(s, limbo, off) && t in s.vvTried && n in limbo
    ensures var e := Evict(s, t, limbo, off);
            && e.vvTried == s.vvTried - {t} && e.h == s.h && e.nKey == s.nKey
            && n in e.mapInfo && e.mapInfo[n].service == s.mapInfo[n].service
  {
    var old' := s.vvTried[t];
    UntryKeepsInv(s, t, limbo, off);
    RelistDefined(Untry(s, t), old', limbo + {old'}, off - 1);
    LimboIsSafe(Untry(s, t), n, HomeSlot(Untry(s, t), old'), limbo + {old'}, off - 1);
  }

  /** The entry takes an empty tried slot. */
  function EnterTried(s: State, id: int, t: Slot): State
    requires id in s.mapInfo && t !in s.vvTried
  {
    s.(vvTried := s.vvTried[t := id],
       nTried := s.nTried + 1,
       mapInfo := s.mapInfo[id := s.mapInfo[id].(fInTried := true)])
  }

  lemma EnterTables(s: State, id: int, t: Slot, limbo: set<int>, off: int)
    requires Inv(s, limbo, off) && id in limbo
    requires t !in s.vvTried && t == TriedSlot(s.h, s.nKey, s.mapInfo[id].service)
    ensures var e := EnterTried(s, id, t);
            && NewOk(e.mapInfo, s.vvNew, s.h, s.nKey, limbo - {id})
            && TriedOk(e.mapInfo, e.vvTried, s.h, s.nKey)
  {
    var info', v' := EnterTried(s, id, t).mapInfo, EnterTried(s, id, t).vvTried;
    forall m | m in info' ensures RefOk(info'[m], m in limbo - {id}) { assert RefOk(s.mapInfo[m], m in limbo); }
    forall u | u in s.vvNew ensures NewSlotOk(info', s.vvNew[u], s.h, s.nKey, u) {
      assert NewSlotOk(s.mapInfo, s.vvNew[u], s.h, s.nKey, u);
    }
    forall u | u in v' ensures TriedSlotOk(info', v'[u], s.h, s.nKey, u) {
      if u != t { assert TriedSlotOk(s.mapInfo, s.vvTried[u], s.h, s.nKey, u); }
    }
    forall m | m in info' && info'[m].fInTried ensures InSlot(v', TriedSlot(s.h, s.nKey, info'[m].service), m) {
      if m != id { assert InSlot(s.vvTried, TriedSlot(s.h, s.nKey, s.mapInfo[m].service), m); }
    }
  }

  lemma EnterKeepsInv(s: State, id: int, t: Slot, limbo: set<int>, off: int)
    requires Inv(s, limbo, off) && id in limbo
    requires t !in s.vvTried && t == TriedSlot(s.h, s.nKey, s.mapInfo[id].service)
    ensures Inv(EnterTried(s, id, t), limbo - {id}, off + 1)
  {
    EnterTables(s, id, t, limbo, off);
    FlipCounts(s.mapInfo, id, true);
  }

  /** Unlist the entry and free its tried slot. */
  function MakeRoom(s: State, id: int): State
    requires Check(s) && id in s.mapInfo && !s.mapInfo[id].fInTried
  {
    UnlistKeepsInv(s, id);
    var u := Unlist(s, id);
    var t := TriedSlot(s.h, s.nKey, s.mapInfo[id].service);
    if t in u.vvTried then Evict(u, t, {id}, -1) else u
  }

  lemma MakeRoomKeepsInv(s: State, id: int)
    requires Check(s) && id in s.mapInfo && !s.mapInfo[id].fInTried
    ensures var r := MakeRoom(s, id);
            && Inv(r, {id}, -1) && id in r.mapInfo && r.mapInfo[id].service == s.mapInfo[id].service
            && TriedSlot(s.h, s.nKey, s.mapInfo[id].service) !in r.vvTried && r.h == s.h && r.nKey == s.nKey
  {
    UnlistKeepsInv(s, id);
    var u := Unlist(s, id);
    var t := TriedSlot(s.h, s.nKey, s.mapInfo[id].service);
    if t in u.vvTried {
      EvictKeepsInv(u, t, {id}, -1);
      EvictLeavesOthers(u, t, id, {id}, -1);
    }
  }

  function MakeTried(s: State, id: int): State
    requires Check(s) && id in s.mapInfo && !s.mapInfo[id].fInTried
  {
    MakeRoomKeepsInv(s, id);
    EnterTried(MakeRoom(s, id), id, TriedSlot(s.h, s.nKey, s.mapInfo[id].service))
  }

  lemma MakeTriedKeepsCheck(s: State, id: int)
    requires Check(s) && id in s.mapInfo && !s.mapInfo[id].fInTried
    ensures Check(MakeTried(s, id))
  {
    MakeRoomKeepsInv(s, id);
    EnterKeepsInv(MakeRoom(s, id), id, TriedSlot(s.h, s.nKey, s.mapInfo[id].service), {id}, -1);
    assert {id} - {id} == {};
  }

  // ----- the public operations -----

  /** CAddrInfo::IsTerrible. */
  predicate IsTerrible(i: Info, now: int) {
    if i.nLastTry != 0 && i.nLastTry >= now - 60 then false
    else
      || i.nTime > now + 10 * 60
      || i.nTime == 0
      || now - i.nTime > 30 * 24 * 60 * 60
      || (i.nLastSuccess == 0 && i.nAttempts >= 3)
      || (now - i.nLastSuccess > 7 * 24 * 60 * 60 && i.nAttempts >= 10)
  }

  /** The entry for exactly this service, if there is one. */
  predicate Known(s: State, a: Service) {
    a.ip in s.mapAddr && s.mapAddr[a.ip] in s.mapInfo && s.mapInfo[s.mapAddr[a.ip]].service == a
  }

  function SetInfo(s: State, n: int, i: Info): State { s.(mapInfo := s.mapInfo[n := i]) }

  function Attempt(s: State, a: Service, fCountFailure: bool, nTime: int): State {
    if !Known(s, a) then s
    else
      var n := s.mapAddr[a.ip];
      var i := s.mapInfo[n].(nLastTry := nTime);
      SetInfo(s, n, if fCountFailure && i.nLastCountAttempt < s.nLastGood
                    then i.(nLastCountAttempt := nTime, nAttempts := i.nAttempts + 1) else i)
  }

  function Connected(s: State, a: Service, nTime: int): State {
    if !Known(s, a) then s
    else
      var n := s.mapAddr[a.ip];
      SetInfo(s, n, if nTime - s.mapInfo[n].nTime > 20 * 60 then s.mapInfo[n].(nTime := nTime) else s.mapInfo[n])
  }

  function SetServices(s: State, a: Service, nServices: set<nat>): State {
    if !Known(s, a) then s
    else
      var n := s.mapAddr[a.ip];
      SetInfo(s, n, s.mapInfo[n].(nServices := nServices))
  }

  /** The part of Good_ before the entry is moved. */
  function MarkGood(s: State, a: Service, nTime: int): State {
    var g := s.(nLastGood := nTime);
    if !Known(s, a) then g
    else
      var n := s.mapAddr[a.ip];
      SetInfo(g, n, s.mapInfo[n].(nLastSuccess := nTime, nLastTry := nTime, nAttempts := 0))
  }

  lemma MarkGoodKeepsCheck(s: State, a: Service, nTime: int)
    requires Check(s)
    ensures Check(MarkGood(s, a, nTime))
  {
    var g := s.(nLastGood := nTime);
    assert Check(g);
    if Known(s, a) {
      var n := s.mapAddr[a.ip];
      StatsKeepInv(g, n, s.mapInfo[n].(nLastSuccess := nTime, nLastTry := nTime, nAttempts := 0), {}, 0);
    }
  }

  function Good(s: State, a: Service, nTime: int): State
    requires Check(s)
  {
    MarkGoodKeepsCheck(s, a, nTime);
    var g := MarkGood(s, a, nTime);
    if !Known(s, a) || g.mapInfo[s.mapAddr[a.ip]].fInTried || OwnSlots(g, s.mapAddr[a.ip]) == {} then g
    else MakeTried(g, s.mapAddr[a.ip])
  }

  lemma GoodKeepsCheck(s: State, a: Service, nTime: int)
    requires Check(s)
    ensures Check(Good(s, a, nTime))
  {
    MarkGoodKeepsCheck(s, a, nTime);
    var g := MarkGood(s, a, nTime);
    if Known(s, a) && !g.mapInfo[s.mapAddr[a.ip]].fInTried && OwnSlots(g, s.mapAddr[a.ip]) != {} {
      MakeTriedKeepsCheck(g, s.mapAddr[a.ip]);
    }
  }

  /** The branch of Good_ for an entry in no bucket is never taken. */
  lemma UntriedHasSlot(s: State, n: int)
    requires Check(s) && n in s.mapInfo && !s.mapInfo[n].fInTried
    ensures OwnSlots(s, n) != {}
  {
    OwnSlotsAreAll(s, n, {});
    assert RefOk(s.mapInfo[n], n in {});
  }

  // ----- Add_ -----

  /** What hearing of a known address again changes in its entry. */
  function Refresh(i: Info, a: Address, nTimePenalty: int, now: int): Info {
    var nUpdateInterval := if now - a.nTime < 24 * 60 * 60 then 60 * 60 else 24 * 60 * 60;
    i.(nTime := if a.nTime != 0 && (i.nTime == 0 || i.nTime < a.nTime - nUpdateInterval - nTimePenalty)
                then Max(0, a.nTime - nTimePenalty) else i.nTime,
       nServices := i.nServices + a.nServices)
  }

  /** Whether a known entry may get one more reference; coin is RandomInt's answer. */
  predicate Multiplies(i: Info, a: Address, coin: nat) {
    && !(a.nTime == 0 || (i.nTime != 0 && a.nTime <= i.nTime))
    && !i.fInTried
    && i.nRefCount != NEW_PER_ADDRESS
    && (i.nRefCount <= 0 || coin % Pow2(i.nRefCount) == 0)
  }

  /** Whether the slot is given to entry id. */
  predicate Inserts(s: State, id: int, t: Slot, now: int)
    requires id in s.mapInfo && (t in s.vvNew ==> s.vvNew[t] in s.mapInfo)
  {
    || t !in s.vvNew
    || IsTerrible(s.mapInfo[s.vvNew[t]], now)
    || (s.mapInfo[s.vvNew[t]].nRefCount > 1 && s.mapInfo[id].nRefCount == 0)
  }

  ghost predicate Settles(s: State, id: int, t: Slot, limbo: set<int>) {
    && Inv(s, limbo, 0) && limbo <= {id}
    && id in s.mapInfo && !s.mapInfo[id].fInTried && s.mapInfo[id].nRefCount < NEW_PER_ADDRESS
    && NewSlotOk(s.mapInfo, id, s.h, s.nKey, t)
  }

  lemma SettleFacts(s: State, id: int, t: Slot, limbo: set<int>)
    requires Settles(s, id, t, limbo)
    ensures Clearable(s, t) && (t in s.vvNew ==> s.vvNew[t] !in limbo)
    ensures s.mapInfo[id].nRefCount == 0 <==> id in limbo
  {
    InvClearable(s, t, limbo, 0);
    if t in s.vvNew { DropNewOk(s, t, limbo); }
    assert RefOk(s.mapInfo[id], id in limbo);
  }

  /** The end of Add_: entry id gets slot t, or is dropped if it has no slot at all. */
  function Settle(s: State, id: int, t: Slot, now: int, ghost limbo: set<int>): State
    requires Settles(s, id, t, limbo)
  {
    SettleFacts(s, id, t, limbo);
    if InSlot(s.vvNew, t, id) then s
    else if Inserts(s, id, t, now) then
      ClearNewLeavesOthers(s, t, id);
      AddRef(ClearNew(s, t), id, t)
    else if s.mapInfo[id].nRefCount == 0 then Delete(s, id)
    else s
  }

  lemma InsertKeepsCheck(s: State, id: int, t: Slot, limbo: set<int>)
    requires Settles(s, id, t, limbo) && !InSlot(s.vvNew, t, id)
    ensures Clearable(s, t) && id in ClearNew(s, t).mapInfo
    ensures Check(AddRef(ClearNew(s, t), id, t))
  {
    SettleFacts(s, id, t, limbo);
    ClearNewLeavesOthers(s, t, id);
    ClearNewKeepsInv(s, t, limbo, 0);
    AddRefKeepsInv(ClearNew(s, t), id, t, limbo, 0);
    assert limbo - {id} == {};
  }

  lemma SettleKeepsCheck(s: State, id: int, t: Slot, now: int, limbo: set<int>)
    requires Settles(s, id, t, limbo)
    ensures Check(Settle(s, id, t, now, limbo))
  {
    SettleFacts(s, id, t, limbo);
    if InSlot(s.vvNew, t, id) {
      assert limbo == {};
    } else if Inserts(s, id, t, now) {
      InsertKeepsCheck(s, id, t, limbo);
    } else if s.mapInfo[id].nRefCount == 0 {
      DeleteKeepsInv(s, id, limbo, 0);
      assert limbo - {id} == {};
    } else {
      assert limbo == {};
    }
  }

  /** A new entry with its penalised time stamp, counted but not yet in any slot. */
  function Introduce(s: State, a: Address, source: Ip, nTimePenalty: int): State {
    var c := Create(s, a.(nTime := Max(0, a.nTime - nTimePenalty)), source);
    c.(nNew := c.nNew + 1)
  }

  lemma IntroduceKeepsInv(s: State, a: Address, source: Ip, nTimePenalty: int)
    requires Check(s) && a.service.ip !in s.mapAddr
    ensures Inv(Introduce(s, a, source, nTimePenalty), {s.nIdCount}, 0)
  {
    CreatedKeepsInv(s, Introduce(s, a, source, nTimePenalty), a.(nTime := Max(0, a.nTime - nTimePenalty)), source, 0);
  }

  datatype Added = Added(state: State, fNew: bool)

  /** Add_ for an address that is not known yet. */
  function AddUnknown(s: State, a: Address, source: Ip, nTimePenalty: int, now: int): State
    requires Check(s) && a.service.ip !in s.mapAddr
  {
    var i := Introduce(s, a, source, nTimePenalty);
    IntroduceKeepsInv(s, a, source, nTimePenalty);
    NewSlotRange(s.h, s.nKey, a.service, source);
    Settle(i, s.nIdCount, NewSlot(s.h, s.nKey, a.service, source), now, {s.nIdCount})
  }

  /** Add_ for an address whose ip is known: refresh, and perhaps one more reference. */
  function AddKnown(s: State, a: Address, source: Ip, nTimePenalty: int, now: int, coin: nat): State
    requires Check(s) && a.service.ip in s.mapAddr
  {
    var n := s.mapAddr[a.service.ip];
    var i := Refresh(s.mapInfo[n], a, nTimePenalty, now);
    var r := SetInfo(s, n, i);
    if !Multiplies(i, a, coin) then r
    else
      StatsKeepInv(s, n, i, {}, 0);
      assert RefOk(i, n in {});
      NewSlotRange(s.h, s.nKey, i.service, source);
      Settle(r, n, NewSlot(s.h, s.nKey, i.service, source), now, {})
  }

  function Add(s: State, a: Address, source: Ip, nTimePenalty: int, now: int, coin: nat): Added
    requires Check(s)
  {
    if !a.routable then Added(s, false)
    else if a.service.ip in s.mapAddr then Added(AddKnown(s, a, source, nTimePenalty, now, coin), false)
    else Added(AddUnknown(s, a, source, nTimePenalty, now), true)
  }

  lemma AddUnknownKeepsCheck(s: State, a: Address, source: Ip, nTimePenalty: int, now: int)
    requires Check(s) && a.service.ip !in s.mapAddr
    ensures Check(AddUnknown(s, a, source, nTimePenalty, now))
  {
    IntroduceKeepsInv(s, a, source, nTimePenalty);
    NewSlotRange(s.h, s.nKey, a.service, source);
    var t := NewSlot(s.h, s.nKey, a.service, source);
    SettleKeepsCheck(Introduce(s, a, source, nTimePenalty), s.nIdCount, t, now, {s.nIdCount});
  }

  lemma AddKnownKeepsCheck(s: State, a: Address, source: Ip, nTimePenalty: int, now: int, coin: nat)
    requires Check(s) && a.service.ip in s.mapAddr
    ensures Check(AddKnown(s, a, source, nTimePenalty, now, coin))
  {
    var n := s.mapAddr[a.service.ip];
    var i := Refresh(s.mapInfo[n], a, nTimePenalty, now);
    StatsKeepInv(s, n, i, {}, 0);
    if Multiplies(i, a, coin) {
      assert RefOk(i, n in {});
      NewSlotRange(s.h, s.nKey, i.service, source);
      SettleKeepsCheck(SetInfo(s, n, i), n, NewSlot(s.h, s.nKey, i.service, source), now, {});
    }
  }

  // ----- GetAddr_ -----

  function Wanted(s: State): nat {
    var n := 23 * |s.vRandom| / 100;
    if n > 2500 then 2500 else n
  }

  /** The state after GetAddr_ and the ids of the entries it returned. */
  datatype Collected = Collected(state: State, out: seq<int>)

  /** RandomInt(size - n) + n. */
  function DrawPos(n: nat, size: nat, r: nat): (pos: nat)
    requires n < size
    ensures n <= pos < size
  {
    r % (size - n) + n
  }

  /** Iteration n of GetAddr_ brings a random later entry to position n of vRandom. */
  function Draw(s: State, n: nat, r: nat): State
    requires Ordered(s.mapInfo, s.vRandom) && n < |s.vRandom|
  {
    SwapRandom(s, n, DrawPos(n, |s.vRandom|, r))
  }

  function Collect(s: State, n: nat, out: seq<int>, now: int): seq<int>
    requires Ordered(s.mapInfo, s.vRandom) && n < |s.vRandom|
  {
    if IsTerrible(s.mapInfo[s.vRandom[n]], now) then out else out + [s.vRandom[n]]
  }

  predicate SameEntry(a: Info, b: Info) { a.(nRandomPos := b.nRandomPos) == b }

  /** r is s up to the order in vRandom. */
  ghost predicate Reordered(s: State, r: State) {
    && r == s.(mapInfo := r.mapInfo, vRandom := r.vRandom)
    && |r.vRandom| == |s.vRandom|
    && r.mapInfo.Keys == s.mapInfo.Keys
    && (forall m | m in s.mapInfo :: SameEntry(s.mapInfo[m], r.mapInfo[m]))
  }

  lemma ReorderedTrans(s: State, r: State, q: State)
    requires Reordered(s, r) && Reordered(r, q)
    ensures Reordered(s, q)
  {
    forall m | m in s.mapInfo ensures SameEntry(s.mapInfo[m], q.mapInfo[m]) {
      assert SameEntry(s.mapInfo[m], r.mapInfo[m]) && SameEntry(r.mapInfo[m], q.mapInfo[m]);
    }
  }

  lemma ReorderedKeepsCheck(s: State, r: State)
    requires Check(s) && Reordered(s, r) && Ordered(r.mapInfo, r.vRandom)
    ensures Check(r)
  {
    forall m | m in s.mapInfo ensures SamePlace(s.mapInfo[m], r.mapInfo[m]) {
      assert SameEntry(s.mapInfo[m], r.mapInfo[m]);
    }
    SameTablesKeep(s, r.mapInfo, {}, 0);
  }

  lemma DrawReorders(s: State, n: nat, r: nat)
    requires Ordered(s.mapInfo, s.vRandom) && n < |s.vRandom|
    ensures Ordered(Draw(s, n, r).mapInfo, Draw(s, n, r).vRandom) && Reordered(s, Draw(s, n, r))
    ensures forall k | 0 <= k < n :: Draw(s, n, r).vRandom[k] == s.vRandom[k]
  {
    SwapOrdered(s, n, DrawPos(n, |s.vRandom|, r));
  }

  /** The loop of GetAddr_ from index n on; rnd(n) is the random number drawn in iteration n. */
  function GetAddrFrom(s: State, n: nat, out: seq<int>, wanted: nat, rnd: nat -> nat, now: int): Collected
    requires Ordered(s.mapInfo, s.vRandom) && n <= |s.vRandom|
    decreases |s.vRandom| - n
  {
    if n == |s.vRandom| || |out| >= wanted then Collected(s, out)
    else
      DrawReorders(s, n, rnd(n));
      var w := Draw(s, n, rnd(n));
      GetAddrFrom(w, n + 1, Collect(w, n, out, now), wanted, rnd, now)
  }

  function GetAddr(s: State, rnd: nat -> nat, now: int): Collected
    requires Ordered(s.mapInfo, s.vRandom)
  {
    GetAddrFrom(s, 0, [], Wanted(s), rnd, now)
  }

  lemma {:induction false} GetAddrReorders(s: State, n: nat, out: seq<int>, wanted: nat, rnd: nat -> nat, now: int)
    requires Ordered(s.mapInfo, s.vRandom) && n <= |s.vRandom|
    ensures var c := GetAddrFrom(s, n, out, wanted, rnd, now);
            Reordered(s, c.state) && Ordered(c.state.mapInfo, c.state.vRandom)
    decreases |s.vRandom| - n
  {
    if n != |s.vRandom| && |out| < wanted {
      DrawReorders(s, n, rnd(n));
      var w := Draw(s, n, rnd(n));
      var out' := Collect(w, n, out, now);
      GetAddrReorders(w, n + 1, out', wanted, rnd, now);
      ReorderedTrans(s, w, GetAddrFrom(w, n + 1, out', wanted, rnd, now).state);
    }
  }

  lemma GetAddrKeepsCheck(s: State, rnd: nat -> nat, now: int)
    requires Check(s)
    ensures Check(GetAddr(s, rnd, now).state)
  {
    GetAddrReorders(s, 0, [], Wanted(s), rnd, now);
    ReorderedKeepsCheck(s, GetAddr(s, rnd, now).state);
  }

  predicate Offered(s: State, out: seq<int>, n: int, now: int) {
    n in out <==> n in s.mapInfo && !IsTerrible(s.mapInfo[n], now)
  }

  /** out lists, without repetition, exactly the entries among the first n of vRandom that are not terrible. */
  ghost predicate Gathered(s: State, n: nat, out: seq<int>, now: int) {
    && Ordered(s.mapInfo, s.vRandom) && n <= |s.vRandom|
    && (forall k | 0 <= k < n :: Offered(s, out, s.vRandom[k], now))
    && (forall x | x in out :: x in s.vRandom[..n])
    && (forall i, j | 0 <= i < j < |out| :: out[i] != out[j])
  }

  lemma CollectStep(s: State, n: nat, out: seq<int>, now: int)
    requires Gathered(s, n, out, now) && n < |s.vRandom|
    ensures Gathered(s, n + 1, Collect(s, n, out, now), now)
  {
    var out', id := Collect(s, n, out, now), s.vRandom[n];
    assert s.mapInfo[id].nRandomPos == n;
    assert id !in s.vRandom[..n] by {
      forall k | 0 <= k < n ensures s.vRandom[k] != id { assert s.mapInfo[s.vRandom[k]].nRandomPos == k; }
    }
    forall k | 0 <= k < n + 1 ensures Offered(s, out', s.vRandom[k], now) {
      if k < n { assert Offered(s, out, s.vRandom[k], now); assert s.vRandom[k] in s.vRandom[..n]; }
    }
    assert s.vRandom[..n + 1] == s.vRandom[..n] + [id];
  }

  lemma DrawKeepsGathered(s: State, n: nat, out: seq<int>, r: nat, now: int)
    requires Gathered(s, n, out, now) && n < |s.vRandom|
    ensures Gathered(Draw(s, n, r), n, out, now)
  {
    var w := Draw(s, n, r);
    DrawReorders(s, n, r);
    forall k | 0 <= k < n ensures Offered(w, out, w.vRandom[k], now) {
      assert Offered(s, out, s.vRandom[k], now);
      assert SameEntry(s.mapInfo[s.vRandom[k]], w.mapInfo[s.vRandom[k]]);
    }
    assert w.vRandom[..n] == s.vRandom[..n];
  }

  lemma {:induction false} GetAddrGathers(s: State, n: nat, out: seq<int>, wanted: nat, rnd: nat -> nat, now: int)
    returns (m: nat)
    requires Gathered(s, n, out, now) && |out| <= wanted
    ensures var c := GetAddrFrom(s, n, out, wanted, rnd, now);
            Gathered(c.state, m, c.out, now) && |c.out| <= wanted && (|c.out| < wanted ==> m == |c.state.vRandom|)
    decreases |s.vRandom| - n
  {
    if n == |s.vRandom| || |out| >= wanted {
      m := n;
    } else {
      DrawKeepsGathered(s, n, out, rnd(n), now);
      var w := Draw(s, n, rnd(n));
      CollectStep(w, n, out, now);
      m := GetAddrGathers(w, n + 1, Collect(w, n, out, now), wanted, rnd, now);
    }
  }

  /**
   * GetAddr_ returns at most 23% of the entries and at most 2500, each at most once and none of
   * them terrible; and if it returns fewer than that, it returned every entry that is not terrible.
   */
  lemma GetAddrIsFair(s: State, rnd: nat -> nat, now: int)
    requires Check(s)
    ensures var c := GetAddr(s, rnd, now);
            && |c.out| <= Wanted(s)
            && (forall i, j | 0 <= i < j < |c.out| :: c.out[i] != c.out[j])
            && (forall x | x in c.out :: x in s.mapInfo && !IsTerrible(s.mapInfo[x], now))
            && (|c.out| < Wanted(s) ==> forall x | x in s.mapInfo && !IsTerrible(s.mapInfo[x], now) :: x in c.out)
  {
    var c := GetAddr(s, rnd, now);
    GetAddrReorders(s, 0, [], Wanted(s), rnd, now);
    var m := GetAddrGathers(s, 0, [], Wanted(s), rnd, now);
    GatheredMeans(s, c.state, m, c.out, now);
  }

  lemma GatheredMeans(s: State, r: State, m: nat, out: seq<int>, now: int)
    requires Gathered(r, m, out, now) && Reordered(s, r)
    ensures forall x | x in out :: x in s.mapInfo && !IsTerrible(s.mapInfo[x], now)
    ensures m == |r.vRandom| ==> forall x | x in s.mapInfo && !IsTerrible(s.mapInfo[x], now) :: x in out
  {
    forall x | x in out ensures x in s.mapInfo && !IsTerrible(s.mapInfo[x], now) {
      var k :| 0 <= k < m && r.vRandom[k] == x;
      assert Offered(r, out, r.vRandom[k], now);
      assert SameEntry(s.mapInfo[x], r.mapInfo[x]);
    }
    if m == |r.vRandom| {
      forall x | x in s.mapInfo && !IsTerrible(s.mapInfo[x], now) ensures x in out {
        assert SameEntry(s.mapInfo[x], r.mapInfo[x]);
        assert Offered(r, out, r.vRandom[r.mapInfo[x].nRandomPos], now);
      }
    }
  }

  // ----- what Good_ and Add_ achieve -----

  /** After Good_ a known service is in the tried table, in its own slot and in no new slot. */
  lemma GoodMakesTried(s: State, a: Service, nTime: int)
    requires Check(s) && Known(s, a)
    ensures var g, n := Good(s, a, nTime), s.mapAddr[a.ip];
            && n in g.mapInfo && g.mapInfo[n].service == a && g.mapInfo[n].fInTried
            && InSlot(g.vvTried, TriedSlot(s.h, s.nKey, a), n)
            && SlotsOf(g.vvNew, n) == {}
  {
    var n := s.mapAddr[a.ip];
    MarkGoodKeepsCheck(s, a, nTime);
    var m := MarkGood(s, a, nTime);
    if !m.mapInfo[n].fInTried {
      UntriedHasSlot(m, n);
      MakeRoomKeepsInv(m, n);
    }
    GoodKeepsCheck(s, a, nTime);
    TriedFacts(Good(s, a, nTime), n);
  }

  lemma TriedFacts(s: State, n: int)
    requires Check(s) && n in s.mapInfo && s.mapInfo[n].fInTried
    ensures InSlot(s.vvTried, TriedSlot(s.h, s.nKey, s.mapInfo[n].service), n)
    ensures SlotsOf(s.vvNew, n) == {}
  {
    assert RefOk(s.mapInfo[n], n in {});
  }

  /** Whether Add_ finds a slot for an address it has not seen before. */
  predicate Room(s: State, t: Slot, now: int) {
    t in s.vvNew && s.vvNew[t] in s.mapInfo ==>
      IsTerrible(s.mapInfo[s.vvNew[t]], now) || s.mapInfo[s.vvNew[t]].nRefCount > 1
  }

  /**
   * Add_ answers true for every unknown routable address, but it keeps the address exactly when
   * the slot is free, or its occupant is terrible or has further references.
   */
  lemma AddUnknownStores(s: State, a: Address, source: Ip, nTimePenalty: int, now: int)
    requires Check(s) && a.service.ip !in s.mapAddr
    ensures var t, r := NewSlot(s.h, s.nKey, a.service, source), AddUnknown(s, a, source, nTimePenalty, now);
            a.service.ip in r.mapAddr <==> Room(s, t, now)
  {
    var i, id := Introduce(s, a, source, nTimePenalty), s.nIdCount;
    var t := NewSlot(s.h, s.nKey, a.service, source);
    IntroduceKeepsInv(s, a, source, nTimePenalty);
    NewSlotRange(s.h, s.nKey, a.service, source);
    SettleFacts(i, id, t, {id});
    if t in s.vvNew { assert NewSlotOk(s.mapInfo, s.vvNew[t], s.h, s.nKey, t); }
    assert Inserts(i, id, t, now) <==> Room(s, t, now);
    if Room(s, t, now) {
      InsertKeepsCheck(i, id, t, {id});
      ClearNewLeavesOthers(i, t, id);
      StillIndexed(AddRef(ClearNew(i, t), id, t), id, a.service.ip);
    }
  }

  /** Two addresses with the same slot, added to an empty manager: the second is not stored. */
  lemma AddUnknownLoses(key: Key, h: Hashes, a: Address, b: Address, source: Ip, now: int)
    requires a.service.ip != b.service.ip && 0 < a.nTime <= now && now - a.nTime <= 30 * 24 * 60 * 60
    requires NewSlot(h, key, a.service, source) == NewSlot(h, key, b.service, source)
    ensures Check(Empty(key, h))
    ensures var s := AddUnknown(Empty(key, h), a, source, 0, now);
            && Check(s) && b.service.ip !in s.mapAddr
            && b.service.ip !in AddUnknown(s, b, source, 0, now).mapAddr
  {
    EmptyPassesCheck(key, h);
    AddUnknownKeepsCheck(Empty(key, h), a, source, 0, now);
    FirstAddress(key, h, a, source, now);
    AddUnknownStores(AddUnknown(Empty(key, h), a, source, 0, now), b, source, 0, now);
  }

  lemma FirstAddress(key: Key, h: Hashes, a: Address, source: Ip, now: int)
    requires Check(Empty(key, h)) && a.nTime >= 0
    ensures var s, t := AddUnknown(Empty(key, h), a, source, 0, now), NewSlot(h, key, a.service, source);
            && s.h == h && s.nKey == key && s.mapAddr == map[a.service.ip := 0] && s.vvNew == map[t := 0]
            && s.mapInfo == map[0 := Info(a.service, a.nServices, a.nTime, source, 0, 0, 0, 0, 1, false, 0)]
  {}

  lemma StillIndexed(s: State, n: int, ip: Ip)
    requires Check(s) && n in s.mapInfo && s.mapInfo[n].service.ip == ip
    ensures ip in s.mapAddr && s.mapAddr[ip] == n
  {}

  /** Making room in a new slot costs at most the entry that held it. */
  lemma ClearNewLosesOne(s: State, t: Slot, limbo: set<int>, off: int)
    requires Inv(s, limbo, off)
    ensures Clearable(s, t)
    ensures var k := ClearNew(s, t).mapInfo.Keys;
            if t in s.vvNew && s.mapInfo[s.vvNew[t]].nRefCount == 1 then k == s.mapInfo.Keys - {s.vvNew[t]}
            else k == s.mapInfo.Keys
  {
    InvClearable(s, t, limbo, off);
    if t in s.vvNew {
      var d := DropRef(s, t);
      assert d.mapInfo.Keys == s.mapInfo.Keys;
      if s.mapInfo[s.vvNew[t]].nRefCount == 1 {
        DropKeepsInv(s, t, limbo, off);
        DeleteLeavesOthers(d, s.vvNew[t]);
      }
    }
  }

  // ----- whole runs -----

  datatype Op =
    | OpAdd(a: Address, source: Ip, nTimePenalty: int, now: int, coin: nat)
    | OpGood(service: Service, nTime: int)
    | OpAttempt(service: Service, fCountFailure: bool, nTime: int)
    | OpConnected(service: Service, nTime: int)
    | OpSetServices(service: Service, nServices: set<nat>)
    | OpGetAddr(rnd: nat -> nat, now: int)

  ghost function Step(s: State, op: Op): State
    requires Check(s)
  {
    match op
    case OpAdd(a, source, nTimePenalty, now, coin) => Add(s, a, source, nTimePenalty, now, coin).state
    case OpGood(a, nTime) => Good(s, a, nTime)
    case OpAttempt(a, fCountFailure, nTime) => Attempt(s, a, fCountFailure, nTime)
    case OpConnected(a, nTime) => Connected(s, a, nTime)
    case OpSetServices(a, nServices) => SetServices(s, a, nServices)
    case OpGetAddr(rnd, now) => GetAddr(s, rnd, now).state
  }

  lemma AddKeepsCheck(s: State, a: Address, source: Ip, nTimePenalty: int, now: int, coin: nat)
    requires Check(s)
    ensures Check(Add(s, a, source, nTimePenalty, now, coin).state)
  {
    if a.routable {
      if a.service.ip in s.mapAddr {
        AddKnownKeepsCheck(s, a, source, nTimePenalty, now, coin);
      } else {
        AddUnknownKeepsCheck(s, a, source, nTimePenalty, now);
      }
    }
  }

  lemma StatsOpsKeepCheck(s: State, a: Service, i: Info)
    requires Check(s) && Known(s, a) && SamePlace(s.mapInfo[s.mapAddr[a.ip]], i)
    requires i.nRandomPos == s.mapInfo[s.mapAddr[a.ip]].nRandomPos
    ensures Check(SetInfo(s, s.mapAddr[a.ip], i))
  {
    StatsKeepInv(s, s.mapAddr[a.ip], i, {}, 0);
  }

  lemma AttemptKeepsCheck(s: State, a: Service, fCountFailure: bool, nTime: int)
    requires Check(s)
    ensures Check(Attempt(s, a, fCountFailure, nTime))
  {
    if Known(s, a) { StatsOpsKeepCheck(s, a, Attempt(s, a, fCountFailure, nTime).mapInfo[s.mapAddr[a.ip]]); }
  }

  lemma ConnectedKeepsCheck(s: State, a: Service, nTime: int)
    requires Check(s)
    ensures Check(Connected(s, a, nTime))
  {
    if Known(s, a) { StatsOpsKeepCheck(s, a, Connected(s, a, nTime).mapInfo[s.mapAddr[a.ip]]); }
  }

  lemma SetServicesKeepsCheck(s: State, a: Service, nServices: set<nat>)
    requires Check(s)
    ensures Check(SetServices(s, a, nServices))
  {
    if Known(s, a) { StatsOpsKeepCheck(s, a, SetServices(s, a, nServices).mapInfo[s.mapAddr[a.ip]]); }
  }

  lemma StepKeepsCheck(s: State, op: Op)
    requires Check(s)
    ensures Check(Step(s, op))
  {
    match op
    case OpAdd(a, source, nTimePenalty, now, coin) => AddKeepsCheck(s, a, source, nTimePenalty, now, coin);
    case OpGood(a, nTime) => GoodKeepsCheck(s, a, nTime);
    case OpAttempt(a, fCountFailure, nTime) => AttemptKeepsCheck(s, a, fCountFailure, nTime);
    case OpConnected(a, nTime) => ConnectedKeepsCheck(s, a, nTime);
    case OpSetServices(a, nServices) => SetServicesKeepsCheck(s, a, nServices);
    case OpGetAddr(rnd, now) => GetAddrKeepsCheck(s, rnd, now);
  }

  lemma EmptyPassesCheck(key: Key, h: Hashes)
    ensures Check(Empty(key, h))
  {
    assert Tried(Empty(key, h).mapInfo) == {} && Untried(Empty(key, h).mapInfo) == {};
  }

  /** From an empty manager every sequence of operations reaches only states that Check_ accepts. */
  ghost function After(key: Key, h: Hashes, ops: seq<Op>): (s: State)
    ensures Check(s)
    decreases |ops|
  {
    if ops == [] then
      EmptyPassesCheck(key, h);
      Empty(key, h)
    else
      var before := After(key, h, ops[..|ops| - 1]);
      StepKeepsCheck(before, ops[|ops| - 1]);
      Step(before, ops[|ops| - 1])
  }

  lemma {:induction false} DistinctSize(xs: seq<int>)
    requires forall i, j | 0 <= i < j < |xs| :: xs[i] != xs[j]
    ensures |set x | x in xs| == |xs|
  {
    if xs != [] {
      var last := |xs| - 1;
      DistinctSize(xs[..last]);
      assert (set x | x in xs) == (set x | x in xs[..last]) + {xs[last]};
    }
  }

  lemma OrderKeys(info: map<int, Info>, order: seq<int>)
    requires Ordered(info, order)
    ensures (set x | x in order) == info.Keys
  {
    forall n | n in info ensures n in order { assert order[info[n].nRandomPos] == n; }
  }

  /** The first test of Check_: vRandom lists every entry once, so its size is nTried + nNew. */
  lemma OrderSize(s: State)
    requires Check(s)
    ensures |s.vRandom| == |s.mapInfo| == s.nTried + s.nNew
  {
    CountedOrder(s);
  }

  lemma CountedOrder(s: State)
    requires Ordered(s.mapInfo, s.vRandom) && Counted(s, 0)
    ensures |s.vRandom| == |s.mapInfo| == s.nTried + s.nNew
  {
    forall i, j | 0 <= i < j < |s.vRandom| ensures s.vRandom[i] != s.vRandom[j] {
      assert s.mapInfo[s.vRandom[i]].nRandomPos == i && s.mapInfo[s.vRandom[j]].nRandomPos == j;
    }
    DistinctSize(s.vRandom);
    OrderKeys(s.mapInfo, s.vRandom);
    assert s.mapInfo.Keys == Tried(s.mapInfo) + Untried(s.mapInfo);
  }

  /** An untried entry is referenced by one to eight new slots, each the right one for its bucket. */
  lemma RefCountMeans(s: State, n: int)
    requires Check(s) && n in s.mapInfo
    ensures s.mapInfo[n].nRefCount == |SlotsOf(s.vvNew, n)|
    ensures if s.mapInfo[n].fInTried then SlotsOf(s.vvNew, n) == {} else 1 <= |SlotsOf(s.vvNew, n)| <= NEW_PER_ADDRESS
  {
    assert RefOk(s.mapInfo[n], n in {});
  }
}
