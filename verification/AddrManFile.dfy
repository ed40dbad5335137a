/**
 * The peers file: Serialize and Unserialize of CAddrMan in src/addrman.h.  Integers and entries
 * are taken as already encoded; what is modelled is what is written, in which order, and how the
 * tables are rebuilt from it.
 */
module AddrManFile {
  import opened AddrMan
  import opened Arithmetic
  import opened Collections
  import opened Wrappers

  /** The fields of an entry that are written. */
  datatype Record = Record(service: Service, nServices: set<nat>, nTime: int, source: Ip, nLastSuccess: int, nAttempts: int)

  /** A file as far as it goes; the program stops with an error where it is shorter than it says. */
  datatype File = File(
    nVersion: int, nKeySize: int, nKey: Key, nNew: int, nTried: int, nUBuckets: int,
    news: seq<Record>, trieds: seq<Record>, buckets: seq<seq<int>>)

  const BIT30 := 0x4000_0000

  /** x ^ (1 << 30) on two's complement numbers. */
  function Flip(x: int): int { if x / BIT30 % 2 == 0 then x + BIT30 else x - BIT30 }

  function Save(i: Info): Record {
    Record(i.service, i.nServices, i.nTime, i.source, i.nLastSuccess, i.nAttempts)
  }

  function Load(r: Record, pos: int, tried: bool): Info {
    Info(r.service, r.nServices, r.nTime, r.source, 0, 0, r.nLastSuccess, r.nAttempts, 0, tried, pos)
  }

  // ----- writing -----

  /** The ids below n with a new slot, ascending. */
  function NewIds(info: map<int, Info>, n: nat): seq<int> {
    if n == 0 then []
    else NewIds(info, n - 1) + if n - 1 in info && info[n - 1].nRefCount != 0 then [n - 1] else []
  }

  function TriedIds(info: map<int, Info>, n: nat): seq<int> {
    if n == 0 then []
    else TriedIds(info, n - 1) + if n - 1 in info && info[n - 1].fInTried then [n - 1] else []
  }

  predicate Ids(info: map<int, Info>, ids: seq<int>) { forall i | 0 <= i < |ids| :: ids[i] in info }

  function Records(info: map<int, Info>, ids: seq<int>): (r: seq<Record>)
    requires Ids(info, ids)
  {
    seq(|ids|, i requires 0 <= i < |ids| => Save(info[ids[i]]))
  }

  /** The number under which an entry with a new slot is written: how many such ids are smaller. */
  function Number(info: map<int, Info>, id: int): nat { if id < 0 then 0 else |NewIds(info, id)| }

  /** The numbers of the entries in the first n positions of a bucket. */
  function Bucket(s: State, b: int, n: nat): seq<int> {
    if n == 0 then []
    else Bucket(s, b, n - 1)
         + if Slot(b, n - 1) in s.vvNew then [Number(s.mapInfo, s.vvNew[Slot(b, n - 1)])] else []
  }

  lemma {:induction false} IdsOk(info: map<int, Info>, n: nat)
    ensures Ids(info, NewIds(info, n)) && Ids(info, TriedIds(info, n))
    ensures forall i | 0 <= i < |NewIds(info, n)| :: 0 <= NewIds(info, n)[i] < n && info[NewIds(info, n)[i]].nRefCount != 0
    ensures forall i | 0 <= i < |TriedIds(info, n)| :: 0 <= TriedIds(info, n)[i] < n && info[TriedIds(info, n)[i]].fInTried
  {
    if n > 0 { IdsOk(info, n - 1); }
  }

  function Serialize(s: State): File
    requires s.nIdCount >= 0
  {
    IdsOk(s.mapInfo, s.nIdCount);
    File(1, 32, s.nKey, s.nNew, s.nTried, Flip(NEW_BUCKETS),
         Records(s.mapInfo, NewIds(s.mapInfo, s.nIdCount)), Records(s.mapInfo, TriedIds(s.mapInfo, s.nIdCount)),
         seq(NEW_BUCKETS, b => Bucket(s, b, BUCKET_SIZE)))
  }

  // ----- reading -----

  function BucketCount(f: File): int { if f.nVersion != 0 then Flip(f.nUBuckets) else f.nUBuckets }

  /** Whether the positions in the new table can be used. */
  predicate Usable(f: File) { f.nVersion == 1 && BucketCount(f) == NEW_BUCKETS }

  /** One new entry, with id n. */
  function PutNew(r: State, rec: Record, n: int): State {
    r.(mapInfo := r.mapInfo[n := Load(rec, |r.vRandom|, false)], mapAddr := r.mapAddr[rec.service.ip := n],
       vRandom := r.vRandom + [n])
  }

  /** Without positions, an entry gets the slot of its source if that is free. */
  function PutHome(r: State, n: int): State
    requires n in r.mapInfo
  {
    if HomeSlot(r, n) in r.vvNew then r else AddRef(r, n, HomeSlot(r, n))
  }

  function NextNew(r: State, rec: Record, n: int, usable: bool): State {
    if usable then PutNew(r, rec, n) else PutHome(PutNew(r, rec, n), n)
  }

  function ReadNew(r: State, news: seq<Record>, n: nat, usable: bool): State
    requires n <= |news|
  {
    if n == 0 then r else NextNew(ReadNew(r, news, n - 1, usable), news[n - 1], n - 1, usable)
  }

  /** One tried entry; it is lost when its slot is taken.  The id -1 means an empty slot. */
  function PutTried(r: State, rec: Record): State {
    var t := TriedSlot(r.h, r.nKey, rec.service);
    if t in r.vvTried then r.(nTried := r.nTried - 1)
    else
      r.(mapInfo := r.mapInfo[r.nIdCount := Load(rec, |r.vRandom|, true)],
         mapAddr := r.mapAddr[rec.service.ip := r.nIdCount], vRandom := r.vRandom + [r.nIdCount],
         vvTried := if r.nIdCount == -1 then r.vvTried else r.vvTried[t := r.nIdCount], nIdCount := r.nIdCount + 1)
  }

  function ReadTried(r: State, trieds: seq<Record>, n: nat): State
    requires n <= |trieds|
  {
    if n == 0 then r else PutTried(ReadTried(r, trieds, n - 1), trieds[n - 1])
  }

  /** One position of a new bucket. */
  function PutRef(r: State, b: int, index: int): State {
    if !(0 <= index < r.nNew && index in r.mapInfo) then r
    else
      var i := r.mapInfo[index];
      var t := NewSlotIn(r.h, r.nKey, i.service, b);
      if t in r.vvNew || i.nRefCount >= NEW_PER_ADDRESS then r
      else r.(mapInfo := r.mapInfo[index := i.(nRefCount := i.nRefCount + 1)], vvNew := r.vvNew[t := index])
  }

  function ReadBucket(r: State, b: int, indexes: seq<int>): State {
    if indexes == [] then r
    else PutRef(ReadBucket(r, b, indexes[..|indexes| - 1]), b, indexes[|indexes| - 1])
  }

  function ReadBuckets(r: State, buckets: seq<seq<int>>, n: nat): State
    requires n <= |buckets|
  {
    if n == 0 then r else ReadBucket(ReadBuckets(r, buckets, n - 1), n - 1, buckets[n - 1])
  }

  /** What every new entry keeps holds of all of them. */
  lemma {:induction false} ReadNewKeeps(p: (State, nat) -> bool, r: State, news: seq<Record>, n: nat, usable: bool)
    requires n <= |news| && p(r, 0)
    requires forall q: State, i: nat | i < n && p(q, i) :: p(NextNew(q, news[i], i, usable), i + 1)
    ensures p(ReadNew(r, news, n, usable), n)
  {
    if n > 0 { ReadNewKeeps(p, r, news, n - 1, usable); }
  }

  /** What every tried entry keeps holds of all of them. */
  lemma {:induction false} ReadTriedKeeps(p: (State, nat) -> bool, r: State, trieds: seq<Record>, n: nat)
    requires n <= |trieds| && p(r, 0)
    requires forall q: State, i: nat | i < n && p(q, i) :: p(PutTried(q, trieds[i]), i + 1)
    ensures p(ReadTried(r, trieds, n), n)
  {
    if n > 0 { ReadTriedKeeps(p, r, trieds, n - 1); }
  }

  /** Ids count from lo, positions in the random order from zero. */
  ghost predicate Dense(r: State, lo: int) {
    && (forall i :: i in r.mapInfo <==> lo <= i < lo + |r.vRandom|)
    && (forall i | 0 <= i < |r.vRandom| :: r.vRandom[i] == lo + i)
    && (forall i | i in r.mapInfo :: r.mapInfo[i].nRandomPos == i - lo)
  }

  lemma NextNewDense(r: State, rec: Record, n: nat, usable: bool)
    requires Dense(r, 0) && |r.vRandom| == n
    ensures Dense(NextNew(r, rec, n, usable), 0) && |NextNew(r, rec, n, usable).vRandom| == n + 1
  {
    assert Dense(PutNew(r, rec, n), 0);
  }

  lemma ReadNewDense(r: State, news: seq<Record>, n: nat, usable: bool)
    requires n <= |news| && r.mapInfo == map[] && r.vRandom == []
    ensures Dense(ReadNew(r, news, n, usable), 0) && |ReadNew(r, news, n, usable).vRandom| == n
  {
    var p := (q: State, i: nat) => Dense(q, 0) && |q.vRandom| == i;
    forall q: State, i: nat | i < n && p(q, i) ensures p(NextNew(q, news[i], i, usable), i + 1) {
      NextNewDense(q, news[i], i, usable);
    }
    ReadNewKeeps(p, r, news, n, usable);
  }

  /** Dense, and the next id is the next number. */
  ghost predicate DenseNext(r: State, lo: int) { Dense(r, lo) && r.nIdCount == lo + |r.vRandom| }

  lemma NextTriedDense(r: State, rec: Record, lo: int)
    requires DenseNext(r, lo)
    ensures DenseNext(PutTried(r, rec), lo)
  {}

  lemma ReadTriedDense(r: State, trieds: seq<Record>, n: nat, lo: int)
    requires n <= |trieds| && DenseNext(r, lo)
    ensures DenseNext(ReadTried(r, trieds, n), lo)
  {
    var p := (q: State, i: nat) => DenseNext(q, lo);
    forall q: State, i: nat | i < n && p(q, i) ensures p(PutTried(q, trieds[i]), i + 1) {
      NextTriedDense(q, trieds[i], lo);
    }
    ReadTriedKeeps(p, r, trieds, n);
  }

  lemma {:induction false} ReadBucketDense(r: State, b: int, indexes: seq<int>, lo: int)
    requires Dense(r, lo)
    ensures Dense(ReadBucket(r, b, indexes), lo) && |ReadBucket(r, b, indexes).vRandom| == |r.vRandom|
  {
    if indexes != [] { ReadBucketDense(r, b, indexes[..|indexes| - 1], lo); }
  }

  lemma {:induction false} ReadBucketsDense(r: State, buckets: seq<seq<int>>, n: nat, lo: int)
    requires n <= |buckets| && Dense(r, lo)
    ensures Dense(ReadBuckets(r, buckets, n), lo) && |ReadBuckets(r, buckets, n).vRandom| == |r.vRandom|
  {
    if n > 0 {
      ReadBucketsDense(r, buckets, n - 1, lo);
      ReadBucketDense(ReadBuckets(r, buckets, n - 1), n - 1, buckets[n - 1], lo);
    }
  }

  ghost function PruneOne(r: State, id: int): (q: State)
    requires Ordered(r.mapInfo, r.vRandom)
    ensures Ordered(q.mapInfo, q.vRandom)
  {
    if Deletable(r, id) then
      DeleteOrdered(r, id);
      Delete(r, id)
    else r
  }

  /** Entries below n that no slot refers to are deleted. */
  ghost function Prune(r: State, n: nat): (q: State)
    requires Ordered(r.mapInfo, r.vRandom)
    ensures Ordered(q.mapInfo, q.vRandom)
  {
    if n == 0 then r else PruneOne(Prune(r, n - 1), n - 1)
  }

  /** The file holds all that its counters promise. */
  predicate Complete(f: File) { f.nNew <= |f.news| && f.nTried <= |f.trieds| && BucketCount(f) <= |f.buckets| }

  function Start(f: File, h: Hashes): State { Empty(f.nKey, h).(nNew := f.nNew, nTried := f.nTried) }

  /** The new entries; a negative counter means none, and gives the ids a negative start. */
  function NewEntries(f: File, h: Hashes): State
    requires Complete(f)
  {
    ReadNew(Start(f, h), f.news, Max(0, f.nNew), Usable(f)).(nIdCount := f.nNew)
  }

  function Entries(f: File, h: Hashes): State
    requires Complete(f)
  {
    ReadTried(NewEntries(f, h), f.trieds, Max(0, f.nTried))
  }

  /** What is read before pruning. */
  function Assemble(f: File, h: Hashes): State
    requires Complete(f)
  {
    if Usable(f) then ReadBuckets(Entries(f, h), f.buckets, NEW_BUCKETS) else Entries(f, h)
  }

  /** Whatever a complete file says, ids are consecutive and vRandom and nRandomPos are inverse. */
  lemma AssembleDense(f: File, h: Hashes)
    requires Complete(f)
    ensures Dense(Assemble(f, h), Min(0, f.nNew)) && Ordered(Assemble(f, h).mapInfo, Assemble(f, h).vRandom)
  {
    var lo := Min(0, f.nNew);
    ReadNewDense(Start(f, h), f.news, Max(0, f.nNew), Usable(f));
    ReadTriedDense(NewEntries(f, h), f.trieds, Max(0, f.nTried), lo);
    if Usable(f) { ReadBucketsDense(Entries(f, h), f.buckets, NEW_BUCKETS, lo); }
    DenseOrdered(Assemble(f, h), lo);
  }

  lemma DenseOrdered(r: State, lo: int)
    requires Dense(r, lo)
    ensures Ordered(r.mapInfo, r.vRandom)
  {}

  /** Unserialize into a fresh manager; None where the program throws. */
  ghost function Unserialize(f: File, h: Hashes): Option<State> {
    if || f.nKeySize != 32 || f.nNew > NEW_BUCKETS * BUCKET_SIZE || f.nTried > TRIED_BUCKETS * BUCKET_SIZE
       || !Complete(f) then None
    else
      AssembleDense(f, h);
      Some(Prune(Assemble(f, h), Max(0, Assemble(f, h).nIdCount)))
  }

  // ----- what the ids become -----

  /** The ids of s in the order in which they are written. */
  function Written(s: State): seq<int>
    requires s.nIdCount >= 0
  {
    NewIds(s.mapInfo, s.nIdCount) + TriedIds(s.mapInfo, s.nIdCount)
  }

  ghost predicate Distinct(l: seq<int>) { forall i, j | 0 <= i < j < |l| :: l[i] != l[j] }

  /** l lists every entry once: those of the new table first, then the tried ones. */
  ghost predicate Lists(s: State, l: seq<int>) {
    && Distinct(l) && |l| == s.nNew + s.nTried && 0 <= s.nNew <= |l|
    && (forall i | 0 <= i < |l| :: l[i] in s.mapInfo && (s.mapInfo[l[i]].fInTried <==> i >= s.nNew))
    && (forall n | n in s.mapInfo :: n in l)
  }

  lemma {:induction false} Ascending(info: map<int, Info>, n: nat)
    ensures Distinct(NewIds(info, n)) && Distinct(TriedIds(info, n))
  {
    if n > 0 {
      Ascending(info, n - 1);
      IdsOk(info, n - 1);
    }
  }

  lemma {:induction false} IdListed(info: map<int, Info>, n: nat, id: int)
    requires 0 <= id < n && id in info
    ensures info[id].nRefCount != 0 ==> id in NewIds(info, n)
    ensures info[id].fInTried ==> id in TriedIds(info, n)
  {
    if id < n - 1 { IdListed(info, n - 1, id); }
  }

  lemma NewCount(s: State)
    requires Check(s)
    ensures |NewIds(s.mapInfo, s.nIdCount)| == s.nNew && |TriedIds(s.mapInfo, s.nIdCount)| == s.nTried
  {
    var info, n := s.mapInfo, s.nIdCount;
    Ascending(info, n);
    IdsOk(info, n);
    forall id | id in info
      ensures info[id].nRefCount != 0 <==> !info[id].fInTried
      ensures id in Untried(info) ==> id in NewIds(info, n)
      ensures id in Tried(info) ==> id in TriedIds(info, n)
    {
      assert RefOk(info[id], false);
      IdListed(info, n, id);
    }
    assert Untried(info) == set x | x in NewIds(info, n);
    assert Tried(info) == set x | x in TriedIds(info, n);
    DistinctSize(NewIds(info, n));
    DistinctSize(TriedIds(info, n));
  }

  lemma WrittenLists(s: State)
    requires Check(s)
    ensures Lists(s, Written(s))
  {
    NewCount(s);
    NewOrTried(s);
    WrittenDistinct(s.mapInfo, s.nIdCount);
    IdsOk(s.mapInfo, s.nIdCount);
    forall id | id in s.mapInfo ensures id in Written(s) { IdListed(s.mapInfo, s.nIdCount, id); }
  }

  lemma NewOrTried(s: State)
    requires Check(s)
    ensures forall id | id in s.mapInfo :: s.mapInfo[id].nRefCount != 0 <==> !s.mapInfo[id].fInTried
  {
    forall id | id in s.mapInfo ensures s.mapInfo[id].nRefCount != 0 <==> !s.mapInfo[id].fInTried {
      assert RefOk(s.mapInfo[id], false);
    }
  }

  lemma WrittenDistinct(info: map<int, Info>, n: nat)
    requires forall id | id in info :: info[id].nRefCount != 0 <==> !info[id].fInTried
    ensures Distinct(NewIds(info, n) + TriedIds(info, n))
  {
    Ascending(info, n);
    IdsOk(info, n);
  }

  // ----- loading the entries -----

  /** Entry l[i] as it is loaded under id i. */
  ghost function Loaded(s: State, l: seq<int>, i: int): Info
    requires Lists(s, l) && 0 <= i < |l|
  {
    Load(Save(s.mapInfo[l[i]]), i, i >= s.nNew)
  }

  ghost predicate InfosLoaded(s: State, l: seq<int>, k: nat, info: map<int, Info>, order: seq<int>)
    requires Lists(s, l) && k <= |l|
  {
    && |order| == k && (forall i | 0 <= i < k :: order[i] == i)
    && (forall i :: i in info <==> 0 <= i < k)
    && (forall i | 0 <= i < k :: info[i] == Loaded(s, l, i))
  }

  function IpOf(s: State, l: seq<int>, i: int): Ip
    requires 0 <= i < |l| && l[i] in s.mapInfo
  {
    s.mapInfo[l[i]].service.ip
  }

  ghost predicate AddrsLoaded(s: State, l: seq<int>, k: nat, mapAddr: map<Ip, int>)
    requires Lists(s, l) && k <= |l|
  {
    && (forall i | 0 <= i < k :: IpOf(s, l, i) in mapAddr && mapAddr[IpOf(s, l, i)] == i)
    && (forall a | a in mapAddr :: 0 <= mapAddr[a] < k && IpOf(s, l, mapAddr[a]) == a)
  }

  function TriedSlotOf(s: State, l: seq<int>, i: int): Slot
    requires 0 <= i < |l| && l[i] in s.mapInfo
  {
    TriedSlot(s.h, s.nKey, s.mapInfo[l[i]].service)
  }

  ghost predicate TriedLoaded(s: State, l: seq<int>, k: nat, t: Table)
    requires Lists(s, l) && k <= |l|
  {
    && (forall i | s.nNew <= i < k :: TriedSlotOf(s, l, i) in t && t[TriedSlotOf(s, l, i)] == i)
    && (forall u | u in t :: s.nNew <= t[u] < k && u == TriedSlotOf(s, l, t[u]))
  }

  /** The state after k entries have been read. */
  ghost predicate EntriesLoaded(s: State, l: seq<int>, k: nat, r: State)
    requires Lists(s, l) && k <= |l|
  {
    && InfosLoaded(s, l, k, r.mapInfo, r.vRandom) && AddrsLoaded(s, l, k, r.mapAddr) && TriedLoaded(s, l, k, r.vvTried)
    && r.nKey == s.nKey && r.h == s.h && r.nNew == s.nNew && r.nTried == s.nTried && r.vvNew == map[]
    && (k > s.nNew ==> r.nIdCount == k)
  }

  /** Different entries have different addresses and, when tried, different slots. */
  ghost predicate Apart(s: State, l: seq<int>)
    requires Lists(s, l)
  {
    && (forall i, j | 0 <= i < j < |l| :: IpOf(s, l, i) != IpOf(s, l, j))
    && (forall i, j | s.nNew <= i < j < |l| :: TriedSlotOf(s, l, i) != TriedSlotOf(s, l, j))
  }

  lemma EntriesApart(s: State, l: seq<int>)
    requires Check(s) && Lists(s, l)
    ensures Apart(s, l)
  {
    forall i, j | 0 <= i < j < |l|
      ensures IpOf(s, l, i) != IpOf(s, l, j)
      ensures s.nNew <= i ==> TriedSlotOf(s, l, i) != TriedSlotOf(s, l, j)
    {
      EntryApart(s, l, i, j);
    }
  }

  lemma EntryApart(s: State, l: seq<int>, i: int, j: int)
    requires Check(s) && Lists(s, l) && 0 <= i < j < |l|
    ensures IpOf(s, l, i) != IpOf(s, l, j)
    ensures s.nNew <= i ==> TriedSlotOf(s, l, i) != TriedSlotOf(s, l, j)
  {
    assert l[i] != l[j];
    if s.nNew <= i {
      assert InSlot(s.vvTried, TriedSlotOf(s, l, i), l[i]);
      assert InSlot(s.vvTried, TriedSlotOf(s, l, j), l[j]);
    }
  }

  lemma AddrsGrow(s: State, l: seq<int>, k: nat, mapAddr: map<Ip, int>)
    requires Lists(s, l) && Apart(s, l) && 0 < k <= |l| && AddrsLoaded(s, l, k - 1, mapAddr)
    ensures AddrsLoaded(s, l, k, mapAddr[IpOf(s, l, k - 1) := k - 1])
  {}

  lemma TriedGrow(s: State, l: seq<int>, k: nat, t: Table)
    requires Lists(s, l) && Apart(s, l) && s.nNew < k <= |l| && TriedLoaded(s, l, k - 1, t)
    ensures TriedSlotOf(s, l, k - 1) !in t && TriedLoaded(s, l, k, t[TriedSlotOf(s, l, k - 1) := k - 1])
  {}

  lemma InfosGrow(s: State, l: seq<int>, k: nat, info: map<int, Info>, order: seq<int>)
    requires Lists(s, l) && 0 < k <= |l| && InfosLoaded(s, l, k - 1, info, order)
    ensures InfosLoaded(s, l, k, info[k - 1 := Loaded(s, l, k - 1)], order + [k - 1])
  {}

  lemma PutNewLoads(s: State, l: seq<int>, k: nat, r: State)
    requires Lists(s, l) && Apart(s, l) && 0 < k <= s.nNew && EntriesLoaded(s, l, k - 1, r)
    ensures EntriesLoaded(s, l, k, PutNew(r, Save(s.mapInfo[l[k - 1]]), k - 1))
  {
    InfosGrow(s, l, k, r.mapInfo, r.vRandom);
    AddrsGrow(s, l, k, r.mapAddr);
  }

  lemma PutTriedLoads(s: State, l: seq<int>, k: nat, r: State)
    requires Lists(s, l) && Apart(s, l) && s.nNew < k <= |l| && EntriesLoaded(s, l, k - 1, r) && r.nIdCount == k - 1
    ensures EntriesLoaded(s, l, k, PutTried(r, Save(s.mapInfo[l[k - 1]])))
    ensures PutTried(r, Save(s.mapInfo[l[k - 1]])).nIdCount == k
  {
    InfosGrow(s, l, k, r.mapInfo, r.vRandom);
    AddrsGrow(s, l, k, r.mapAddr);
    TriedGrow(s, l, k, r.vvTried);
  }

  lemma ReadNewLoads(s: State, l: seq<int>, r: State, news: seq<Record>, n: nat)
    requires Lists(s, l) && Apart(s, l) && n <= s.nNew && n <= |news| && EntriesLoaded(s, l, 0, r)
    requires forall i | 0 <= i < n :: news[i] == Save(s.mapInfo[l[i]])
    ensures EntriesLoaded(s, l, n, ReadNew(r, news, n, true))
  {
    var p := (q: State, i: nat) => i <= |l| && EntriesLoaded(s, l, i, q);
    forall q: State, i: nat | i < n && p(q, i) ensures p(NextNew(q, news[i], i, true), i + 1) {
      PutNewLoads(s, l, i + 1, q);
    }
    ReadNewKeeps(p, r, news, n, true);
  }

  // ----- loading the positions of the new table -----

  ghost function RefsIn(s: State, done: set<Slot>, id: int): set<Slot> {
    set t | t in done && t in s.vvNew && s.vvNew[t] == id
  }

  ghost predicate SlotsLoaded(s: State, l: seq<int>, done: set<Slot>, table: Table)
    requires Lists(s, l) && done <= s.vvNew.Keys
  {
    && table.Keys == done
    && (forall t | t in done :: 0 <= table[t] < s.nNew && l[table[t]] == s.vvNew[t])
  }

  ghost predicate CountsLoaded(s: State, l: seq<int>, done: set<Slot>, base: map<int, Info>, info: map<int, Info>)
    requires Lists(s, l)
  {
    && info.Keys == base.Keys
    && (forall i | i in base && 0 <= i < s.nNew :: info[i] == base[i].(nRefCount := |RefsIn(s, done, l[i])|))
    && (forall i | i in base && !(0 <= i < s.nNew) :: info[i] == base[i])
  }

  /** The state when the slots in done have been read. */
  ghost predicate RefsLoaded(s: State, l: seq<int>, done: set<Slot>, base: State, r: State)
    requires Lists(s, l) && done <= s.vvNew.Keys
  {
    && r == base.(mapInfo := r.mapInfo, vvNew := r.vvNew)
    && SlotsLoaded(s, l, done, r.vvNew) && CountsLoaded(s, l, done, base.mapInfo, r.mapInfo)
  }

  lemma {:induction false} NumberIs(info: map<int, Info>, n: nat, id: int)
    requires 0 <= id < n && id in info && info[id].nRefCount != 0
    ensures |NewIds(info, id)| < |NewIds(info, n)| && NewIds(info, n)[|NewIds(info, id)|] == id
  {
    if id < n - 1 { NumberIs(info, n - 1, id); }
  }

  /** What the file says about an occupied slot, and what the reader makes of it. */
  lemma SlotFacts(s: State, t: Slot)
    requires Check(s) && t in s.vvNew
    ensures var id := s.vvNew[t]; var index := Number(s.mapInfo, id); var l := Written(s);
            && id in s.mapInfo && 0 <= index < s.nNew <= |l| && l[index] == id
            && t == NewSlotIn(s.h, s.nKey, s.mapInfo[id].service, t.bucket)
            && 0 <= t.bucket < NEW_BUCKETS && 0 <= t.pos < BUCKET_SIZE
  {
    var id := s.vvNew[t];
    assert NewSlotOk(s.mapInfo, id, s.h, s.nKey, t);
    assert t in SlotsOf(s.vvNew, id);
    assert s.mapInfo[id].nRefCount == |SlotsOf(s.vvNew, id)|;
    NewCount(s);
    NumberIs(s.mapInfo, s.nIdCount, id);
  }

  /** While one of its slots has not been read an entry has less than the most references. */
  lemma StillRoom(s: State, done: set<Slot>, t: Slot)
    requires Check(s) && done <= s.vvNew.Keys && t in s.vvNew && t !in done
    ensures |RefsIn(s, done, s.vvNew[t])| < NEW_PER_ADDRESS
  {
    var id := s.vvNew[t];
    assert NewSlotOk(s.mapInfo, id, s.h, s.nKey, t);
    var refs := RefsIn(s, done, id);
    assert refs + {t} <= SlotsOf(s.vvNew, id);
    SubsetSize(refs + {t}, SlotsOf(s.vvNew, id));
    assert |refs + {t}| == |refs| + 1;
    assert RefOk(s.mapInfo[id], false);
  }

  lemma CountsGrow(s: State, l: seq<int>, done: set<Slot>, t: Slot, index: int, base: map<int, Info>, info: map<int, Info>)
    requires Lists(s, l) && CountsLoaded(s, l, done, base, info) && t in s.vvNew && t !in done
    requires 0 <= index < s.nNew && l[index] == s.vvNew[t] && index in base
    ensures CountsLoaded(s, l, done + {t}, base, info[index := info[index].(nRefCount := info[index].nRefCount + 1)])
  {
    forall i | i in base && 0 <= i < s.nNew
      ensures |RefsIn(s, done + {t}, l[i])| == |RefsIn(s, done, l[i])| + if i == index then 1 else 0
    {
      if i == index {
        assert RefsIn(s, done + {t}, l[i]) == RefsIn(s, done, l[i]) + {t};
      } else {
        assert l[i] != l[index];
        assert RefsIn(s, done + {t}, l[i]) == RefsIn(s, done, l[i]);
      }
    }
  }

  lemma SlotsGrow(s: State, l: seq<int>, done: set<Slot>, t: Slot, index: int, table: Table)
    requires Lists(s, l) && done <= s.vvNew.Keys && SlotsLoaded(s, l, done, table) && t in s.vvNew
    requires 0 <= index < s.nNew && l[index] == s.vvNew[t]
    ensures SlotsLoaded(s, l, done + {t}, table[t := index])
  {}

  /** The entry under the number, when the file has been read up to t. */
  lemma EntryAt(s: State, l: seq<int>, done: set<Slot>, base: State, r: State, index: int)
    requires Lists(s, l) && done <= s.vvNew.Keys && 0 <= index < s.nNew
    requires EntriesLoaded(s, l, |l|, base) && RefsLoaded(s, l, done, base, r)
    ensures index in base.mapInfo && index in r.mapInfo && r.nNew == s.nNew && r.h == s.h && r.nKey == s.nKey
    ensures r.mapInfo[index].service == s.mapInfo[l[index]].service
    ensures r.mapInfo[index].nRefCount == |RefsIn(s, done, l[index])|
  {
    assert base.mapInfo[index] == Loaded(s, l, index);
  }

  /** Reading the number written for slot t puts the entry back into slot t. */
  lemma PutRefLoads(s: State, done: set<Slot>, t: Slot, base: State, r: State)
    requires Check(s) && Lists(s, Written(s)) && done <= s.vvNew.Keys && t in s.vvNew && t !in done
    requires EntriesLoaded(s, Written(s), |Written(s)|, base) && RefsLoaded(s, Written(s), done, base, r)
    ensures RefsLoaded(s, Written(s), done + {t}, base, PutRef(r, t.bucket, Number(s.mapInfo, s.vvNew[t])))
  {
    var index := Number(s.mapInfo, s.vvNew[t]);
    SlotFacts(s, t);
    StillRoom(s, done, t);
    EntryAt(s, Written(s), done, base, r, index);
    PutRefAt(s, Written(s), done, t, base, r, index);
  }

  lemma PutRefAt(s: State, l: seq<int>, done: set<Slot>, t: Slot, base: State, r: State, index: int)
    requires Lists(s, l) && done <= s.vvNew.Keys && t in s.vvNew && t !in done && RefsLoaded(s, l, done, base, r)
    requires 0 <= index < s.nNew == r.nNew && l[index] == s.vvNew[t] && index in base.mapInfo && index in r.mapInfo
    requires t == NewSlotIn(r.h, r.nKey, r.mapInfo[index].service, t.bucket) && r.mapInfo[index].nRefCount < NEW_PER_ADDRESS
    ensures RefsLoaded(s, l, done + {t}, base, PutRef(r, t.bucket, index))
  {
    SlotsGrow(s, l, done, t, index, r.vvNew);
    CountsGrow(s, l, done, t, index, base.mapInfo, r.mapInfo);
  }

  /** The occupied new slots in buckets before b, and in the first n positions of b. */
  ghost function Before(s: State, b: int, n: int): (r: set<Slot>)
    ensures r <= s.vvNew.Keys
  {
    set t | t in s.vvNew && (t.bucket < b || (t.bucket == b && t.pos < n))
  }

  ghost predicate ReadUpTo(s: State, base: State, b: int, n: int, r: State)
    requires s.nIdCount >= 0 && Lists(s, Written(s))
  {
    RefsLoaded(s, Written(s), Before(s, b, n), base, r)
  }

  lemma BeforeNext(s: State, b: int, n: nat)
    requires n > 0
    ensures Before(s, b, n) ==
      if Slot(b, n - 1) in s.vvNew then Before(s, b, n - 1) + {Slot(b, n - 1)} else Before(s, b, n - 1)
    ensures Slot(b, n - 1) !in Before(s, b, n - 1)
  {
    forall t | t in Before(s, b, n) ensures t in Before(s, b, n - 1) || t == Slot(b, n - 1) {}
  }

  lemma {:induction false} ReadBucketLoads(s: State, base: State, b: int, n: nat, r: State)
    requires Check(s) && Lists(s, Written(s)) && EntriesLoaded(s, Written(s), |Written(s)|, base)
    requires ReadUpTo(s, base, b, 0, r)
    ensures ReadUpTo(s, base, b, n, ReadBucket(r, b, Bucket(s, b, n)))
  {
    if n > 0 {
      var t := Slot(b, n - 1);
      ReadBucketLoads(s, base, b, n - 1, r);
      BeforeNext(s, b, n);
      if t in s.vvNew {
        ReadBucketSnoc(r, b, Bucket(s, b, n - 1), Number(s.mapInfo, s.vvNew[t]));
        PutRefLoads(s, Before(s, b, n - 1), t, base, ReadBucket(r, b, Bucket(s, b, n - 1)));
      } else {
        assert Bucket(s, b, n) == Bucket(s, b, n - 1);
      }
    }
  }

  lemma ReadBucketSnoc(r: State, b: int, indexes: seq<int>, index: int)
    ensures ReadBucket(r, b, indexes + [index]) == PutRef(ReadBucket(r, b, indexes), b, index)
  {
    assert (indexes + [index])[..|indexes|] == indexes;
  }

  lemma BucketEnds(s: State, b: int)
    requires Check(s)
    ensures Before(s, b, BUCKET_SIZE) == Before(s, b + 1, 0)
  {
    forall t | t in s.vvNew ensures t.pos < BUCKET_SIZE { SlotFacts(s, t); }
  }

  lemma {:induction false} ReadBucketsLoads(s: State, base: State, b: nat)
    requires Check(s) && Lists(s, Written(s)) && EntriesLoaded(s, Written(s), |Written(s)|, base)
    requires b <= NEW_BUCKETS && ReadUpTo(s, base, 0, 0, base)
    ensures ReadUpTo(s, base, b, 0, ReadBuckets(base, Serialize(s).buckets, b))
  {
    if b > 0 {
      ReadBucketsLoads(s, base, b - 1);
      ReadBucketLoads(s, base, b - 1, BUCKET_SIZE, ReadBuckets(base, Serialize(s).buckets, b - 1));
      BucketEnds(s, b - 1);
    }
  }

  // ----- the limits on nNew and nTried -----

  ghost function Row(b: int, n: nat): set<Slot> {
    if n == 0 then {} else Row(b, n - 1) + {Slot(b, n - 1)}
  }

  ghost function Grid(n: nat): set<Slot> {
    if n == 0 then {} else Grid(n - 1) + Row(n - 1, BUCKET_SIZE)
  }

  lemma {:induction false} RowHas(b: int, n: nat, t: Slot)
    ensures |Row(b, n)| <= n
    ensures t.bucket == b && 0 <= t.pos < n ==> t in Row(b, n)
  {
    if n > 0 { RowHas(b, n - 1, t); }
  }

  lemma {:induction false} GridHas(n: nat, t: Slot)
    ensures |Grid(n)| <= n * BUCKET_SIZE
    ensures 0 <= t.bucket < n && 0 <= t.pos < BUCKET_SIZE ==> t in Grid(n)
  {
    if n > 0 {
      GridHas(n - 1, t);
      RowHas(n - 1, BUCKET_SIZE, t);
    }
  }

  ghost function Values(t: Table): set<int> { set u | u in t :: t[u] }

  lemma {:induction false} ValuesCount(t: Table)
    ensures |Values(t)| <= |t.Keys|
    decreases |t|
  {
    if t.Keys != {} {
      var u :| u in t.Keys;
      var rest := t - {u};
      assert rest.Keys == t.Keys - {u};
      ValuesCount(rest);
      forall v | v in Values(t) ensures v in Values(rest) + {t[u]} {
        var w :| w in t && t[w] == v;
        if w != u { assert w in rest && rest[w] == v; }
      }
      SubsetSize(Values(t), Values(rest) + {t[u]});
    }
  }

  /** A table with n buckets cannot refer to more than n * BUCKET_SIZE entries. */
  lemma TableLimit(t: Table, n: nat, ids: set<int>)
    requires ids <= Values(t) && forall u | u in t :: 0 <= u.bucket < n && 0 <= u.pos < BUCKET_SIZE
    ensures |ids| <= n * BUCKET_SIZE
  {
    SubsetSize(ids, Values(t));
    ValuesCount(t);
    forall u | u in t.Keys ensures u in Grid(n) { GridHas(n, u); }
    SubsetSize(t.Keys, Grid(n));
    GridHas(n, Slot(0, 0));
  }

  lemma Limits(s: State)
    requires Check(s)
    ensures s.nNew <= NEW_BUCKETS * BUCKET_SIZE && s.nTried <= TRIED_BUCKETS * BUCKET_SIZE
  {
    forall u | u in s.vvNew ensures 0 <= u.bucket < NEW_BUCKETS && 0 <= u.pos < BUCKET_SIZE { SlotFacts(s, u); }
    forall n | n in Untried(s.mapInfo) ensures n in Values(s.vvNew) { HasNewSlot(s, n); }
    TableLimit(s.vvNew, NEW_BUCKETS, Untried(s.mapInfo));
    forall u | u in s.vvTried ensures 0 <= u.bucket < TRIED_BUCKETS && 0 <= u.pos < BUCKET_SIZE { TriedRange(s, u); }
    forall n | n in Tried(s.mapInfo) ensures n in Values(s.vvTried) {
      assert InSlot(s.vvTried, TriedSlot(s.h, s.nKey, s.mapInfo[n].service), n);
    }
    TableLimit(s.vvTried, TRIED_BUCKETS, Tried(s.mapInfo));
  }

  lemma HasNewSlot(s: State, n: int)
    requires Check(s) && n in Untried(s.mapInfo)
    ensures n in Values(s.vvNew) && s.mapInfo[n].nRefCount >= 1
  {
    assert RefOk(s.mapInfo[n], false);
    assert s.mapInfo[n].nRefCount == |SlotsOf(s.vvNew, n)|;
    if SlotsOf(s.vvNew, n) == {} { assert false; }
    var u :| u in SlotsOf(s.vvNew, n);
  }

  lemma TriedRange(s: State, u: Slot)
    requires Check(s) && u in s.vvTried
    ensures 0 <= u.bucket < TRIED_BUCKETS && 0 <= u.pos < BUCKET_SIZE
  {
    assert TriedSlotOk(s.mapInfo, s.vvTried[u], s.h, s.nKey, u);
  }

  // ----- the round trip -----

  /** An entry as it comes back: the two fields that are not written are reset. */
  function Reread(i: Info, pos: int): Info { i.(nLastTry := 0, nLastCountAttempt := 0, nRandomPos := pos) }

  /** r is s with entry l[i] under id i, and nothing else lost or changed. */
  ghost predicate Renamed(s: State, r: State, l: seq<int>)
    requires Lists(s, l)
  {
    && r.nKey == s.nKey && r.h == s.h && r.nNew == s.nNew && r.nTried == s.nTried && r.nIdCount == |l|
    && (forall i :: i in r.mapInfo <==> 0 <= i < |l|)
    && (forall i | 0 <= i < |l| :: r.mapInfo[i] == Reread(s.mapInfo[l[i]], i))
    && |r.vRandom| == |l| && (forall i | 0 <= i < |l| :: r.vRandom[i] == i)
    && AddrsLoaded(s, l, |l|, r.mapAddr)
    && SlotsLoaded(s, l, s.vvNew.Keys, r.vvNew)
    && r.vvTried.Keys == s.vvTried.Keys
    && (forall t | t in s.vvTried :: 0 <= r.vvTried[t] < |l| && l[r.vvTried[t]] == s.vvTried[t])
  }

  lemma TriedSame(s: State, l: seq<int>, t: Table)
    requires Check(s) && Lists(s, l) && TriedLoaded(s, l, |l|, t)
    ensures t.Keys == s.vvTried.Keys && forall u | u in s.vvTried :: 0 <= t[u] < |l| && l[t[u]] == s.vvTried[u]
  {
    forall u | u in s.vvTried ensures u in t && l[t[u]] == s.vvTried[u] {
      var n := s.vvTried[u];
      assert TriedSlotOk(s.mapInfo, n, s.h, s.nKey, u);
      var i :| 0 <= i < |l| && l[i] == n;
      assert TriedSlotOf(s, l, i) == u;
    }
    forall u | u in t ensures u in s.vvTried {
      assert InSlot(s.vvTried, TriedSlotOf(s, l, t[u]), l[t[u]]);
    }
  }

  lemma AllRefs(s: State, id: int)
    ensures RefsIn(s, s.vvNew.Keys, id) == SlotsOf(s.vvNew, id)
  {}

  lemma EntryComesBack(s: State, l: seq<int>, base: State, r: State, i: int)
    requires Check(s) && Lists(s, l) && 0 <= i < |l|
    requires EntriesLoaded(s, l, |l|, base) && RefsLoaded(s, l, s.vvNew.Keys, base, r)
    ensures i in r.mapInfo && r.mapInfo[i] == Reread(s.mapInfo[l[i]], i)
  {
    assert base.mapInfo[i] == Loaded(s, l, i);
    assert RefOk(s.mapInfo[l[i]], false);
    AllRefs(s, l[i]);
  }

  lemma ReadsBack(s: State, l: seq<int>, base: State, r: State)
    requires Check(s) && Lists(s, l) && base.nIdCount == |l|
    requires EntriesLoaded(s, l, |l|, base) && RefsLoaded(s, l, s.vvNew.Keys, base, r)
    ensures Renamed(s, r, l)
  {
    forall i | 0 <= i < |l| ensures i in r.mapInfo && r.mapInfo[i] == Reread(s.mapInfo[l[i]], i) {
      EntryComesBack(s, l, base, r, i);
    }
    TriedSame(s, l, r.vvTried);
  }

  lemma {:induction false} NothingToPrune(r: State, n: nat)
    requires Ordered(r.mapInfo, r.vRandom) && forall i | i in r.mapInfo :: !Deletable(r, i)
    ensures Prune(r, n) == r
  {
    if n > 0 { NothingToPrune(r, n - 1); }
  }

  /** Every entry that was read has its references back. */
  lemma AllReferenced(s: State, r: State, l: seq<int>)
    requires Check(s) && Lists(s, l) && Renamed(s, r, l)
    ensures forall i | i in r.mapInfo :: !Deletable(r, i)
  {
    forall i | i in r.mapInfo ensures !Deletable(r, i) {
      assert r.mapInfo[i] == Reread(s.mapInfo[l[i]], i);
      if !s.mapInfo[l[i]].fInTried { HasNewSlot(s, l[i]); }
    }
  }

  /** The records are those of the listed entries. */
  lemma RecordsListed(s: State)
    requires Check(s) && Lists(s, Written(s))
    ensures Holds(s, Written(s), Serialize(s))
  {
    NewCount(s);
    RecordsAre(s);
  }

  lemma RecordsAre(s: State)
    requires s.nIdCount >= 0 && Lists(s, Written(s))
    requires |NewIds(s.mapInfo, s.nIdCount)| == s.nNew && |TriedIds(s.mapInfo, s.nIdCount)| == s.nTried
    ensures var f, l := Serialize(s), Written(s);
            && |f.news| == s.nNew && |f.trieds| == s.nTried
            && (forall i | 0 <= i < s.nNew :: f.news[i] == Save(s.mapInfo[l[i]]))
            && (forall i | s.nNew <= i < |l| :: f.trieds[i - s.nNew] == Save(s.mapInfo[l[i]]))
  {}

  /** The file has the key, the counters and the records of the listed entries. */
  ghost predicate Holds(s: State, l: seq<int>, f: File)
    requires Lists(s, l)
  {
    && Complete(f) && Usable(f) && f.nKey == s.nKey && f.nNew == s.nNew && f.nTried == s.nTried
    && (forall i | 0 <= i < s.nNew :: f.news[i] == Save(s.mapInfo[l[i]]))
    && (forall i | s.nNew <= i < |l| :: f.trieds[i - s.nNew] == Save(s.mapInfo[l[i]]))
  }

  lemma StartLoaded(s: State, l: seq<int>, f: File)
    requires Lists(s, l) && f.nKey == s.nKey && f.nNew == s.nNew && f.nTried == s.nTried
    ensures EntriesLoaded(s, l, 0, Start(f, s.h))
  {}

  lemma SetIdCount(s: State, l: seq<int>, r: State)
    requires Lists(s, l) && EntriesLoaded(s, l, s.nNew, r)
    ensures EntriesLoaded(s, l, s.nNew, r.(nIdCount := s.nNew))
  {}

  lemma EntriesReadBack(s: State, f: File, l: seq<int>)
    requires Lists(s, l) && Apart(s, l) && Holds(s, l, f)
    ensures EntriesLoaded(s, l, |l|, Entries(f, s.h)) && Entries(f, s.h).nIdCount == |l|
  {
    NewReadBack(s, f, l);
    TriedReadBack(s, f, l, NewEntries(f, s.h));
  }

  lemma TriedReadBack(s: State, f: File, l: seq<int>, r: State)
    requires Lists(s, l) && Apart(s, l) && Holds(s, l, f) && TriedUpTo(s, l, r, 0)
    ensures TriedUpTo(s, l, ReadTried(r, f.trieds, Max(0, f.nTried)), s.nTried)
  {
    var p := (q: State, i: nat) => TriedUpTo(s, l, q, i);
    forall q: State, i: nat | i < s.nTried && p(q, i) ensures p(PutTried(q, f.trieds[i]), i + 1) {
      NextTriedLoads(s, f, l, q, i);
    }
    ReadTriedKeeps(p, r, f.trieds, s.nTried);
  }

  /** The new entries and i tried ones have been read. */
  ghost predicate TriedUpTo(s: State, l: seq<int>, q: State, i: int)
    requires Lists(s, l)
  {
    0 <= s.nNew + i <= |l| && EntriesLoaded(s, l, s.nNew + i, q) && q.nIdCount == s.nNew + i
  }

  lemma NextTriedLoads(s: State, f: File, l: seq<int>, q: State, i: nat)
    requires Lists(s, l) && Apart(s, l) && Holds(s, l, f) && i < s.nTried && TriedUpTo(s, l, q, i)
    ensures TriedUpTo(s, l, PutTried(q, f.trieds[i]), i + 1)
  {
    var k := s.nNew + i + 1;
    assert f.trieds[k - 1 - s.nNew] == Save(s.mapInfo[l[k - 1]]);
    PutTriedLoads(s, l, k, q);
  }

  lemma NewReadBack(s: State, f: File, l: seq<int>)
    requires Lists(s, l) && Apart(s, l) && Holds(s, l, f)
    ensures EntriesLoaded(s, l, s.nNew, NewEntries(f, s.h)) && NewEntries(f, s.h).nIdCount == s.nNew
  {
    StartLoaded(s, l, f);
    ReadNewLoads(s, l, Start(f, s.h), f.news, s.nNew);
    SetIdCount(s, l, ReadNew(Start(f, s.h), f.news, s.nNew, true));
  }

  lemma AllBefore(s: State)
    requires Check(s)
    ensures Before(s, NEW_BUCKETS, 0) == s.vvNew.Keys && Before(s, 0, 0) == {}
  {
    forall t | t in s.vvNew ensures 0 <= t.bucket < NEW_BUCKETS { SlotFacts(s, t); }
  }

  lemma BucketsReadBack(s: State, base: State)
    requires Check(s) && Lists(s, Written(s)) && EntriesLoaded(s, Written(s), |Written(s)|, base)
    ensures RefsLoaded(s, Written(s), s.vvNew.Keys, base, ReadBuckets(base, Serialize(s).buckets, NEW_BUCKETS))
  {
    AllBefore(s);
    NothingRead(s, Written(s), base);
    ReadBucketsLoads(s, base, NEW_BUCKETS);
  }

  lemma NothingRead(s: State, l: seq<int>, base: State)
    requires Lists(s, l) && EntriesLoaded(s, l, |l|, base)
    ensures RefsLoaded(s, l, {}, base, base)
  {
    forall i | 0 <= i < s.nNew ensures |RefsIn(s, {}, l[i])| == 0 && base.mapInfo[i].nRefCount == 0 {
      assert RefsIn(s, {}, l[i]) == {};
      assert base.mapInfo[i] == Loaded(s, l, i);
    }
  }

  /** Reading a written manager loses nothing: the result is the same manager up to renaming of ids. */
  lemma RoundTrip(s: State)
    requires Check(s)
    ensures Lists(s, Written(s)) && Complete(Serialize(s))
    ensures Unserialize(Serialize(s), s.h).Some?
    ensures Renamed(s, Unserialize(Serialize(s), s.h).value, Written(s))
  {
    var f, l := Serialize(s), Written(s);
    WrittenLists(s);
    EntriesApart(s, l);
    RecordsListed(s);
    EntriesReadBack(s, f, l);
    BucketsReadBack(s, Entries(f, s.h));
    ReadsBack(s, l, Entries(f, s.h), Assemble(f, s.h));
    NothingLost(s, f, l);
  }

  lemma NothingLost(s: State, f: File, l: seq<int>)
    requires Check(s) && Lists(s, l) && f == Serialize(s) && Complete(f)
    requires Renamed(s, Assemble(f, s.h), l)
    ensures Unserialize(f, s.h) == Some(Assemble(f, s.h))
  {
    var r := Assemble(f, s.h);
    Limits(s);
    AssembleDense(f, s.h);
    AllReferenced(s, r, l);
    NothingToPrune(r, r.nIdCount);
  }

  // ----- the result passes Check -----

  ghost function Interval(a: int, b: int): (r: set<int>)
    requires a <= b
    ensures |r| == b - a && forall i :: i in r <==> a <= i < b
    decreases b - a
  {
    if a == b then {} else Interval(a, b - 1) + {b - 1}
  }

  lemma SameReferences(s: State, r: State, l: seq<int>, i: int)
    requires Lists(s, l) && 0 <= i < |l| && SlotsLoaded(s, l, s.vvNew.Keys, r.vvNew)
    ensures SlotsOf(r.vvNew, i) == SlotsOf(s.vvNew, l[i])
  {
    forall t | t in s.vvNew ensures r.vvNew[t] == i <==> s.vvNew[t] == l[i] {
      assert l[r.vvNew[t]] == s.vvNew[t];
    }
  }

  lemma RenamedNewOk(s: State, r: State, l: seq<int>)
    requires Check(s) && Lists(s, l) && Renamed(s, r, l)
    ensures NewOk(r.mapInfo, r.vvNew, r.h, r.nKey, {})
  {
    forall t | t in r.vvNew ensures NewSlotOk(r.mapInfo, r.vvNew[t], r.h, r.nKey, t) {
      assert NewSlotOk(s.mapInfo, s.vvNew[t], s.h, s.nKey, t);
    }
    forall i | i in r.mapInfo ensures r.mapInfo[i].nRefCount == |SlotsOf(r.vvNew, i)| && RefOk(r.mapInfo[i], false) {
      assert r.mapInfo[i] == Reread(s.mapInfo[l[i]], i);
      SameReferences(s, r, l, i);
      assert RefOk(s.mapInfo[l[i]], false);
    }
  }

  lemma RenamedTriedOk(s: State, r: State, l: seq<int>)
    requires Check(s) && Lists(s, l) && Renamed(s, r, l)
    ensures TriedOk(r.mapInfo, r.vvTried, r.h, r.nKey)
  {
    forall t | t in r.vvTried ensures TriedSlotOk(r.mapInfo, r.vvTried[t], r.h, r.nKey, t) {
      assert TriedSlotOk(s.mapInfo, s.vvTried[t], s.h, s.nKey, t);
    }
    forall i | i in r.mapInfo && r.mapInfo[i].fInTried
      ensures InSlot(r.vvTried, TriedSlot(r.h, r.nKey, r.mapInfo[i].service), i)
    {
      assert r.mapInfo[i] == Reread(s.mapInfo[l[i]], i);
      assert InSlot(s.vvTried, TriedSlot(s.h, s.nKey, s.mapInfo[l[i]].service), l[i]);
    }
  }

  lemma RenamedCounted(s: State, r: State, l: seq<int>)
    requires Lists(s, l) && Renamed(s, r, l)
    ensures Counted(r, 0)
  {
    forall i | i in r.mapInfo ensures r.mapInfo[i].fInTried <==> i >= s.nNew { RereadKind(s, r, l, i); }
    KindCount(r.mapInfo, s.nNew, |l|);
  }

  lemma RereadKind(s: State, r: State, l: seq<int>, i: int)
    requires Lists(s, l) && Renamed(s, r, l) && i in r.mapInfo
    ensures r.mapInfo[i].fInTried <==> i >= s.nNew
  {
    assert r.mapInfo[i] == Reread(s.mapInfo[l[i]], i);
  }

  lemma KindCount(info: map<int, Info>, k: int, n: int)
    requires 0 <= k <= n && forall i :: i in info <==> 0 <= i < n
    requires forall i | i in info :: info[i].fInTried <==> i >= k
    ensures |Tried(info)| == n - k && |Untried(info)| == k
  {
    assert Tried(info) == Interval(k, n);
    assert Untried(info) == Interval(0, k);
  }

  lemma RenamedIndexed(s: State, r: State, l: seq<int>)
    requires Lists(s, l) && Renamed(s, r, l)
    ensures Indexed(r.mapInfo, r.mapAddr) && Ordered(r.mapInfo, r.vRandom) && IdsBelow(r.mapInfo, r.nIdCount)
  {
    forall i | i in r.mapInfo ensures r.mapInfo[i].service.ip == IpOf(s, l, i) {}
  }

  /** The Check at the end of Unserialize passes. */
  lemma RereadPassesCheck(s: State, r: State, l: seq<int>)
    requires Check(s) && Lists(s, l) && Renamed(s, r, l)
    ensures Check(r)
  {
    RenamedNewOk(s, r, l);
    RenamedTriedOk(s, r, l);
    RenamedCounted(s, r, l);
    RenamedIndexed(s, r, l);
  }
}
