/**
 * Reading any peers file, also a damaged one: when the manager that Unserialize of src/addrman.h
 * leaves behind passes the Check_ that it ends with, and when it is as the operations need it.
 */
module AddrManReread {
  import opened AddrMan
  import opened AddrManCheck
  import opened AddrManFile
  import opened Arithmetic
  import opened Wrappers

  /** The entries without any slot, which are pruned. */
  ghost function Bare(info: map<int, Info>): set<int> {
    set n | n in info && !info[n].fInTried && info[n].nRefCount == 0
  }

  /** The address index has every address, under the last entry read with it. */
  ghost predicate Latest(info: map<int, Info>, mapAddr: map<Ip, int>) {
    && (forall n | n in info :: info[n].service.ip in mapAddr && n <= mapAddr[info[n].service.ip])
    && (forall a | a in mapAddr :: mapAddr[a] in info && info[mapAddr[a]].service.ip == a)
  }

  /** What holds between any two items of the file. */
  ghost predicate Sound(r: State) {
    && NewOk(r.mapInfo, r.vvNew, r.h, r.nKey, Bare(r.mapInfo))
    && TriedOk(r.mapInfo, r.vvTried, r.h, r.nKey)
    && Latest(r.mapInfo, r.mapAddr)
  }

  /** The entries below k are those of the new table. */
  ghost predicate Kinds(info: map<int, Info>, k: int) { forall i | i in info :: info[i].fInTried <==> i >= k }

  ghost predicate Below(info: map<int, Info>, n: int) { forall i | i in info :: i < n }

  // ----- one entry -----

  lemma JoinNew(info: map<int, Info>, info': map<int, Info>, id: int, t: Table, h: Hashes, key: Key)
    requires NewOk(info, t, h, key, Bare(info)) && id !in info && id in info' && info' == info[id := info'[id]]
    requires info'[id].nRefCount == 0
    ensures NewOk(info', t, h, key, Bare(info'))
  {
    forall s | s in t ensures NewSlotOk(info', t[s], h, key, s) && t[s] != id {
      assert NewSlotOk(info, t[s], h, key, s);
    }
    assert SlotsOf(t, id) == {};
    forall n | n in info' ensures RefOk(info'[n], n in Bare(info')) && info'[n].nRefCount == |SlotsOf(t, n)| {
      if n != id { assert RefOk(info[n], n in Bare(info)); }
    }
  }

  lemma JoinTried(info: map<int, Info>, info': map<int, Info>, id: int, t: Table, h: Hashes, key: Key, u: Slot)
    requires TriedOk(info, t, h, key) && id !in info && id in info' && info' == info[id := info'[id]]
    requires info'[id].fInTried && u !in t && u == TriedSlot(h, key, info'[id].service)
    ensures TriedOk(info', t[u := id], h, key)
  {
    var t' := t[u := id];
    forall s | s in t' ensures TriedSlotOk(info', t'[s], h, key, s) {
      if s != u { assert TriedSlotOk(info, t[s], h, key, s); }
    }
    forall n | n in info' && info'[n].fInTried ensures InSlot(t', TriedSlot(h, key, info'[n].service), n) {
      if n != id { assert InSlot(t, TriedSlot(h, key, info[n].service), n); }
    }
  }

  lemma JoinLatest(info: map<int, Info>, info': map<int, Info>, id: int, mapAddr: map<Ip, int>)
    requires Latest(info, mapAddr) && Below(info, id) && id in info' && info' == info[id := info'[id]]
    ensures Latest(info', mapAddr[info'[id].service.ip := id])
  {}

  lemma PutNewSound(r: State, rec: Record, n: int)
    requires Sound(r) && Below(r.mapInfo, n)
    ensures Sound(PutNew(r, rec, n))
  {
    var info' := PutNew(r, rec, n).mapInfo;
    JoinNew(r.mapInfo, info', n, r.vvNew, r.h, r.nKey);
    CreateTried(r.mapInfo, info', n, r.vvTried, r.h, r.nKey);
    JoinLatest(r.mapInfo, info', n, r.mapAddr);
  }

  lemma PutTriedSound(r: State, rec: Record)
    requires Sound(r) && Below(r.mapInfo, r.nIdCount) && r.nIdCount >= 0
    ensures Sound(PutTried(r, rec))
  {
    var info', id, u := PutTried(r, rec).mapInfo, r.nIdCount, TriedSlot(r.h, r.nKey, rec.service);
    if u !in r.vvTried {
      JoinNew(r.mapInfo, info', id, r.vvNew, r.h, r.nKey);
      JoinTried(r.mapInfo, info', id, r.vvTried, r.h, r.nKey, u);
      JoinLatest(r.mapInfo, info', id, r.mapAddr);
    }
  }

  // ----- one reference -----

  lemma AddRefSound(r: State, n: int, t: Slot)
    requires Sound(r) && n in r.mapInfo && !r.mapInfo[n].fInTried && r.mapInfo[n].nRefCount < NEW_PER_ADDRESS
    requires t !in r.vvNew && NewSlotOk(r.mapInfo, n, r.h, r.nKey, t)
    ensures Sound(AddRef(r, n, t))
  {
    var info, info' := r.mapInfo, AddRef(r, n, t).mapInfo;
    AddNewOk(r, n, t, Bare(info));
    assert Bare(info') == Bare(info) - {n};
    RefTried(info, info', n, r.vvTried, r.h, r.nKey);
    RefLatest(info, info', n, r.mapAddr);
  }

  lemma RefTried(info: map<int, Info>, info': map<int, Info>, n: int, t: Table, h: Hashes, key: Key)
    requires TriedOk(info, t, h, key) && n in info && n in info' && info' == info[n := info'[n]]
    requires info'[n].service == info[n].service && info'[n].fInTried == info[n].fInTried
    ensures TriedOk(info', t, h, key)
  {
    forall s | s in t ensures TriedSlotOk(info', t[s], h, key, s) {
      assert TriedSlotOk(info, t[s], h, key, s);
    }
    forall m | m in info' && info'[m].fInTried ensures InSlot(t, TriedSlot(h, key, info'[m].service), m) {
      assert InSlot(t, TriedSlot(h, key, info[m].service), m);
    }
  }

  lemma RefLatest(info: map<int, Info>, info': map<int, Info>, n: int, mapAddr: map<Ip, int>)
    requires Latest(info, mapAddr) && n in info && n in info' && info' == info[n := info'[n]]
    requires info'[n].service == info[n].service
    ensures Latest(info', mapAddr)
  {}

  lemma PutHomeSound(r: State, n: int)
    requires Sound(r) && n in r.mapInfo && !r.mapInfo[n].fInTried && r.mapInfo[n].nRefCount == 0
    ensures Sound(PutHome(r, n))
  {
    NewSlotRange(r.h, r.nKey, r.mapInfo[n].service, r.mapInfo[n].source);
    if HomeSlot(r, n) !in r.vvNew { AddRefSound(r, n, HomeSlot(r, n)); }
  }

  lemma PutRefSound(r: State, b: int, index: int)
    requires Sound(r) && Kinds(r.mapInfo, r.nNew) && 0 <= b < NEW_BUCKETS
    ensures Sound(PutRef(r, b, index)) && Kinds(PutRef(r, b, index).mapInfo, r.nNew)
  {
    if 0 <= index < r.nNew && index in r.mapInfo {
      var t := NewSlotIn(r.h, r.nKey, r.mapInfo[index].service, b);
      if t !in r.vvNew && r.mapInfo[index].nRefCount < NEW_PER_ADDRESS {
        AddRefSound(r, index, t);
        assert PutRef(r, b, index) == AddRef(r, index, t);
      }
    }
  }

  // ----- the whole file -----

  /** n new entries have been read. */
  ghost predicate NewRead(q: State, n: nat) { Sound(q) && Kinds(q.mapInfo, n) && Below(q.mapInfo, n) }

  lemma NextNewSound(r: State, rec: Record, n: nat, usable: bool)
    requires NewRead(r, n)
    ensures NewRead(NextNew(r, rec, n, usable), n + 1)
  {
    PutNewSound(r, rec, n);
    var p := PutNew(r, rec, n);
    assert NewRead(p, n + 1);
    if !usable { HomeRead(p, n); }
  }

  lemma HomeRead(p: State, n: nat)
    requires NewRead(p, n + 1) && n in p.mapInfo && p.mapInfo[n].nRefCount == 0
    ensures NewRead(PutHome(p, n), n + 1)
  {
    PutHomeSound(p, n);
  }

  lemma ReadNewSound(r: State, news: seq<Record>, n: nat, usable: bool)
    requires n <= |news| && NewRead(r, 0)
    ensures NewRead(ReadNew(r, news, n, usable), n)
  {
    var p := (q: State, i: nat) => NewRead(q, i);
    forall q: State, i: nat | i < n && p(q, i) ensures p(NextNew(q, news[i], i, usable), i + 1) {
      NextNewSound(q, news[i], i, usable);
    }
    ReadNewKeeps(p, r, news, n, usable);
  }

  /** Tried entries have been read, or lost, after k new ones. */
  ghost predicate TriedRead(q: State, k: nat) {
    Sound(q) && Kinds(q.mapInfo, k) && Below(q.mapInfo, q.nIdCount) && k <= q.nIdCount
  }

  lemma NextTriedSound(r: State, rec: Record, k: nat)
    requires TriedRead(r, k)
    ensures TriedRead(PutTried(r, rec), k)
  {
    PutTriedSound(r, rec);
  }

  lemma ReadTriedSound(r: State, trieds: seq<Record>, n: nat, k: nat)
    requires n <= |trieds| && TriedRead(r, k)
    ensures TriedRead(ReadTried(r, trieds, n), k)
  {
    var p := (q: State, i: nat) => TriedRead(q, k);
    forall q: State, i: nat | i < n && p(q, i) ensures p(PutTried(q, trieds[i]), i + 1) {
      NextTriedSound(q, trieds[i], k);
    }
    ReadTriedKeeps(p, r, trieds, n);
  }

  /** The references do not touch counters, ids and kinds. */
  ghost predicate SameCounts(r: State, q: State) {
    q.nNew == r.nNew && q.nTried == r.nTried && q.nIdCount == r.nIdCount && q.nKey == r.nKey
  }

  lemma {:induction false} ReadBucketSound(r: State, b: int, indexes: seq<int>)
    requires Sound(r) && Kinds(r.mapInfo, r.nNew) && 0 <= b < NEW_BUCKETS
    ensures var q := ReadBucket(r, b, indexes); Sound(q) && Kinds(q.mapInfo, r.nNew) && SameCounts(r, q)
  {
    if indexes != [] {
      ReadBucketSound(r, b, indexes[..|indexes| - 1]);
      PutRefSound(ReadBucket(r, b, indexes[..|indexes| - 1]), b, indexes[|indexes| - 1]);
    }
  }

  ghost predicate RefsRead(r: State, q: State) { Sound(q) && Kinds(q.mapInfo, r.nNew) && SameCounts(r, q) }

  /** What every bucket keeps holds of all of them. */
  lemma {:induction false} ReadBucketsKeeps(p: State -> bool, r: State, buckets: seq<seq<int>>, n: nat)
    requires n <= |buckets| && p(r)
    requires forall q: State, b: nat | b < n && p(q) :: p(ReadBucket(q, b, buckets[b]))
    ensures p(ReadBuckets(r, buckets, n))
  {
    if n > 0 { ReadBucketsKeeps(p, r, buckets, n - 1); }
  }

  lemma ReadBucketsSound(r: State, buckets: seq<seq<int>>, n: nat)
    requires n <= |buckets| && n <= NEW_BUCKETS && RefsRead(r, r)
    ensures RefsRead(r, ReadBuckets(r, buckets, n))
  {
    var p := (q: State) => RefsRead(r, q);
    forall q: State, b: nat | b < n && p(q) ensures p(ReadBucket(q, b, buckets[b])) {
      ReadBucketSound(q, b, buckets[b]);
    }
    ReadBucketsKeeps(p, r, buckets, n);
  }

  /** What has been read before pruning: everything is in order, except that addresses may be shared. */
  ghost predicate Assembled(r: State) {
    && Sound(r) && Kinds(r.mapInfo, r.nNew) && IdsBelow(r.mapInfo, r.nIdCount)
    && Ordered(r.mapInfo, r.vRandom) && Counted(r, 0)
  }

  lemma AssembleSound(f: File, h: Hashes)
    requires Complete(f) && f.nNew >= 0 && f.nTried >= 0
    ensures var r := Assemble(f, h);
            && r.nNew == f.nNew && Sound(r) && Kinds(r.mapInfo, r.nNew)
            && 0 <= r.nNew <= r.nIdCount && r.nTried == r.nIdCount - r.nNew
  {
    EntriesSound(f, h);
    EntriesCounts(f, h);
    if Usable(f) { ReadBucketsSound(Entries(f, h), f.buckets, NEW_BUCKETS); }
  }

  lemma EntriesSound(f: File, h: Hashes)
    requires Complete(f) && f.nNew >= 0 && f.nTried >= 0
    ensures TriedRead(Entries(f, h), f.nNew)
  {
    NewEntriesSound(f, h);
    ReadTriedSound(NewEntries(f, h), f.trieds, f.nTried, f.nNew);
  }

  lemma NewEntriesSound(f: File, h: Hashes)
    requires Complete(f) && f.nNew >= 0
    ensures TriedRead(NewEntries(f, h), f.nNew)
  {
    NothingSound(Start(f, h));
    ReadNewSound(Start(f, h), f.news, f.nNew, Usable(f));
    IdsSet(ReadNew(Start(f, h), f.news, f.nNew, Usable(f)), f.nNew);
  }

  lemma NothingSound(r: State)
    requires r.mapInfo == map[] && r.mapAddr == map[] && r.vvNew == map[] && r.vvTried == map[]
    ensures NewRead(r, 0)
  {}

  lemma IdsSet(q: State, n: nat)
    requires NewRead(q, n)
    ensures TriedRead(q.(nIdCount := n), n)
  {}

  lemma {:induction false} ReadNewCounts(r: State, news: seq<Record>, n: nat, usable: bool)
    requires n <= |news|
    ensures var q := ReadNew(r, news, n, usable); q.nNew == r.nNew && q.nTried == r.nTried && q.nKey == r.nKey
  {
    if n > 0 { ReadNewCounts(r, news, n - 1, usable); }
  }

  lemma {:induction false} ReadTriedCounts(r: State, trieds: seq<Record>, n: nat)
    requires n <= |trieds|
    ensures var q := ReadTried(r, trieds, n);
            && q.nNew == r.nNew && q.nKey == r.nKey && q.nTried <= r.nTried
            && q.nTried - q.nIdCount == r.nTried - r.nIdCount - n
  {
    if n > 0 { ReadTriedCounts(r, trieds, n - 1); }
  }

  lemma EntriesCounts(f: File, h: Hashes)
    requires Complete(f)
    ensures var e := Entries(f, h);
            && e.nNew == f.nNew && e.nTried <= f.nTried && e.nKey == f.nKey
            && (f.nTried >= 0 ==> e.nTried == e.nIdCount - f.nNew)
  {
    ReadNewCounts(Start(f, h), f.news, Max(0, f.nNew), Usable(f));
    ReadTriedCounts(NewEntries(f, h), f.trieds, Max(0, f.nTried));
  }

  lemma AssembleIs(f: File, h: Hashes)
    requires Complete(f) && f.nNew >= 0 && f.nTried >= 0
    ensures Assembled(Assemble(f, h))
  {
    AssembleSound(f, h);
    AssembleDense(f, h);
    AssembleIds(f, h);
    KindCount(Assemble(f, h).mapInfo, Assemble(f, h).nNew, Assemble(f, h).nIdCount);
  }

  lemma AssembleIds(f: File, h: Hashes)
    requires Complete(f) && f.nNew >= 0
    ensures forall i :: i in Assemble(f, h).mapInfo <==> 0 <= i < Assemble(f, h).nIdCount
  {
    ReadNewDense(Start(f, h), f.news, f.nNew, Usable(f));
    ReadTriedDense(NewEntries(f, h), f.trieds, Max(0, f.nTried), 0);
    if Usable(f) { ReadBucketsIds(Entries(f, h), f.buckets, NEW_BUCKETS); }
  }

  lemma {:induction false} ReadBucketsIds(r: State, buckets: seq<seq<int>>, n: nat)
    requires n <= |buckets|
    ensures ReadBuckets(r, buckets, n).mapInfo.Keys == r.mapInfo.Keys && SameCounts(r, ReadBuckets(r, buckets, n))
  {
    if n > 0 {
      ReadBucketsIds(r, buckets, n - 1);
      ReadBucketIds(ReadBuckets(r, buckets, n - 1), n - 1, buckets[n - 1]);
    }
  }

  lemma {:induction false} ReadBucketIds(r: State, b: int, indexes: seq<int>)
    ensures ReadBucket(r, b, indexes).mapInfo.Keys == r.mapInfo.Keys && SameCounts(r, ReadBucket(r, b, indexes))
  {
    if indexes != [] { ReadBucketIds(r, b, indexes[..|indexes| - 1]); }
  }

  // ----- pruning -----

  ghost function Gone(info: map<int, Info>, k: int): set<int> { set n | n in Bare(info) && n < k }

  ghost predicate AddrGone(info: map<int, Info>, k: int, a: Ip) {
    exists n :: n in Gone(info, k) && info[n].service.ip == a
  }

  /** The entries of r without those below k that are pruned; their addresses are no longer found. */
  ghost predicate PrunedTo(r: State, q: State, k: int) {
    && q.mapInfo.Keys == r.mapInfo.Keys - Gone(r.mapInfo, k)
    && (forall n | n in q.mapInfo :: SameEntry(r.mapInfo[n], q.mapInfo[n]))
    && (forall a :: a in q.mapAddr <==> a in r.mapAddr && !AddrGone(r.mapInfo, k, a))
    && (forall a | a in q.mapAddr :: q.mapAddr[a] == r.mapAddr[a])
    && q.nIdCount == r.nIdCount && q.nKey == r.nKey
  }

  /** Everything that Check looks at, except the address index. */
  ghost predicate Tidy(q: State) {
    && Ordered(q.mapInfo, q.vRandom) && NewOk(q.mapInfo, q.vvNew, q.h, q.nKey, Bare(q.mapInfo))
    && TriedOk(q.mapInfo, q.vvTried, q.h, q.nKey) && Counted(q, 0)
  }

  lemma DeleteTidy(q: State, id: int)
    requires Tidy(q) && Deletable(q, id)
    ensures Tidy(Delete(q, id))
  {
    var d, left := Delete(q, id), q.mapInfo - {id};
    DeleteFields(q, id);
    RemoveTables(q, id, Bare(q.mapInfo));
    BareSame(left, d.mapInfo);
    assert Bare(left) == Bare(q.mapInfo) - {id};
    SameTablesKeepNew(left, d.mapInfo, q.vvNew, q.h, q.nKey, Bare(left));
    SameTablesKeepTried(left, d.mapInfo, q.vvTried, q.h, q.nKey);
    assert |Untried(q.mapInfo) - {id}| == |Untried(q.mapInfo)| - 1;
  }

  lemma BareSame(info: map<int, Info>, info': map<int, Info>)
    requires SameTables(info, info')
    ensures Bare(info') == Bare(info)
  {
    forall n | n in info ensures n in Bare(info') <==> n in Bare(info) { assert SamePlace(info[n], info'[n]); }
  }

  lemma DeletePrunes(r: State, q: State, k: int)
    requires PrunedTo(r, q, k) && Ordered(q.mapInfo, q.vRandom) && Deletable(q, k)
    ensures PrunedTo(r, Delete(q, k), k + 1)
  {
    var d := Delete(q, k);
    DeleteFields(q, k);
    DeleteKeepsEntries(q, k);
    assert SameEntry(r.mapInfo[k], q.mapInfo[k]);
    assert Gone(r.mapInfo, k + 1) == Gone(r.mapInfo, k) + {k};
    forall n | n in d.mapInfo ensures SameEntry(r.mapInfo[n], d.mapInfo[n]) {
      assert SameEntry(q.mapInfo[n], d.mapInfo[n]) && SameEntry(r.mapInfo[n], q.mapInfo[n]);
    }
    forall a ensures AddrGone(r.mapInfo, k + 1, a) <==> AddrGone(r.mapInfo, k, a) || a == r.mapInfo[k].service.ip {
      AddrGoneNext(r.mapInfo, k, a);
    }
  }

  lemma AddrGoneNext(info: map<int, Info>, k: int, a: Ip)
    requires Gone(info, k + 1) == Gone(info, k) + {k}
    ensures k in info
    ensures AddrGone(info, k + 1, a) <==> AddrGone(info, k, a) || a == info[k].service.ip
  {
    assert k in Gone(info, k + 1);
  }

  lemma KeepPrunes(r: State, q: State, k: int)
    requires PrunedTo(r, q, k) && !Deletable(q, k)
    ensures PrunedTo(r, q, k + 1)
  {
    if k in q.mapInfo { assert SameEntry(r.mapInfo[k], q.mapInfo[k]); }
    assert Gone(r.mapInfo, k + 1) == Gone(r.mapInfo, k);
    forall a ensures AddrGone(r.mapInfo, k + 1, a) <==> AddrGone(r.mapInfo, k, a) {}
  }

  lemma NothingGone(r: State)
    requires IdsBelow(r.mapInfo, r.nIdCount)
    ensures PrunedTo(r, r, 0)
  {
    assert Gone(r.mapInfo, 0) == {};
  }

  /** What deleting one entry keeps holds after pruning. */
  lemma {:induction false} PruneKeeps(p: (State, nat) -> bool, r: State, n: nat)
    requires Ordered(r.mapInfo, r.vRandom) && p(r, 0)
    requires forall q: State, k: nat | k < n && Ordered(q.mapInfo, q.vRandom) && p(q, k) :: p(PruneOne(q, k), k + 1)
    ensures p(Prune(r, n), n)
  {
    if n > 0 { PruneKeeps(p, r, n - 1); }
  }

  lemma PruneTidy(r: State, n: nat)
    requires Tidy(r)
    ensures Tidy(Prune(r, n))
  {
    var p := (q: State, k: nat) => Tidy(q);
    forall q: State, k: nat | k < n && Ordered(q.mapInfo, q.vRandom) && p(q, k) ensures p(PruneOne(q, k), k + 1) {
      if Deletable(q, k) { DeleteTidy(q, k); }
    }
    PruneKeeps(p, r, n);
  }

  lemma PruneOneTo(r: State, q: State, k: nat)
    requires PrunedTo(r, q, k) && Ordered(q.mapInfo, q.vRandom)
    ensures PrunedTo(r, PruneOne(q, k), k + 1)
  {
    if Deletable(q, k) { DeletePrunes(r, q, k); } else { KeepPrunes(r, q, k); }
  }

  lemma PruneIs(r: State, n: nat)
    requires Ordered(r.mapInfo, r.vRandom) && IdsBelow(r.mapInfo, r.nIdCount)
    ensures PrunedTo(r, Prune(r, n), n)
  {
    var p := (q: State, k: nat) => PrunedTo(r, q, k);
    NothingGone(r);
    forall q: State, k: nat | k < n && Ordered(q.mapInfo, q.vRandom) && p(q, k) ensures p(PruneOne(q, k), k + 1) {
      PruneOneTo(r, q, k);
    }
    PruneKeeps(p, r, n);
  }

  // ----- the address index after pruning -----

  predicate SameAddress(info: map<int, Info>, i: int, j: int) {
    i in info && j in info && i != j && info[i].service.ip == info[j].service.ip
  }

  /** No entry with a slot shares its address with another entry that was read. */
  ghost predicate Unshared(info: map<int, Info>) {
    forall i, j | SameAddress(info, i, j) :: i in Bare(info)
  }

  /** The same, but entry 0 may share its address with entries that are pruned. */
  ghost predicate Traceable(info: map<int, Info>) {
    forall i, j | SameAddress(info, i, j) :: i in Bare(info) || (i == 0 && j in Bare(info))
  }

  /** What Check_ finds under the address of an entry that was kept. */
  lemma LookupPruned(r: State, q: State, n: int)
    requires PrunedTo(r, q, r.nIdCount) && IdsBelow(r.mapInfo, r.nIdCount) && Latest(r.mapInfo, r.mapAddr) && n in q.mapInfo
    ensures var a := q.mapInfo[n].service.ip;
            Lookup(q.mapAddr, a) == if AddrGone(r.mapInfo, r.nIdCount, a) then 0 else r.mapAddr[a]
    ensures n in r.mapInfo && n !in Bare(r.mapInfo) && q.mapInfo[n].service == r.mapInfo[n].service
    ensures q.mapInfo[n].service.ip in r.mapAddr
  {
    assert SameEntry(r.mapInfo[n], q.mapInfo[n]);
  }

  lemma TraceableLooksUp(r: State, q: State, n: int)
    requires PrunedTo(r, q, r.nIdCount) && IdsBelow(r.mapInfo, r.nIdCount) && Latest(r.mapInfo, r.mapAddr) && n in q.mapInfo
    requires Traceable(r.mapInfo)
    ensures Lookup(q.mapAddr, q.mapInfo[n].service.ip) == n
  {
    LookupPruned(r, q, n);
    var a := q.mapInfo[n].service.ip;
    var m := r.mapAddr[a];
    if AddrGone(r.mapInfo, r.nIdCount, a) {
      var j :| j in Gone(r.mapInfo, r.nIdCount) && r.mapInfo[j].service.ip == a;
      assert SameAddress(r.mapInfo, n, j);
    } else {
      NotGone(r, a, m);
      assert m != n ==> SameAddress(r.mapInfo, n, m);
    }
  }

  lemma NotGone(r: State, a: Ip, j: int)
    requires IdsBelow(r.mapInfo, r.nIdCount) && !AddrGone(r.mapInfo, r.nIdCount, a)
    ensures j in r.mapInfo && r.mapInfo[j].service.ip == a ==> j !in Bare(r.mapInfo)
  {
    assert j in Bare(r.mapInfo) ==> j in Gone(r.mapInfo, r.nIdCount);
  }

  lemma LooksUpTraceable(r: State, q: State, i: int, j: int)
    requires PrunedTo(r, q, r.nIdCount) && IdsBelow(r.mapInfo, r.nIdCount) && Latest(r.mapInfo, r.mapAddr)
    requires SameAddress(r.mapInfo, i, j) && forall n | n in q.mapInfo :: Lookup(q.mapAddr, q.mapInfo[n].service.ip) == n
    ensures i in Bare(r.mapInfo) || (i == 0 && j in Bare(r.mapInfo))
  {
    if i !in Bare(r.mapInfo) {
      assert i in q.mapInfo;
      LookupPruned(r, q, i);
      if j in Bare(r.mapInfo) {
        assert j in Gone(r.mapInfo, r.nIdCount);
      } else {
        assert j in q.mapInfo;
        LookupPruned(r, q, j);
      }
    }
  }

  /** The stamps of the entries that are kept are in order. */
  ghost predicate KeptStamped(info: map<int, Info>) {
    forall n | n in info && n !in Bare(info) :: Stamped(info[n])
  }

  lemma StampedPruned(r: State, q: State)
    requires PrunedTo(r, q, r.nIdCount) && IdsBelow(r.mapInfo, r.nIdCount)
    ensures AllStamped(q.mapInfo) <==> KeptStamped(r.mapInfo)
  {
    forall n | n in q.mapInfo
      ensures n in r.mapInfo && n !in Bare(r.mapInfo) && (Stamped(q.mapInfo[n]) <==> Stamped(r.mapInfo[n]))
    {
      assert SameEntry(r.mapInfo[n], q.mapInfo[n]);
    }
    if AllStamped(q.mapInfo) {
      forall n | n in r.mapInfo && n !in Bare(r.mapInfo)
        ensures Stamped(r.mapInfo[n])
      {
        assert n in q.mapInfo && Stamped(q.mapInfo[n]);
      }
    }
  }

  lemma NoneBare(r: State, q: State)
    requires PrunedTo(r, q, r.nIdCount) && IdsBelow(r.mapInfo, r.nIdCount)
    ensures Bare(q.mapInfo) == {} && IdsBelow(q.mapInfo, q.nIdCount)
  {
    forall n | n in q.mapInfo ensures n !in Bare(q.mapInfo) {
      assert SameEntry(r.mapInfo[n], q.mapInfo[n]);
    }
  }

  /** The index has only entries, each under its address. */
  lemma PrunedIndex(r: State, q: State)
    requires PrunedTo(r, q, r.nIdCount) && IdsBelow(r.mapInfo, r.nIdCount) && Latest(r.mapInfo, r.mapAddr)
    ensures forall a | a in q.mapAddr :: q.mapAddr[a] in q.mapInfo && q.mapInfo[q.mapAddr[a]].service.ip == a
  {
    forall a | a in q.mapAddr ensures q.mapAddr[a] in q.mapInfo && q.mapInfo[q.mapAddr[a]].service.ip == a {
      var n := r.mapAddr[a];
      assert n in Gone(r.mapInfo, r.nIdCount) ==> AddrGone(r.mapInfo, r.nIdCount, a);
      assert SameEntry(r.mapInfo[n], q.mapInfo[n]);
    }
  }

  lemma UnsharedIndexed(r: State, q: State)
    requires PrunedTo(r, q, r.nIdCount) && IdsBelow(r.mapInfo, r.nIdCount) && Latest(r.mapInfo, r.mapAddr)
    ensures Indexed(q.mapInfo, q.mapAddr) <==> Unshared(r.mapInfo)
  {
    PrunedIndex(r, q);
    if Unshared(r.mapInfo) {
      forall n | n in q.mapInfo ensures q.mapInfo[n].service.ip in q.mapAddr && q.mapAddr[q.mapInfo[n].service.ip] == n {
        UnsharedFound(r, q, n);
      }
    }
    if Indexed(q.mapInfo, q.mapAddr) {
      forall i | i in r.mapInfo && i !in Bare(r.mapInfo) ensures forall j :: !SameAddress(r.mapInfo, i, j) {
        assert i in q.mapInfo;
        IndexedAlone(r, q, i);
      }
    }
  }

  lemma UnsharedFound(r: State, q: State, n: int)
    requires PrunedTo(r, q, r.nIdCount) && IdsBelow(r.mapInfo, r.nIdCount) && Latest(r.mapInfo, r.mapAddr) && n in q.mapInfo
    requires Unshared(r.mapInfo)
    ensures q.mapInfo[n].service.ip in q.mapAddr && q.mapAddr[q.mapInfo[n].service.ip] == n
  {
    LookupPruned(r, q, n);
    var a := q.mapInfo[n].service.ip;
    forall j | j in r.mapInfo && j != n ensures r.mapInfo[j].service.ip != a {
      assert r.mapInfo[j].service.ip == a ==> SameAddress(r.mapInfo, n, j);
    }
  }

  /** In an index without faults a kept entry has its address for itself, also before pruning. */
  lemma IndexedAlone(r: State, q: State, i: int)
    requires PrunedTo(r, q, r.nIdCount) && IdsBelow(r.mapInfo, r.nIdCount) && Latest(r.mapInfo, r.mapAddr)
    requires i in q.mapInfo && Indexed(q.mapInfo, q.mapAddr)
    ensures forall j :: !SameAddress(r.mapInfo, i, j)
  {
    LookupPruned(r, q, i);
    var a := q.mapInfo[i].service.ip;
    forall j | j in q.mapInfo && j != i ensures q.mapInfo[j].service.ip != a {}
    forall j | j in r.mapInfo && j != i ensures r.mapInfo[j].service.ip != a {
      NotGone(r, a, j);
      if j in q.mapInfo { assert SameEntry(r.mapInfo[j], q.mapInfo[j]); }
    }
  }

  // ----- the result -----

  lemma PrunedPasses(r: State)
    requires Assembled(r)
    ensures Passes(Prune(r, r.nIdCount)) <==> Traceable(r.mapInfo) && KeptStamped(r.mapInfo) && r.nKey != NULL_KEY
    ensures Check(Prune(r, r.nIdCount)) <==> Unshared(r.mapInfo)
  {
    var q := Prune(r, r.nIdCount);
    PruneIs(r, r.nIdCount);
    PruneTidy(r, r.nIdCount);
    NoneBare(r, q);
    UnsharedIndexed(r, q);
    StampedPruned(r, q);
    TidyPasses(q);
    LooksUpIff(r, q);
  }

  ghost predicate LooksUp(q: State) { forall n | n in q.mapInfo :: Lookup(q.mapAddr, q.mapInfo[n].service.ip) == n }

  lemma LooksUpIff(r: State, q: State)
    requires PrunedTo(r, q, r.nIdCount) && IdsBelow(r.mapInfo, r.nIdCount) && Latest(r.mapInfo, r.mapAddr)
    ensures LooksUp(q) <==> Traceable(r.mapInfo)
  {
    if Traceable(r.mapInfo) {
      forall n | n in q.mapInfo ensures Lookup(q.mapAddr, q.mapInfo[n].service.ip) == n { TraceableLooksUp(r, q, n); }
    }
    if LooksUp(q) {
      forall i, j | SameAddress(r.mapInfo, i, j) ensures i in Bare(r.mapInfo) || (i == 0 && j in Bare(r.mapInfo)) {
        LooksUpTraceable(r, q, i, j);
      }
    }
  }

  lemma TidyPasses(q: State)
    requires Tidy(q) && Bare(q.mapInfo) == {}
    ensures Passes(q) <==> LooksUp(q) && AllStamped(q.mapInfo) && q.nKey != NULL_KEY
  {
    CountedOrder(q);
    forall n | n in q.mapInfo
      ensures EntryPasses(q, n) <==> Stamped(q.mapInfo[n]) && Lookup(q.mapAddr, q.mapInfo[n].service.ip) == n
    {
      assert RefOk(q.mapInfo[n], n in {});
    }
    if Passes(q) {
      forall n | n in q.mapInfo ensures Stamped(q.mapInfo[n]) && Lookup(q.mapAddr, q.mapInfo[n].service.ip) == n {
        assert EntryPasses(q, n);
      }
    }
  }

  lemma PruneCounts(r: State, n: nat)
    requires Ordered(r.mapInfo, r.vRandom)
    ensures Prune(r, n).nNew <= r.nNew && Prune(r, n).nTried == r.nTried
  {
    var p := (q: State, k: nat) => q.nNew <= r.nNew && q.nTried == r.nTried;
    forall q: State, k: nat | k < n && Ordered(q.mapInfo, q.vRandom) && p(q, k) ensures p(PruneOne(q, k), k + 1) {
      if Deletable(q, k) { DeleteFields(q, k); }
    }
    PruneKeeps(p, r, n);
  }

  lemma AssembleCounts(f: File, h: Hashes)
    requires Complete(f)
    ensures Assemble(f, h).nNew == f.nNew && Assemble(f, h).nTried <= f.nTried && Assemble(f, h).nKey == f.nKey
  {
    EntriesCounts(f, h);
    if Usable(f) { ReadBucketsIds(Entries(f, h), f.buckets, NEW_BUCKETS); }
  }

  /**
   * A file that is read without an error leaves a manager that Check_ accepts exactly when its two
   * counters are not negative, its key is not null, and the entries that get a slot have possible
   * time stamps and share their address with no other entry read, except that entry 0 may share
   * it with entries that get no slot.
   */
  lemma RereadIff(f: File, h: Hashes)
    requires Unserialize(f, h).Some?
    ensures Complete(f)
    ensures Passes(Unserialize(f, h).value) <==>
              && f.nNew >= 0 && f.nTried >= 0 && f.nKey != NULL_KEY
              && Traceable(Assemble(f, h).mapInfo) && KeptStamped(Assemble(f, h).mapInfo)
  {
    var r := Assemble(f, h);
    AssembleDense(f, h);
    AssembleCounts(f, h);
    if f.nNew >= 0 && f.nTried >= 0 {
      AssembleIs(f, h);
      PrunedPasses(r);
    } else {
      PruneCounts(r, Max(0, r.nIdCount));
    }
  }

  /**
   * It is as the operations need it exactly when the counters are not negative and no entry with a
   * slot shares its address with another entry read.
   */
  lemma CheckIff(f: File, h: Hashes)
    requires Unserialize(f, h).Some?
    ensures Complete(f)
    ensures Check(Unserialize(f, h).value) <==> f.nNew >= 0 && f.nTried >= 0 && Unshared(Assemble(f, h).mapInfo)
  {
    var r := Assemble(f, h);
    AssembleDense(f, h);
    if f.nNew >= 0 && f.nTried >= 0 {
      AssembleIs(f, h);
      PrunedPasses(r);
    } else {
      AssembleCounts(f, h);
      PruneCounts(r, Max(0, r.nIdCount));
    }
  }

  // ----- files whose addresses are all different -----

  function NewIp(f: File, i: nat): Ip
    requires i < |f.news|
  {
    f.news[i].service.ip
  }

  function TriedIp(f: File, i: nat): Ip
    requires i < |f.trieds|
  {
    f.trieds[i].service.ip
  }

  ghost predicate Unrepeated(f: File)
    requires Complete(f)
  {
    && (forall i: nat, j: nat | i < j < f.nNew :: NewIp(f, i) != NewIp(f, j))
    && (forall i: nat, j: nat | i < j < f.nTried :: TriedIp(f, i) != TriedIp(f, j))
    && (forall i: nat, j: nat | i < f.nNew && j < f.nTried :: NewIp(f, i) != TriedIp(f, j))
  }

  /** The addresses read so far: those of the first n new and the first m tried records. */
  ghost predicate From(f: File, mapAddr: map<Ip, int>, n: nat, m: nat)
    requires n <= |f.news| && m <= |f.trieds|
  {
    forall a | a in mapAddr :: (exists i: nat :: i < n && NewIp(f, i) == a) || (exists i: nat :: i < m && TriedIp(f, i) == a)
  }

  ghost predicate IndexRead(f: File, q: State, n: nat, m: nat) {
    n <= |f.news| && m <= |f.trieds| && Indexed(q.mapInfo, q.mapAddr) && From(f, q.mapAddr, n, m)
  }

  lemma NextNewIndexed(f: File, q: State, n: nat, usable: bool)
    requires Complete(f) && Unrepeated(f) && n < f.nNew && IndexRead(f, q, n, 0) && Below(q.mapInfo, n)
    ensures IndexRead(f, NextNew(q, f.news[n], n, usable), n + 1, 0)
    ensures Below(NextNew(q, f.news[n], n, usable).mapInfo, n + 1)
  {
    var p := PutNew(q, f.news[n], n);
    NewIpFresh(f, q.mapAddr, n);
    CreateIndexed(q, p.mapInfo, n);
    assert NewIp(f, n) in p.mapAddr;
    FromNextNew(f, q.mapAddr, n, n);
    if !usable && HomeSlot(p, n) !in p.vvNew { RefIndexed(p.mapInfo, PutHome(p, n).mapInfo, n, p.mapAddr); }
  }

  lemma NewIpFresh(f: File, mapAddr: map<Ip, int>, n: nat)
    requires Complete(f) && Unrepeated(f) && n < f.nNew && From(f, mapAddr, n, 0)
    ensures NewIp(f, n) !in mapAddr
  {}

  lemma FromNextNew(f: File, mapAddr: map<Ip, int>, n: nat, id: int)
    requires n < |f.news| && From(f, mapAddr, n, 0)
    ensures From(f, mapAddr[NewIp(f, n) := id], n + 1, 0)
  {
    var m := mapAddr[NewIp(f, n) := id];
    forall a | a in m ensures exists i: nat :: i < n + 1 && NewIp(f, i) == a {
      if a == NewIp(f, n) {
        assert n < n + 1 && NewIp(f, n) == a;
      } else {
        assert a in mapAddr;
        var i: nat :| i < n && NewIp(f, i) == a;
      }
    }
  }

  lemma RefIndexed(info: map<int, Info>, info': map<int, Info>, n: int, mapAddr: map<Ip, int>)
    requires Indexed(info, mapAddr) && n in info && n in info' && info' == info[n := info'[n]]
    requires info'[n].service == info[n].service
    ensures Indexed(info', mapAddr)
  {}

  lemma ReadNewIndexed(f: File, r: State, usable: bool)
    requires Complete(f) && Unrepeated(f) && f.nNew >= 0 && r.mapInfo == map[] && r.mapAddr == map[]
    ensures IndexRead(f, ReadNew(r, f.news, f.nNew, usable), f.nNew, 0)
    ensures Below(ReadNew(r, f.news, f.nNew, usable).mapInfo, f.nNew)
  {
    var p := (q: State, i: nat) => IndexRead(f, q, i, 0) && Below(q.mapInfo, i);
    forall q: State, i: nat | i < f.nNew && p(q, i) ensures p(NextNew(q, f.news[i], i, usable), i + 1) {
      NextNewIndexed(f, q, i, usable);
    }
    ReadNewKeeps(p, r, f.news, f.nNew, usable);
  }

  lemma NextTriedIndexed(f: File, q: State, m: nat)
    requires Complete(f) && Unrepeated(f) && f.nNew >= 0 && m < f.nTried && IndexRead(f, q, f.nNew, m)
    requires Below(q.mapInfo, q.nIdCount)
    ensures var q' := PutTried(q, f.trieds[m]); IndexRead(f, q', f.nNew, m + 1) && Below(q'.mapInfo, q'.nIdCount)
  {
    TriedIpFresh(f, q.mapAddr, m);
    FromNextTried(f, q.mapAddr, m, q.nIdCount);
    if TriedSlot(q.h, q.nKey, f.trieds[m].service) !in q.vvTried {
      CreateIndexed(q, PutTried(q, f.trieds[m]).mapInfo, q.nIdCount);
    }
  }

  lemma TriedIpFresh(f: File, mapAddr: map<Ip, int>, m: nat)
    requires Complete(f) && Unrepeated(f) && f.nNew >= 0 && m < f.nTried && From(f, mapAddr, f.nNew, m)
    ensures TriedIp(f, m) !in mapAddr
  {}

  lemma FromNextTried(f: File, mapAddr: map<Ip, int>, m: nat, id: int)
    requires 0 <= f.nNew <= |f.news| && m < |f.trieds| && From(f, mapAddr, f.nNew, m)
    ensures From(f, mapAddr, f.nNew, m + 1) && From(f, mapAddr[TriedIp(f, m) := id], f.nNew, m + 1)
  {
    assert m < m + 1 && TriedIp(f, m) == TriedIp(f, m);
  }

  lemma ReadTriedIndexed(f: File, r: State)
    requires Complete(f) && Unrepeated(f) && f.nNew >= 0 && f.nTried >= 0 && IndexRead(f, r, f.nNew, 0)
    requires Below(r.mapInfo, r.nIdCount)
    ensures IndexRead(f, ReadTried(r, f.trieds, f.nTried), f.nNew, f.nTried)
  {
    var p := (q: State, i: nat) => IndexRead(f, q, f.nNew, i) && Below(q.mapInfo, q.nIdCount);
    forall q: State, i: nat | i < f.nTried && p(q, i) ensures p(PutTried(q, f.trieds[i]), i + 1) {
      NextTriedIndexed(f, q, i);
    }
    ReadTriedKeeps(p, r, f.trieds, f.nTried);
  }

  /** References leave services alone. */
  ghost predicate SameServices(info: map<int, Info>, info': map<int, Info>) {
    info'.Keys == info.Keys && forall n | n in info :: info'[n].service == info[n].service
  }

  lemma {:induction false} ReadBucketServices(r: State, b: int, indexes: seq<int>)
    ensures SameServices(r.mapInfo, ReadBucket(r, b, indexes).mapInfo)
  {
    if indexes != [] { ReadBucketServices(r, b, indexes[..|indexes| - 1]); }
  }

  lemma {:induction false} ReadBucketsServices(r: State, buckets: seq<seq<int>>, n: nat)
    requires n <= |buckets|
    ensures SameServices(r.mapInfo, ReadBuckets(r, buckets, n).mapInfo)
  {
    if n > 0 {
      ReadBucketsServices(r, buckets, n - 1);
      ReadBucketServices(ReadBuckets(r, buckets, n - 1), n - 1, buckets[n - 1]);
    }
  }

  lemma EntriesIndexed(f: File, h: Hashes)
    requires Complete(f) && Unrepeated(f) && f.nNew >= 0 && f.nTried >= 0
    ensures Indexed(Entries(f, h).mapInfo, Entries(f, h).mapAddr)
  {
    ReadNewIndexed(f, Start(f, h), Usable(f));
    ReadTriedIndexed(f, NewEntries(f, h));
  }

  /** Different addresses throughout the file are enough, however wrong its positions are. */
  lemma DistinctPasses(f: File, h: Hashes)
    requires Unserialize(f, h).Some? && f.nNew >= 0 && f.nTried >= 0 && Unrepeated(f)
    ensures Check(Unserialize(f, h).value)
    ensures Passes(Unserialize(f, h).value) <==> f.nKey != NULL_KEY && KeptStamped(Assemble(f, h).mapInfo)
  {
    CheckIff(f, h);
    RereadIff(f, h);
    EntriesIndexed(f, h);
    if Usable(f) { ReadBucketsServices(Entries(f, h), f.buckets, NEW_BUCKETS); }
    IndexedApart(Entries(f, h), Assemble(f, h).mapInfo);
  }

  lemma IndexedApart(e: State, info: map<int, Info>)
    requires Indexed(e.mapInfo, e.mapAddr) && SameServices(e.mapInfo, info)
    ensures Unshared(info) && Traceable(info)
  {}

  // ----- what was written -----

  /** A manager that Check_ accepts is accepted again after it was written and read. */
  lemma WrittenPasses(s: State)
    requires Check(s)
    ensures Unserialize(Serialize(s), s.h).Some?
    ensures Passes(s) ==> Passes(Unserialize(Serialize(s), s.h).value)
  {
    RoundTrip(s);
    var r, l := Unserialize(Serialize(s), s.h).value, Written(s);
    RereadPassesCheck(s, r, l);
    PassesIff(s);
    PassesIff(r);
    if Passes(s) {
      forall i | i in r.mapInfo ensures Stamped(r.mapInfo[i]) {
        assert r.mapInfo[i] == Reread(s.mapInfo[l[i]], i) && Stamped(s.mapInfo[l[i]]);
      }
    }
  }
}
