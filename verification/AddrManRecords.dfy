/**
 * Peers files whose positions in the new table cannot be used, because of their version or their
 * number of buckets: what Unserialize of src/addrman.h makes of their records, told from the file.
 */
module AddrManRecords {
  import opened AddrMan
  import opened AddrManCheck
  import opened AddrManFile
  import opened AddrManReread
  import opened Wrappers

  function HomeOf(f: File, h: Hashes, i: nat): Slot
    requires i < |f.news|
  {
    NewSlot(h, f.nKey, f.news[i].service, f.news[i].source)
  }

  ghost function HomesBefore(f: File, h: Hashes, n: nat): set<Slot>
    requires n <= |f.news|
  {
    set i: nat | i < n :: HomeOf(f, h, i)
  }

  /** No earlier new record has the same slot, so this one gets it. */
  ghost predicate FirstHome(f: File, h: Hashes, i: nat)
    requires i < |f.news|
  {
    HomeOf(f, h, i) !in HomesBefore(f, h, i)
  }

  function TriedOf(f: File, h: Hashes, i: nat): Slot
    requires i < |f.trieds|
  {
    TriedSlot(h, f.nKey, f.trieds[i].service)
  }

  ghost function TriedBefore(f: File, h: Hashes, n: nat): set<Slot>
    requires n <= |f.trieds|
  {
    set i: nat | i < n :: TriedOf(f, h, i)
  }

  /** No earlier tried record has the same slot, so this one is not lost. */
  ghost predicate FirstTried(f: File, h: Hashes, i: nat)
    requires i < |f.trieds|
  {
    TriedOf(f, h, i) !in TriedBefore(f, h, i)
  }

  /** The new record i as it is read. */
  ghost predicate NewEntry(f: File, h: Hashes, i: nat, e: Info)
    requires i < |f.news|
  {
    && e.service == f.news[i].service && e.nLastSuccess == f.news[i].nLastSuccess && e.nLastTry == 0
    && !e.fInTried && e.nRefCount == if FirstHome(f, h, i) then 1 else 0
  }

  ghost predicate HomesRead(f: File, h: Hashes, q: State, n: nat) {
    && n <= |f.news| && q.h == h && q.nKey == f.nKey && q.vvNew.Keys == HomesBefore(f, h, n)
    && (forall i :: i in q.mapInfo <==> 0 <= i < n)
    && (forall i: nat | i < n :: NewEntry(f, h, i, q.mapInfo[i]))
  }

  lemma HomesNext(f: File, h: Hashes, n: nat)
    requires n < |f.news|
    ensures HomesBefore(f, h, n + 1) == HomesBefore(f, h, n) + {HomeOf(f, h, n)}
  {
    forall u | u in HomesBefore(f, h, n) ensures u in HomesBefore(f, h, n + 1) {
      var i: nat :| i < n && u == HomeOf(f, h, i);
      assert i < n + 1;
    }
    assert n < n + 1;
  }

  lemma NextHome(f: File, h: Hashes, q: State, n: nat)
    requires n < |f.news| && HomesRead(f, h, q, n)
    ensures HomesRead(f, h, NextNew(q, f.news[n], n, false), n + 1)
  {
    HomesNext(f, h, n);
    var p := PutNew(q, f.news[n], n);
    assert HomeSlot(p, n) == HomeOf(f, h, n);
    var r := PutHome(p, n);
    assert r.vvNew.Keys == q.vvNew.Keys + {HomeOf(f, h, n)};
    forall i: nat | i < n + 1 ensures NewEntry(f, h, i, r.mapInfo[i]) {
      if i < n { assert NewEntry(f, h, i, q.mapInfo[i]); }
    }
  }

  lemma ReadHomes(f: File, h: Hashes, r: State, n: nat)
    requires n <= |f.news| && HomesRead(f, h, r, 0)
    ensures HomesRead(f, h, ReadNew(r, f.news, n, false), n)
  {
    var p := (q: State, i: nat) => HomesRead(f, h, q, i);
    forall q: State, i: nat | i < n && p(q, i) ensures p(NextNew(q, f.news[i], i, false), i + 1) {
      NextHome(f, h, q, i);
    }
    ReadNewKeeps(p, r, f.news, n, false);
  }

  /** How many of the first n tried records are not lost. */
  ghost function KeptBefore(f: File, h: Hashes, n: nat): nat
    requires n <= |f.trieds|
  {
    if n == 0 then 0 else KeptBefore(f, h, n - 1) + if FirstTried(f, h, n - 1) then 1 else 0
  }

  /** The id of a tried record. */
  ghost function IdOf(f: File, h: Hashes, i: nat): int
    requires i < |f.trieds|
  {
    f.nNew + KeptBefore(f, h, i)
  }

  lemma {:induction false} KeptGrows(f: File, h: Hashes, i: nat, j: nat)
    requires i < j <= |f.trieds|
    ensures KeptBefore(f, h, i) + (if FirstTried(f, h, i) then 1 else 0) <= KeptBefore(f, h, j)
  {
    if i < j - 1 { KeptGrows(f, h, i, j - 1); }
  }

  ghost predicate TriedEntry(f: File, i: nat, e: Info)
    requires i < |f.trieds|
  {
    e.service == f.trieds[i].service && e.nLastSuccess == f.trieds[i].nLastSuccess && e.nLastTry == 0 && e.fInTried
  }

  /** An id at or above nNew is that of a tried record among the first m. */
  ghost predicate HasRecord(f: File, h: Hashes, m: nat, id: int)
    requires m <= |f.trieds|
  {
    exists j: nat :: j < m && FirstTried(f, h, j) && IdOf(f, h, j) == id
  }

  ghost predicate TriedsRead(f: File, h: Hashes, q: State, m: nat) {
    && m <= |f.trieds| && 0 <= f.nNew <= |f.news| && q.h == h && q.nKey == f.nKey
    && q.nIdCount == f.nNew + KeptBefore(f, h, m) && q.vvTried.Keys == TriedBefore(f, h, m)
    && (forall i :: i in q.mapInfo <==> 0 <= i < q.nIdCount)
    && (forall i: nat | i < f.nNew :: NewEntry(f, h, i, q.mapInfo[i]))
    && (forall j: nat | j < m && FirstTried(f, h, j) ::
          IdOf(f, h, j) in q.mapInfo && TriedEntry(f, j, q.mapInfo[IdOf(f, h, j)]))
    && (forall id | f.nNew <= id < q.nIdCount :: HasRecord(f, h, m, id))
  }

  lemma TriedsNext(f: File, h: Hashes, n: nat)
    requires n < |f.trieds|
    ensures TriedBefore(f, h, n + 1) == TriedBefore(f, h, n) + {TriedOf(f, h, n)}
  {
    forall u | u in TriedBefore(f, h, n) ensures u in TriedBefore(f, h, n + 1) {
      var i: nat :| i < n && u == TriedOf(f, h, i);
      assert i < n + 1;
    }
    assert n < n + 1;
  }

  lemma NextTriedRead(f: File, h: Hashes, q: State, m: nat)
    requires m < |f.trieds| && TriedsRead(f, h, q, m)
    ensures TriedsRead(f, h, PutTried(q, f.trieds[m]), m + 1)
  {
    var r := PutTried(q, f.trieds[m]);
    SlotsNext(f, h, q, m);
    TriedEntriesNext(f, h, q, r, m);
    HasRecordNext(f, h, q, m, m + 1);
    NewsKept(f, h, q, m);
  }

  lemma SlotsNext(f: File, h: Hashes, q: State, m: nat)
    requires m < |f.trieds| && q.h == h && q.nKey == f.nKey && q.nIdCount >= 0 && q.vvTried.Keys == TriedBefore(f, h, m)
    ensures FirstTried(f, h, m) <==> TriedOf(f, h, m) !in q.vvTried
    ensures PutTried(q, f.trieds[m]).vvTried.Keys == TriedBefore(f, h, m + 1)
  {
    TriedsNext(f, h, m);
    assert PutTried(q, f.trieds[m]).vvTried.Keys == q.vvTried.Keys + {TriedOf(f, h, m)};
  }

  lemma NewsKept(f: File, h: Hashes, q: State, m: nat)
    requires m < |f.trieds| && TriedsRead(f, h, q, m)
    ensures forall i: nat | i < f.nNew :: NewEntry(f, h, i, PutTried(q, f.trieds[m]).mapInfo[i])
  {
    forall i: nat | i < f.nNew
      ensures NewEntry(f, h, i, PutTried(q, f.trieds[m]).mapInfo[i])
    {
      assert NewEntry(f, h, i, q.mapInfo[i]);
    }
  }

  lemma TriedEntriesNext(f: File, h: Hashes, q: State, r: State, m: nat)
    requires m < |f.trieds| && TriedsRead(f, h, q, m) && r == PutTried(q, f.trieds[m])
    requires FirstTried(f, h, m) <==> TriedOf(f, h, m) !in q.vvTried
    ensures forall j: nat | j < m + 1 && FirstTried(f, h, j) ::
              IdOf(f, h, j) in r.mapInfo && TriedEntry(f, j, r.mapInfo[IdOf(f, h, j)])
  {
    forall j: nat | j < m + 1 && FirstTried(f, h, j)
      ensures IdOf(f, h, j) in r.mapInfo && TriedEntry(f, j, r.mapInfo[IdOf(f, h, j)])
    {
      if j < m {
        KeptGrows(f, h, j, m);
        assert TriedEntry(f, j, q.mapInfo[IdOf(f, h, j)]);
      }
    }
  }

  lemma HasRecordNext(f: File, h: Hashes, q: State, m: nat, m': nat)
    requires m' == m + 1 <= |f.trieds| && TriedsRead(f, h, q, m)
    ensures forall id | f.nNew <= id < f.nNew + KeptBefore(f, h, m') :: HasRecord(f, h, m', id)
  {
    forall id | f.nNew <= id < f.nNew + KeptBefore(f, h, m') ensures HasRecord(f, h, m', id) {
      if id < q.nIdCount {
        assert HasRecord(f, h, m, id);
        var j: nat :| j < m && FirstTried(f, h, j) && IdOf(f, h, j) == id;
        assert j < m';
      } else {
        assert m < m' && FirstTried(f, h, m) && IdOf(f, h, m) == id;
      }
    }
  }

  lemma {:induction false} ReadTrieds(f: File, h: Hashes, r: State, n: nat)
    requires n <= |f.trieds| && TriedsRead(f, h, r, 0)
    ensures TriedsRead(f, h, ReadTried(r, f.trieds, n), n)
  {
    if n > 0 {
      ReadTrieds(f, h, r, n - 1);
      NextTriedRead(f, h, ReadTried(r, f.trieds, n - 1), n - 1);
    }
  }

  lemma UnusableRead(f: File, h: Hashes)
    requires Complete(f) && !Usable(f) && f.nNew >= 0 && f.nTried >= 0
    ensures TriedsRead(f, h, Assemble(f, h), f.nTried)
  {
    ReadHomes(f, h, Start(f, h), f.nNew);
    ReadNewTried(Start(f, h), f.news, f.nNew);
    NewsToTrieds(f, h, ReadNew(Start(f, h), f.news, f.nNew, false));
    ReadTrieds(f, h, NewEntries(f, h), f.nTried);
  }

  lemma {:induction false} ReadNewTried(r: State, news: seq<Record>, n: nat)
    requires n <= |news|
    ensures ReadNew(r, news, n, false).vvTried == r.vvTried
  {
    if n > 0 { ReadNewTried(r, news, n - 1); }
  }

  lemma NewsToTrieds(f: File, h: Hashes, q: State)
    requires f.nNew >= 0 && HomesRead(f, h, q, f.nNew) && q.vvTried == map[]
    ensures TriedsRead(f, h, q.(nIdCount := f.nNew), 0)
  {
    assert TriedBefore(f, h, 0) == {};
  }

  /** Traceable, told from the records. */
  ghost predicate RecordsTraceable(f: File, h: Hashes)
    requires Complete(f)
  {
    && (forall i: nat, j: nat | i < f.nNew && j < f.nNew && i != j && NewIp(f, i) == NewIp(f, j) ::
          !FirstHome(f, h, i) || (i == 0 && !FirstHome(f, h, j)))
    && (forall i: nat, j: nat | i < f.nNew && j < f.nTried && FirstTried(f, h, j) :: NewIp(f, i) != TriedIp(f, j))
    && (forall i: nat, j: nat | i < j < f.nTried && FirstTried(f, h, i) && FirstTried(f, h, j) ::
          TriedIp(f, i) != TriedIp(f, j))
  }

  ghost predicate RecordsStamped(f: File, h: Hashes)
    requires Complete(f)
  {
    && (forall i: nat | i < f.nNew && FirstHome(f, h, i) :: f.news[i].nLastSuccess >= 0)
    && (forall j: nat | j < f.nTried && FirstTried(f, h, j) :: f.trieds[j].nLastSuccess > 0)
  }

  lemma BareNew(f: File, h: Hashes, q: State, m: nat, i: nat)
    requires TriedsRead(f, h, q, m) && i < f.nNew
    ensures i in q.mapInfo && q.mapInfo[i].service == f.news[i].service
    ensures i in Bare(q.mapInfo) <==> !FirstHome(f, h, i)
    ensures Stamped(q.mapInfo[i]) <==> f.news[i].nLastSuccess >= 0
  {
    assert NewEntry(f, h, i, q.mapInfo[i]);
  }

  lemma BareTried(f: File, h: Hashes, q: State, m: nat, j: nat)
    requires TriedsRead(f, h, q, m) && j < m && FirstTried(f, h, j)
    ensures IdOf(f, h, j) in q.mapInfo && q.mapInfo[IdOf(f, h, j)].service == f.trieds[j].service
    ensures IdOf(f, h, j) !in Bare(q.mapInfo) && IdOf(f, h, j) >= f.nNew
    ensures Stamped(q.mapInfo[IdOf(f, h, j)]) <==> f.trieds[j].nLastSuccess > 0
  {
    assert TriedEntry(f, j, q.mapInfo[IdOf(f, h, j)]);
  }

  lemma StampedRecords(f: File, h: Hashes, q: State)
    requires Complete(f) && f.nTried >= 0 && TriedsRead(f, h, q, f.nTried)
    ensures KeptStamped(q.mapInfo) <==> RecordsStamped(f, h)
  {
    forall i: nat | i < f.nNew
      ensures i in q.mapInfo && (i in Bare(q.mapInfo) <==> !FirstHome(f, h, i))
      ensures Stamped(q.mapInfo[i]) <==> f.news[i].nLastSuccess >= 0
    {
      BareNew(f, h, q, f.nTried, i);
    }
    forall j: nat | j < f.nTried && FirstTried(f, h, j)
      ensures IdOf(f, h, j) in q.mapInfo && IdOf(f, h, j) !in Bare(q.mapInfo)
      ensures Stamped(q.mapInfo[IdOf(f, h, j)]) <==> f.trieds[j].nLastSuccess > 0
    {
      BareTried(f, h, q, f.nTried, j);
    }
    if RecordsStamped(f, h) {
      forall n | n in q.mapInfo && n !in Bare(q.mapInfo) ensures Stamped(q.mapInfo[n]) {
        if n >= f.nNew {
          assert HasRecord(f, h, f.nTried, n);
          var j: nat :| j < f.nTried && FirstTried(f, h, j) && IdOf(f, h, j) == n;
        }
      }
    }
  }

  lemma TraceableRecords(f: File, h: Hashes, q: State)
    requires Complete(f) && f.nTried >= 0 && TriedsRead(f, h, q, f.nTried) && Traceable(q.mapInfo)
    ensures RecordsTraceable(f, h)
  {
    forall i: nat, j: nat | i < f.nNew && j < f.nNew && i != j && NewIp(f, i) == NewIp(f, j)
      ensures !FirstHome(f, h, i) || (i == 0 && !FirstHome(f, h, j))
    {
      BareNew(f, h, q, f.nTried, i);
      BareNew(f, h, q, f.nTried, j);
      assert SameAddress(q.mapInfo, i, j);
    }
    forall i: nat, j: nat | i < f.nNew && j < f.nTried && FirstTried(f, h, j) ensures NewIp(f, i) != TriedIp(f, j) {
      BareNew(f, h, q, f.nTried, i);
      BareTried(f, h, q, f.nTried, j);
      var a := IdOf(f, h, j);
      assert q.mapInfo[a].service.ip == q.mapInfo[i].service.ip ==> SameAddress(q.mapInfo, a, i);
    }
    forall i: nat, j: nat | i < j < f.nTried && FirstTried(f, h, i) && FirstTried(f, h, j)
      ensures TriedIp(f, i) != TriedIp(f, j)
    {
      BareTried(f, h, q, f.nTried, i);
      BareTried(f, h, q, f.nTried, j);
      KeptGrows(f, h, i, j);
      var a, b := IdOf(f, h, i), IdOf(f, h, j);
      assert q.mapInfo[a].service.ip == q.mapInfo[b].service.ip ==> SameAddress(q.mapInfo, a, b);
    }
  }

  /** Whether an entry that was read is a new record, or which tried record it is. */
  lemma RecordOf(f: File, h: Hashes, q: State, id: int) returns (j: nat)
    requires f.nTried >= 0 && f.nTried <= |f.trieds| && TriedsRead(f, h, q, f.nTried) && id in q.mapInfo
    ensures if id < f.nNew then 0 <= id && q.mapInfo[id].service.ip == NewIp(f, id)
            else j < f.nTried && FirstTried(f, h, j) && IdOf(f, h, j) == id && q.mapInfo[id].service.ip == TriedIp(f, j)
  {
    if id < f.nNew {
      j := 0;
      BareNew(f, h, q, f.nTried, id);
    } else {
      assert HasRecord(f, h, f.nTried, id);
      j :| j < f.nTried && FirstTried(f, h, j) && IdOf(f, h, j) == id;
      BareTried(f, h, q, f.nTried, j);
    }
  }

  lemma RecordsTraced(f: File, h: Hashes, q: State, a: int, b: int)
    requires Complete(f) && f.nTried >= 0 && TriedsRead(f, h, q, f.nTried) && RecordsTraceable(f, h)
    requires SameAddress(q.mapInfo, a, b)
    ensures a in Bare(q.mapInfo) || (a == 0 && b in Bare(q.mapInfo))
  {
    var i := RecordOf(f, h, q, a);
    var j := RecordOf(f, h, q, b);
    if a < f.nNew && b < f.nNew {
      BareNew(f, h, q, f.nTried, a);
      BareNew(f, h, q, f.nTried, b);
      assert NewIp(f, a) == NewIp(f, b);
    } else {
      OthersApart(f, h, a, b, i, j);
    }
  }

  /** Of two entries that are not both new, no two share an address. */
  lemma OthersApart(f: File, h: Hashes, a: int, b: int, i: nat, j: nat)
    requires Complete(f) && RecordsTraceable(f, h) && !(a < f.nNew && b < f.nNew) && a != b
    requires if a < f.nNew then 0 <= a else i < f.nTried && FirstTried(f, h, i) && IdOf(f, h, i) == a
    requires if b < f.nNew then 0 <= b else j < f.nTried && FirstTried(f, h, j) && IdOf(f, h, j) == b
    ensures (if a < f.nNew then NewIp(f, a) else TriedIp(f, i)) != (if b < f.nNew then NewIp(f, b) else TriedIp(f, j))
  {
    if a >= f.nNew && b >= f.nNew {
      assert i != j;
      assert if i < j then TriedIp(f, i) != TriedIp(f, j) else TriedIp(f, j) != TriedIp(f, i);
    }
  }

  /**
   * For a file of another version, or with another number of buckets, the condition is one on its
   * records: which of them is the first with its slot, and their addresses and stamps.
   */
  lemma RereadRecordsIff(f: File, h: Hashes)
    requires Unserialize(f, h).Some? && !Usable(f)
    ensures Complete(f)
    ensures Passes(Unserialize(f, h).value) <==>
              && f.nNew >= 0 && f.nTried >= 0 && f.nKey != NULL_KEY
              && RecordsTraceable(f, h) && RecordsStamped(f, h)
  {
    RereadIff(f, h);
    if f.nNew >= 0 && f.nTried >= 0 {
      var q := Assemble(f, h);
      UnusableRead(f, h);
      StampedRecords(f, h, q);
      if Traceable(q.mapInfo) { TraceableRecords(f, h, q); }
      if RecordsTraceable(f, h) {
        forall a, b | SameAddress(q.mapInfo, a, b) ensures a in Bare(q.mapInfo) || (a == 0 && b in Bare(q.mapInfo)) {
          RecordsTraced(f, h, q, a, b);
        }
      }
    }
  }

  /** An address twice, not at the start of a file of version 0: it is read without an error, and Check_ fails. */
  lemma SharedAddressFails(other: Record, rec: Record, key: Key, h: Hashes)
    requires NewSlot(h, key, other.service, other.source) != NewSlot(h, key, rec.service, rec.source)
    ensures var f := File(0, 32, key, 3, 0, 0, [other, rec, rec], [], []);
            Unserialize(f, h).Some? && !Passes(Unserialize(f, h).value)
  {
    var f := File(0, 32, key, 3, 0, 0, [other, rec, rec], [], []);
    RereadRecordsIff(f, h);
    assert FirstHome(f, h, 1) && NewIp(f, 1) == NewIp(f, 2);
  }

  function TwinFile(rec: Record, key: Key): File { File(0, 32, key, 2, 0, 0, [rec, rec], [], []) }

  /**
   * The same address twice at the start: Check_ accepts the manager, because it takes an absent
   * address for entry 0, and yet the address of the only entry is not found any more.
   */
  lemma CheckMisses(rec: Record, key: Key, h: Hashes)
    requires key != NULL_KEY && rec.nLastSuccess >= 0
    ensures Unserialize(TwinFile(rec, key), h).Some?
    ensures var s := Unserialize(TwinFile(rec, key), h).value;
            Passes(s) && !Check(s) && 0 in s.mapInfo && !Known(s, rec.service)
  {
    TwinPasses(rec, key, h);
    TwinUnchecked(rec, key, h);
  }

  lemma TwinPasses(rec: Record, key: Key, h: Hashes)
    requires key != NULL_KEY && rec.nLastSuccess >= 0
    ensures Unserialize(TwinFile(rec, key), h).Some? && Passes(Unserialize(TwinFile(rec, key), h).value)
  {
    var f := TwinFile(rec, key);
    RereadRecordsIff(f, h);
    assert HomeOf(f, h, 0) in HomesBefore(f, h, 1);
  }

  lemma TwinUnchecked(rec: Record, key: Key, h: Hashes)
    requires Unserialize(TwinFile(rec, key), h).Some?
    ensures var s := Unserialize(TwinFile(rec, key), h).value; !Check(s) && 0 in s.mapInfo && !Known(s, rec.service)
  {
    var f := TwinFile(rec, key);
    CheckIff(f, h);
    UnusableRead(f, h);
    TwinRead(f, h, Assemble(f, h), rec);
    AssembleIs(f, h);
    TwinLost(Assemble(f, h), rec);
  }

  /** Of two equal records only the first gets a slot. */
  lemma TwinRead(f: File, h: Hashes, q: State, rec: Record)
    requires TriedsRead(f, h, q, 0) && f.nNew == 2 && f.news == [rec, rec]
    ensures SameAddress(q.mapInfo, 0, 1) && q.mapInfo[1].service == rec.service
    ensures 0 !in Bare(q.mapInfo) && 1 in Bare(q.mapInfo)
    ensures FirstHome(f, h, 0) && !FirstHome(f, h, 1) && q.nIdCount == 2
  {
    BareNew(f, h, q, 0, 0);
    BareNew(f, h, q, 0, 1);
    assert HomeOf(f, h, 0) in HomesBefore(f, h, 1);
  }

  lemma TwinLost(q: State, rec: Record)
    requires Assembled(q) && q.nIdCount == 2 && SameAddress(q.mapInfo, 0, 1) && q.mapInfo[1].service == rec.service
    requires 0 !in Bare(q.mapInfo) && 1 in Bare(q.mapInfo)
    ensures 0 in Prune(q, 2).mapInfo && !Known(Prune(q, 2), rec.service)
  {
    PruneIs(q, 2);
    assert 1 in Gone(q.mapInfo, 2) && AddrGone(q.mapInfo, 2, rec.service.ip);
  }
}
