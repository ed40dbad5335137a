/**
 * CAddrMan as an object: the fields of src/addrman.h and the code of src/addrman.cpp that
 * updates them in place, each method proved to compute the corresponding function of AddrMan.
 */
module AddrManager {
  import opened AddrMan
  import opened AddrManCheck
  import opened Arithmetic
  import opened Collections

  class Manager {
    var nIdCount: int
    var mapInfo: map<int, Info>
    var mapAddr: map<Ip, int>
    var vRandom: seq<int>
    var nTried: int
    var nNew: int
    var nLastGood: int
    const vvTried: array2<int>
    const vvNew: array2<int>
    const nKey: Key
    const h: Hashes

    ghost predicate Shaped() {
      && vvTried != vvNew
      && vvTried.Length0 == TRIED_BUCKETS && vvTried.Length1 == BUCKET_SIZE
      && vvNew.Length0 == NEW_BUCKETS && vvNew.Length1 == BUCKET_SIZE
    }

    ghost function S(): State
      reads this, vvTried, vvNew
    {
      State(nIdCount, mapInfo, mapAddr, vRandom, nTried, Contents(vvTried), nNew, Contents(vvNew), nLastGood, nKey, h)
    }

    constructor (key: Key, h: Hashes)
      ensures Shaped() && S() == Empty(key, h)
    {
      nIdCount, mapInfo, mapAddr, vRandom := 0, map[], map[], [];
      nTried, nNew, nLastGood := 0, 0, 1;
      vvTried := new int[TRIED_BUCKETS, BUCKET_SIZE]((_, _) => -1);
      vvNew := new int[NEW_BUCKETS, BUCKET_SIZE]((_, _) => -1);
      nKey, this.h := key, h;
    }

    method SwapRandom(i: int, j: int)
      requires Ordered(mapInfo, vRandom) && 0 <= i < |vRandom| && 0 <= j < |vRandom|
      modifies this`mapInfo, this`vRandom
      ensures S() == AddrMan.SwapRandom(old(S()), i, j)
    {
      if i == j { return; }
      var id1, id2 := vRandom[i], vRandom[j];
      mapInfo := mapInfo[id1 := mapInfo[id1].(nRandomPos := j)];
      mapInfo := mapInfo[id2 := mapInfo[id2].(nRandomPos := i)];
      vRandom := vRandom[i := id2];
      vRandom := vRandom[j := id1];
    }

    method Delete(id: int)
      requires Ordered(mapInfo, vRandom) && Deletable(S(), id)
      modifies this
      ensures S() == AddrMan.Delete(old(S()), id)
    {
      DeleteMovesToEnd(S(), id);
      SwapRandom(mapInfo[id].nRandomPos, |vRandom| - 1);
      Forget(id);
    }

    /** The rest of Delete: the entry is at the end of vRandom. */
    method Forget(id: int)
      requires id in mapInfo && vRandom != []
      modifies this
      ensures S() == AddrMan.Forget(old(S()), id)
    {
      vRandom := vRandom[..|vRandom| - 1];
      mapAddr := mapAddr - {mapInfo[id].service.ip};
      mapInfo := mapInfo - {id};
      nNew := nNew - 1;
    }

    method ClearNew(t: Slot)
      requires Shaped() && Inside(vvNew, t) && Ordered(mapInfo, vRandom) && Clearable(S(), t)
      modifies this, vvNew
      ensures S() == AddrMan.ClearNew(old(S()), t)
    {
      if vvNew[t.bucket, t.pos] != -1 {
        var id := vvNew[t.bucket, t.pos];
        ghost var s := S();
        assert s.vvNew[t] == id;
        mapInfo := mapInfo[id := mapInfo[id].(nRefCount := mapInfo[id].nRefCount - 1)];
        PutSlot(vvNew, t, -1);
        assert S() == DropRef(s, t);
        if mapInfo[id].nRefCount == 0 {
          Delete(id);
        }
      }
    }

    /** The loop of MakeTried over all new buckets; it leaves the entry without references. */
    method Unlist(id: int)
      requires Shaped() && Check(S()) && id in mapInfo && !mapInfo[id].fInTried
      modifies this, vvNew
      ensures S() == AddrMan.Unlist(old(S()), id)
      ensures id in mapInfo && mapInfo[id].nRefCount == 0
    {
      UnlistDrops(S(), id);
      UnlistAll(id);
    }

    method UnlistAll(id: int)
      requires Shaped() && id in mapInfo && id != -1
      modifies this, vvNew
      ensures S() == AddrMan.Unlist(old(S()), id)
    {
      ghost var s := S();
      NothingRemoved(s, id);
      for bucket := 0 to NEW_BUCKETS
        invariant S() == RemoveOwn(s, id, bucket)
      {
        UnlistBucket(id, bucket, s);
      }
      UnlistIs(s, id);
      nNew := nNew - 1;
    }

    /** One iteration of that loop. */
    method UnlistBucket(id: int, bucket: int, ghost s: State)
      requires Shaped() && id in s.mapInfo && id != -1 && 0 <= bucket < NEW_BUCKETS
      requires S() == RemoveOwn(s, id, bucket)
      modifies this, vvNew
      ensures S() == RemoveOwn(s, id, bucket + 1)
    {
      RemoveStep(s, id, bucket);
      var t := NewSlotIn(h, nKey, mapInfo[id].service, bucket);
      if vvNew[t.bucket, t.pos] == id {
        assert InSlot(Contents(vvNew), t, id);
        PutSlot(vvNew, t, -1);
        mapInfo := mapInfo[id := mapInfo[id].(nRefCount := mapInfo[id].nRefCount - 1)];
      } else {
        assert !InSlot(Contents(vvNew), t, id);
      }
    }

    /** MakeTried moves the occupant of a tried slot back to the new table. */
    method EvictFrom(t: Slot, ghost limbo: set<int>, ghost off: int)
      requires Shaped() && Inv(S(), limbo, off) && Inside(vvTried, t) && t in Contents(vvTried)
      modifies this, vvTried, vvNew
      ensures S() == Evict(old(S()), t, limbo, off)
    {
      UntryKeepsInv(S(), t, limbo, off);
      var id := TakeBack(t);
      RelistDefined(S(), id, limbo + {id}, off - 1);
      RelistEntry(id);
    }

    /** Take the occupant of a tried slot, which is an entry, out of it. */
    method TakeBack(t: Slot) returns (id: int)
      requires Shaped() && Inside(vvTried, t) && t in Contents(vvTried) && Contents(vvTried)[t] in mapInfo
      modifies this, vvTried
      ensures S() == Untry(old(S()), t) && id == old(S().vvTried[t]) && id != -1
    {
      id := vvTried[t.bucket, t.pos];
      mapInfo := mapInfo[id := mapInfo[id].(fInTried := false)];
      PutSlot(vvTried, t, -1);
      nTried := nTried - 1;
    }

    method RelistEntry(id: int)
      requires Shaped() && id != -1 && Ordered(mapInfo, vRandom) && id in mapInfo && Clearable(S(), HomeSlot(S(), id))
      requires id in AddrMan.ClearNew(S(), HomeSlot(S(), id)).mapInfo
      modifies this, vvNew
      ensures S() == Relist(old(S()), id)
    {
      var t := NewSlot(h, nKey, mapInfo[id].service, mapInfo[id].source);
      ClearNew(t);
      PutEntry(id, t);
    }

    /** The first reference of an entry goes to a slot that is empty. */
    method PutEntry(id: int, t: Slot)
      requires Shaped() && Inside(vvNew, t) && vvNew[t.bucket, t.pos] == -1 && id in mapInfo && id != -1
      modifies this, vvNew
      ensures S() == Place(old(S()), id, t)
    {
      mapInfo := mapInfo[id := mapInfo[id].(nRefCount := 1)];
      PutSlot(vvNew, t, id);
      nNew := nNew + 1;
    }

    method MakeRoomFor(id: int)
      requires Shaped() && Check(S()) && id in mapInfo && !mapInfo[id].fInTried
      modifies this, vvTried, vvNew
      ensures S() == MakeRoom(old(S()), id)
    {
      UnlistKeepsInv(S(), id);
      var t := TriedSlot(h, nKey, mapInfo[id].service);
      Unlist(id);
      FreeTried(t, {id}, -1);
    }

    method FreeTried(t: Slot, ghost limbo: set<int>, ghost off: int)
      requires Shaped() && Inv(S(), limbo, off) && Inside(vvTried, t)
      modifies this, vvTried, vvNew
      ensures S() == if t in old(S().vvTried) then Evict(old(S()), t, limbo, off) else old(S())
    {
      if vvTried[t.bucket, t.pos] != -1 {
        EvictFrom(t, limbo, off);
      }
    }

    method Enter(id: int, t: Slot)
      requires Shaped() && id in mapInfo && id != -1 && Inside(vvTried, t) && vvTried[t.bucket, t.pos] == -1
      modifies this, vvTried
      ensures S() == EnterTried(old(S()), id, t)
    {
      PutSlot(vvTried, t, id);
      nTried := nTried + 1;
      mapInfo := mapInfo[id := mapInfo[id].(fInTried := true)];
    }

    method MakeTried(id: int)
      requires Shaped() && Check(S()) && id in mapInfo && !mapInfo[id].fInTried
      modifies this, vvTried, vvNew
      ensures S() == AddrMan.MakeTried(old(S()), id)
    {
      MakeRoomKeepsInv(S(), id);
      var t := TriedSlot(h, nKey, mapInfo[id].service);
      MakeRoomFor(id);
      Enter(id, t);
    }

    /** Good_ looks through all buckets from a random one on for a slot of the entry. */
    method FindBucket(id: int, nRnd: nat) returns (nUBucket: int)
      requires Shaped() && id in mapInfo && id != -1
      ensures nUBucket == -1 <==> OwnSlots(S(), id) == {}
      ensures nUBucket != -1 ==>
        0 <= nUBucket < NEW_BUCKETS && InSlot(Contents(vvNew), NewSlotIn(h, nKey, mapInfo[id].service, nUBucket), id)
    {
      nUBucket := -1;
      for n := 0 to NEW_BUCKETS
        invariant nUBucket == -1
        invariant forall k | 0 <= k < n :: !OwnBucket(S(), id, Rotate(k, nRnd))
      {
        var nB := Rotate(n, nRnd);
        var t := NewSlotIn(h, nKey, mapInfo[id].service, nB);
        if vvNew[t.bucket, t.pos] == id {
          assert InSlot(Contents(vvNew), t, id);
          assert t in OwnSlots(S(), id);
          return nB;
        }
        assert !InSlot(Contents(vvNew), t, id);
      }
      forall b | 0 <= b < NEW_BUCKETS ensures !OwnBucket(S(), id, b) {
        RotateCovers(b, nRnd);
      }
      NoOwnSlots(S(), id);
    }

    /** Good_ up to the bucket search: the id of the entry, or -1 if the service is not known. */
    method Mark(a: Service, nTime: int) returns (id: int)
      requires IdsBelow(mapInfo, nIdCount)
      modifies this`nLastGood, this`mapInfo
      ensures S() == MarkGood(old(S()), a, nTime)
      ensures id == if Known(old(S()), a) then mapAddr[a.ip] else -1
      ensures id != -1 <==> Known(old(S()), a)
    {
      nLastGood := nTime;
      if a.ip !in mapAddr || mapAddr[a.ip] !in mapInfo { return -1; }
      id := mapAddr[a.ip];
      if mapInfo[id].service != a { return -1; }
      mapInfo := mapInfo[id := mapInfo[id].(nLastSuccess := nTime, nLastTry := nTime, nAttempts := 0)];
    }

    method Good(a: Service, nTime: int, nRnd: nat)
      requires Shaped() && Check(S())
      modifies this, vvTried, vvNew
      ensures S() == AddrMan.Good(old(S()), a, nTime)
    {
      MarkGoodKeepsCheck(S(), a, nTime);
      var id := Mark(a, nTime);
      if id == -1 || mapInfo[id].fInTried { return; }
      var nUBucket := FindBucket(id, nRnd);
      if nUBucket == -1 { return; }
      MakeTried(id);
    }

    /** The end of Add_: give slot t to entry id, or drop an entry without slots. */
    method SettleEntry(id: int, t: Slot, now: int, ghost limbo: set<int>)
      requires Shaped() && Settles(S(), id, t, limbo) && Inside(vvNew, t)
      modifies this, vvNew
      ensures S() == Settle(old(S()), id, t, now, limbo)
    {
      SettleFacts(S(), id, t, limbo);
      if vvNew[t.bucket, t.pos] != id {
        var fInsert := vvNew[t.bucket, t.pos] == -1;
        if !fInsert {
          var existing := mapInfo[vvNew[t.bucket, t.pos]];
          if IsTerrible(existing, now) || (existing.nRefCount > 1 && mapInfo[id].nRefCount == 0) {
            fInsert := true;
          }
        }
        assert fInsert <==> Inserts(S(), id, t, now);
        if fInsert {
          InsertRef(id, t);
        } else if mapInfo[id].nRefCount == 0 {
          Delete(id);
        }
      }
    }

    method InsertRef(id: int, t: Slot)
      requires Shaped() && Inside(vvNew, t) && Ordered(mapInfo, vRandom) && id in mapInfo && id != -1
      requires Clearable(S(), t) && (t in Contents(vvNew) ==> Contents(vvNew)[t] != id)
      modifies this, vvNew
      ensures id in AddrMan.ClearNew(old(S()), t).mapInfo
      ensures S() == AddRef(AddrMan.ClearNew(old(S()), t), id, t)
    {
      ClearNewLeavesOthers(S(), t, id);
      ClearNew(t);
      TakeSlot(id, t);
    }

    method TakeSlot(id: int, t: Slot)
      requires Shaped() && Inside(vvNew, t) && id in mapInfo && id != -1
      modifies this`mapInfo, vvNew
      ensures S() == AddRef(old(S()), id, t)
    {
      mapInfo := mapInfo[id := mapInfo[id].(nRefCount := mapInfo[id].nRefCount + 1)];
      PutSlot(vvNew, t, id);
    }

    method Create(a: Address, source: Ip) returns (id: int)
      modifies this
      ensures S() == AddrMan.Create(old(S()), a, source) && id == old(nIdCount)
    {
      id := nIdCount;
      nIdCount := nIdCount + 1;
      mapInfo := mapInfo[id := Info(a.service, a.nServices, a.nTime, source, 0, 0, 0, 0, 0, false, -1)];
      mapAddr := mapAddr[a.service.ip := id];
      mapInfo := mapInfo[id := mapInfo[id].(nRandomPos := |vRandom|)];
      vRandom := vRandom + [id];
    }

    method IntroduceEntry(a: Address, source: Ip, nTimePenalty: int) returns (id: int)
      modifies this
      ensures S() == Introduce(old(S()), a, source, nTimePenalty) && id == old(nIdCount)
    {
      id := Create(a.(nTime := Max(0, a.nTime - nTimePenalty)), source);
      nNew := nNew + 1;
    }

    method AddNewAddress(a: Address, source: Ip, nTimePenalty: int, now: int)
      requires Shaped() && Check(S()) && a.service.ip !in mapAddr
      modifies this, vvNew
      ensures S() == AddUnknown(old(S()), a, source, nTimePenalty, now)
    {
      IntroduceKeepsInv(S(), a, source, nTimePenalty);
      NewSlotRange(h, nKey, a.service, source);
      var id := IntroduceEntry(a, source, nTimePenalty);
      SettleEntry(id, NewSlot(h, nKey, a.service, source), now, {id});
    }

    /** 1 << nRefCount, by the loop of Add_. */
    method Factor(nRefCount: nat) returns (nFactor: nat)
      ensures nFactor == Pow2(nRefCount)
    {
      nFactor := 1;
      for n := 0 to nRefCount
        invariant nFactor == Pow2(n)
      {
        nFactor := nFactor * 2;
      }
    }

    method AddOldAddress(a: Address, source: Ip, nTimePenalty: int, now: int, coin: nat)
      requires Shaped() && Check(S()) && a.service.ip in mapAddr
      modifies this, vvNew
      ensures S() == AddKnown(old(S()), a, source, nTimePenalty, now, coin)
    {
      var id := mapAddr[a.service.ip];
      ghost var i := Refresh(mapInfo[id], a, nTimePenalty, now);
      StatsKeepInv(S(), id, i, {}, 0);
      RefCountMeans(S(), id);
      RefreshEntry(id, a, nTimePenalty, now);
      var fMore := MayMultiply(i, id, a, coin);
      if fMore {
        NewSlotRange(h, nKey, mapInfo[id].service, source);
        SettleEntry(id, NewSlot(h, nKey, mapInfo[id].service, source), now, {});
      }
    }

    method RefreshEntry(id: int, a: Address, nTimePenalty: int, now: int)
      requires id in mapInfo
      modifies this`mapInfo
      ensures S() == SetInfo(old(S()), id, Refresh(old(mapInfo)[id], a, nTimePenalty, now))
    {
      var fCurrentlyOnline := now - a.nTime < 24 * 60 * 60;
      var nUpdateInterval := if fCurrentlyOnline then 60 * 60 else 24 * 60 * 60;
      if a.nTime != 0 && (mapInfo[id].nTime == 0 || mapInfo[id].nTime < a.nTime - nUpdateInterval - nTimePenalty) {
        mapInfo := mapInfo[id := mapInfo[id].(nTime := Max(0, a.nTime - nTimePenalty))];
      }
      mapInfo := mapInfo[id := mapInfo[id].(nServices := mapInfo[id].nServices + a.nServices)];
    }

    method MayMultiply(ghost i: Info, id: int, a: Address, coin: nat) returns (more: bool)
      requires id in mapInfo && mapInfo[id] == i && 0 <= i.nRefCount
      ensures more <==> Multiplies(i, a, coin)
    {
      if a.nTime == 0 || (mapInfo[id].nTime != 0 && a.nTime <= mapInfo[id].nTime) { return false; }
      if mapInfo[id].fInTried { return false; }
      if mapInfo[id].nRefCount == NEW_PER_ADDRESS { return false; }
      var nFactor := Factor(mapInfo[id].nRefCount);
      assert nFactor > 1 <==> mapInfo[id].nRefCount > 0;
      if nFactor > 1 && coin % nFactor != 0 { return false; }
      return true;
    }

    method Add(a: Address, source: Ip, nTimePenalty: int, now: int, coin: nat) returns (fNew: bool)
      requires Shaped() && Check(S())
      modifies this, vvNew
      ensures S() == AddrMan.Add(old(S()), a, source, nTimePenalty, now, coin).state
      ensures fNew == AddrMan.Add(old(S()), a, source, nTimePenalty, now, coin).fNew
    {
      if !a.routable { return false; }
      if a.service.ip in mapAddr {
        AddOldAddress(a, source, nTimePenalty, now, coin);
        return false;
      }
      AddNewAddress(a, source, nTimePenalty, now);
      return true;
    }

    method DrawAt(n: nat, r: nat)
      requires Ordered(mapInfo, vRandom) && n < |vRandom|
      modifies this`mapInfo, this`vRandom
      ensures S() == Draw(old(S()), n, r)
    {
      SwapRandom(n, DrawPos(n, |vRandom|, r));
    }

    // ----- Check_ -----

    /**
     * Check_ answers 0 exactly for what Passes describes, in whatever order it visits the entries.
     * Looking an address up may enter it into mapAddr with 0; so a manager that passes has every
     * entry in its index afterwards.
     */
    method CheckAll() returns (code: int)
      requires Shaped()
      modifies this`mapAddr
      ensures code == 0 <==> Passes(old(S()))
      ensures Completed(mapInfo, old(mapAddr), mapAddr)
      ensures code == 0 ==> forall n | n in mapInfo ::
        mapInfo[n].service.ip in mapAddr && mapAddr[mapInfo[n].service.ip] == n
    {
      ghost var s := S();
      if |vRandom| != nTried + nNew { return -7; }
      var setTried, mapNew;
      code, setTried, mapNew := CheckEntries();
      if code != 0 { return; }
      assert S().mapInfo == s.mapInfo && EntriesPass(s);
      code := CheckTables(setTried, mapNew);
      RefCountsSize(mapInfo);
    }

    /** The loop over mapInfo. */
    method CheckEntries() returns (code: int, setTried: set<int>, mapNew: map<int, int>)
      modifies this`mapAddr
      ensures code == 0 <==> EntriesPass(old(S()))
      ensures code == 0 ==> setTried == Tried(mapInfo) && mapNew == RefCounts(mapInfo)
      ensures Completed(mapInfo, old(mapAddr), mapAddr)
      ensures code == 0 ==> forall n | n in mapInfo ::
        mapInfo[n].service.ip in mapAddr && mapAddr[mapInfo[n].service.ip] == n
    {
      ghost var s := S();
      setTried, mapNew := {}, map[];
      var todo := mapInfo.Keys;
      while todo != {}
        invariant EntriesSeen(s, mapAddr, todo, setTried, mapNew)
        decreases |todo|
      {
        ghost var some := Member(todo);
        var n :| n in todo;
        ghost var before := mapAddr;
        code := CheckEntry(n);
        LookedUpCompletes(s, before, mapAddr, n);
        if code != 0 { return; }
        EntriesNext(s, before, mapAddr, todo, setTried, mapNew, n);
        if mapInfo[n].fInTried {
          setTried := setTried + {n};
        } else {
          mapNew := mapNew[n := mapInfo[n].nRefCount];
        }
        todo := todo - {n};
      }
      EntriesEnd(s, mapAddr, setTried, mapNew);
      return 0, setTried, mapNew;
    }

    /** The tests of one entry; mapAddr[info] enters an absent address. */
    method CheckEntry(n: int) returns (code: int)
      requires n in mapInfo
      modifies this`mapAddr
      ensures code == 0 <==> EntryPasses(old(S()), n)
      ensures LookedUp(old(mapAddr), mapAddr, mapInfo[n].service.ip)
      ensures code == 0 ==> mapInfo[n].service.ip in mapAddr
    {
      var info := mapInfo[n];
      if info.fInTried {
        if info.nLastSuccess == 0 { return -1; }
        if info.nRefCount != 0 { return -2; }
      } else {
        if info.nRefCount < 0 || info.nRefCount > NEW_PER_ADDRESS { return -3; }
        if info.nRefCount == 0 { return -4; }
      }
      if info.service.ip !in mapAddr {
        mapAddr := mapAddr[info.service.ip := 0];
      }
      if mapAddr[info.service.ip] != n { return -5; }
      if info.nRandomPos < 0 || info.nRandomPos >= |vRandom| || vRandom[info.nRandomPos] != n { return -14; }
      if info.nLastTry < 0 { return -6; }
      if info.nLastSuccess < 0 { return -8; }
      return 0;
    }

    /** The rest of Check_: the counters, both tables and the key. */
    method CheckTables(setTried: set<int>, mapNew: map<int, int>) returns (code: int)
      requires Shaped() && setTried == Tried(mapInfo) && mapNew == RefCounts(mapInfo)
      requires forall n | n in mapInfo :: Counts(mapInfo[n])
      ensures code == 0 <==> Counted(S(), 0) && TablesPass(S()) && nKey != NULL_KEY
    {
      RefCountsSize(mapInfo);
      if |setTried| != nTried { return -9; }
      if |mapNew| != nNew { return -10; }
      ContentsFit(vvTried, TRIED_BUCKETS);
      ContentsFit(vvNew, NEW_BUCKETS);
      ScansMean(S(), setTried, mapNew);
      var left, rest;
      code, left := CheckTried(setTried);
      if code != 0 { return; }
      code, rest := CheckNew(mapNew);
      if code != 0 { return; }
      if left != {} { return -13; }
      if rest != map[] { return -15; }
      if nKey == NULL_KEY { return -16; }
      return 0;
    }

    method CheckTried(setTried: set<int>) returns (code: int, left: set<int>)
      requires Shaped() && setTried <= mapInfo.Keys
      ensures Scan(code, left) == TriedScan(S(), 0, 0, setTried)
    {
      left := setTried;
      for n := 0 to TRIED_BUCKETS
        invariant left <= mapInfo.Keys && TriedScan(S(), n, 0, left) == TriedScan(S(), 0, 0, setTried)
      {
        for i := 0 to BUCKET_SIZE
          invariant left <= mapInfo.Keys && TriedScan(S(), n, i, left) == TriedScan(S(), 0, 0, setTried)
        {
          code, left := CheckTriedSlot(n, i, left);
          if code != 0 { return; }
        }
      }
      return 0, left;
    }

    method CheckTriedSlot(n: int, i: int, setTried: set<int>) returns (code: int, left: set<int>)
      requires Shaped() && Inside(vvTried, Slot(n, i)) && setTried <= mapInfo.Keys
      ensures Scan(code, left) == TriedOne(S(), Slot(n, i), setTried) && left <= setTried
    {
      var id := vvTried[n, i];
      if id == -1 { return 0, setTried; }
      assert InSlot(S().vvTried, Slot(n, i), id);
      if id !in setTried { return -11, setTried; }
      var at := TriedSlot(h, nKey, mapInfo[id].service);
      if at.bucket != n { return -17, setTried; }
      if at.pos != i { return -18, setTried; }
      return 0, setTried - {id};
    }

    method CheckNew(mapNew: map<int, int>) returns (code: int, rest: map<int, int>)
      requires Shaped() && mapNew.Keys <= mapInfo.Keys
      ensures Scan(code, rest) == NewScan(S(), 0, 0, mapNew)
    {
      rest := mapNew;
      for n := 0 to NEW_BUCKETS
        invariant rest.Keys <= mapInfo.Keys && NewScan(S(), n, 0, rest) == NewScan(S(), 0, 0, mapNew)
      {
        for i := 0 to BUCKET_SIZE
          invariant rest.Keys <= mapInfo.Keys && NewScan(S(), n, i, rest) == NewScan(S(), 0, 0, mapNew)
        {
          code, rest := CheckNewSlot(n, i, rest);
          if code != 0 { return; }
        }
      }
      return 0, rest;
    }

    method CheckNewSlot(n: int, i: int, mapNew: map<int, int>) returns (code: int, rest: map<int, int>)
      requires Shaped() && Inside(vvNew, Slot(n, i)) && mapNew.Keys <= mapInfo.Keys
      ensures Scan(code, rest) == NewOne(S(), Slot(n, i), mapNew) && rest.Keys <= mapNew.Keys
    {
      var id := vvNew[n, i];
      if id == -1 { return 0, mapNew; }
      assert InSlot(S().vvNew, Slot(n, i), id);
      if id !in mapNew { return -12, mapNew; }
      if NewSlotIn(h, nKey, mapInfo[id].service, n).pos != i { return -19, mapNew; }
      rest := mapNew[id := mapNew[id] - 1];
      if rest[id] == 0 {
        rest := rest - {id};
        assert rest == mapNew - {id};
      }
      return 0, rest;
    }

    /** The ids whose addresses GetAddr_ returns. */
    method GetAddr(rnd: nat -> nat, now: int) returns (out: seq<int>)
      requires Shaped() && Ordered(mapInfo, vRandom)
      modifies this`mapInfo, this`vRandom
      ensures S() == AddrMan.GetAddr(old(S()), rnd, now).state
      ensures out == AddrMan.GetAddr(old(S()), rnd, now).out
    {
      ghost var s := S();
      var nNodes := 23 * |vRandom| / 100;
      if nNodes > 2500 { nNodes := 2500; }
      out := [];
      var n := 0;
      while n < |vRandom| && |out| < nNodes
        invariant 0 <= n <= |vRandom| && Ordered(mapInfo, vRandom)
        invariant GetAddrFrom(S(), n, out, nNodes, rnd, now) == AddrMan.GetAddr(s, rnd, now)
        decreases |vRandom| - n
      {
        DrawReorders(S(), n, rnd(n));
        DrawAt(n, rnd(n));
        if !IsTerrible(mapInfo[vRandom[n]], now) {
          out := out + [vRandom[n]];
        }
        n := n + 1;
      }
    }
  }

  function Rotate(n: nat, nRnd: nat): int { (n + nRnd) % NEW_BUCKETS }

  ghost predicate OwnBucket(s: State, id: int, b: int)
    requires id in s.mapInfo
  {
    InSlot(s.vvNew, NewSlotIn(s.h, s.nKey, s.mapInfo[id].service, b), id)
  }

  lemma NoOwnSlots(s: State, id: int)
    requires id in s.mapInfo && forall b | 0 <= b < NEW_BUCKETS :: !OwnBucket(s, id, b)
    ensures OwnSlots(s, id) == {}
  {
    forall t | t in OwnSlots(s, id) ensures false {
      var b :| 0 <= b < NEW_BUCKETS && InSlot(s.vvNew, NewSlotIn(s.h, s.nKey, s.mapInfo[id].service, b), id);
      assert OwnBucket(s, id, b);
    }
  }

  /** Every bucket is visited, whatever the starting point. */
  lemma RotateCovers(b: int, nRnd: nat)
    requires 0 <= b < NEW_BUCKETS
    ensures exists k: nat | k < NEW_BUCKETS :: Rotate(k, nRnd) == b
  {
    var r := nRnd % NEW_BUCKETS;
    var k: nat := if b >= r then b - r else b - r + NEW_BUCKETS;
    assert Rotate(k, nRnd) == b;
  }

  /** The slots of id in the buckets before b. */
  ghost function OwnBelow(s: State, id: int, b: int): set<Slot>
    requires id in s.mapInfo
  {
    set k | 0 <= k < b && InSlot(s.vvNew, NewSlotIn(s.h, s.nKey, s.mapInfo[id].service, k), id)
      :: NewSlotIn(s.h, s.nKey, s.mapInfo[id].service, k)
  }

  ghost function RemoveOwn(s: State, id: int, b: int): State
    requires id in s.mapInfo
  {
    RemoveSlots(s, id, OwnBelow(s, id, b))
  }

  ghost function RemoveSlots(s: State, id: int, own: set<Slot>): State
    requires id in s.mapInfo
  {
    s.(vvNew := s.vvNew - own, mapInfo := s.mapInfo[id := s.mapInfo[id].(nRefCount := s.mapInfo[id].nRefCount - |own|)])
  }

  lemma OwnStep(s: State, id: int, b: int)
    requires id in s.mapInfo && 0 <= b
    ensures var t := NewSlotIn(s.h, s.nKey, s.mapInfo[id].service, b);
            && t !in OwnBelow(s, id, b)
            && OwnBelow(s, id, b + 1) == (if InSlot(s.vvNew, t, id) then OwnBelow(s, id, b) + {t} else OwnBelow(s, id, b))
  {
    var t := NewSlotIn(s.h, s.nKey, s.mapInfo[id].service, b);
    forall u | u in OwnBelow(s, id, b) ensures u.bucket < b {}
    assert OwnBelow(s, id, b + 1) == if InSlot(s.vvNew, t, id) then OwnBelow(s, id, b) + {t} else OwnBelow(s, id, b);
  }

  lemma UnlistIs(s: State, id: int)
    requires id in s.mapInfo
    ensures AddrMan.Unlist(s, id) == RemoveOwn(s, id, NEW_BUCKETS).(nNew := s.nNew - 1)
  {
    assert OwnBelow(s, id, NEW_BUCKETS) == OwnSlots(s, id);
  }

  lemma NothingRemoved(s: State, id: int)
    requires id in s.mapInfo
    ensures RemoveOwn(s, id, 0) == s
  {
    assert OwnBelow(s, id, 0) == {};
    assert s.vvNew - {} == s.vvNew;
    assert s.mapInfo[id := s.mapInfo[id]] == s.mapInfo;
  }

  lemma RemoveStep(s: State, id: int, b: int)
    requires id in s.mapInfo && 0 <= b
    ensures var r, t := RemoveOwn(s, id, b), NewSlotIn(s.h, s.nKey, s.mapInfo[id].service, b);
            RemoveOwn(s, id, b + 1) ==
              if InSlot(r.vvNew, t, id)
              then r.(vvNew := r.vvNew - {t},
                      mapInfo := r.mapInfo[id := r.mapInfo[id].(nRefCount := r.mapInfo[id].nRefCount - 1)])
              else r
  {
    OwnStep(s, id, b);
    RemoveOne(s, id, OwnBelow(s, id, b), NewSlotIn(s.h, s.nKey, s.mapInfo[id].service, b));
  }

  lemma RemoveOne(s: State, id: int, own: set<Slot>, t: Slot)
    requires id in s.mapInfo && t !in own
    ensures var r := RemoveSlots(s, id, own);
            && (InSlot(r.vvNew, t, id) <==> InSlot(s.vvNew, t, id))
            && RemoveSlots(s, id, own + {t})
               == r.(vvNew := r.vvNew - {t},
                     mapInfo := r.mapInfo[id := r.mapInfo[id].(nRefCount := r.mapInfo[id].nRefCount - 1)])
  {
    var r := RemoveSlots(s, id, own);
    assert s.vvNew - (own + {t}) == r.vvNew - {t};
    assert |own + {t}| == |own| + 1;
    var i := s.mapInfo[id];
    assert r.mapInfo[id := i.(nRefCount := i.nRefCount - |own| - 1)] == RemoveSlots(s, id, own + {t}).mapInfo;
  }

  /** The occupied slots of a bucket array. */
  ghost function Contents(a: array2<int>): Table
    reads a
  {
    map b, p | 0 <= b < a.Length0 && 0 <= p < a.Length1 && a[b, p] != -1 :: Slot(b, p) := a[b, p]
  }

  lemma ContentsFit(a: array2<int>, buckets: nat)
    requires a.Length0 == buckets && a.Length1 == BUCKET_SIZE
    ensures Fits(Contents(a), buckets)
  {}

  predicate Inside(a: array2<int>, t: Slot) { 0 <= t.bucket < a.Length0 && 0 <= t.pos < a.Length1 }

  method PutSlot(a: array2<int>, t: Slot, id: int)
    requires Inside(a, t)
    modifies a
    ensures Contents(a) == if id == -1 then old(Contents(a)) - {t} else old(Contents(a))[t := id]
  {
    a[t.bucket, t.pos] := id;
  }
}
