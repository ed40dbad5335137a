/**
 * The stack of write-back caches over the coin database: CCoinsViewCache and
 * CCoinsModifier of src/coins.cpp, CCoinsViewDB of src/txdb.cpp.
 */
module CoinsCache {
  import opened Coins
  import opened Wrappers

  type Txid = nat
  type Hash = nat

  const NULL_HASH: Hash := 0

  /** CCoinsCacheEntry with its two flag bits. */
  datatype Entry = Entry(coins: Coins, isDirty: bool, isFresh: bool)

  /** The view below has nothing unspent for a txid. */
  predicate Gone(below: Option<Coins>) { below.None? || IsPruned(below.value) }

  /** What the flags promise about the view below. */
  predicate EntryOk(e: Entry, below: Option<Coins>) {
    && (!e.isDirty ==> below == Some(e.coins))
    && (e.isFresh ==> Gone(below))
  }

  function LookIn(ours: map<Txid, Entry>, k: Txid, below: Option<Coins>): Option<Coins> {
    if k in ours then Some(ours[k].coins) else below
  }

  /** One iteration of the loop of BatchWrite: entry e of the child goes into our map. */
  function Absorb(ours: map<Txid, Entry>, k: Txid, e: Entry): map<Txid, Entry> {
    if !e.isDirty then ours
    else if k !in ours then
      if e.isFresh && IsPruned(e.coins) then ours else ours[k := Entry(e.coins, true, e.isFresh)]
    else if ours[k].isFresh && IsPruned(e.coins) then ours - {k}
    else ours[k := ours[k].(coins := e.coins, isDirty := true)]
  }

  /** Absorbing a child's entry keeps the flags truthful and makes the child's value ours. */
  lemma AbsorbIsCoherent(ours: map<Txid, Entry>, k: Txid, e: Entry, below: Option<Coins>)
    requires k in ours ==> EntryOk(ours[k], below)
    requires EntryOk(e, LookIn(ours, k, below))
    ensures var ours' := Absorb(ours, k, e);
            && (k in ours' ==> EntryOk(ours'[k], below))
            && CanonOf(LookIn(ours', k, below)) == Canon(e.coins)
            && (forall x | x != k :: (x in ours' <==> x in ours) && (x in ours ==> ours'[x] == ours[x]))
  {}

  // ----- memory accounting -----

  /** Sum of the memory used by all entries. */
  ghost function Total(m: map<Txid, Entry>, usage: Coins -> nat): nat
    decreases |m|
  {
    if m == map[] then 0
    else
      var k :| k in m;
      usage(m[k].coins) + Total(m - {k}, usage)
  }

  lemma {:induction false} TotalSplit(m: map<Txid, Entry>, k: Txid, usage: Coins -> nat)
    requires k in m
    ensures Total(m, usage) == usage(m[k].coins) + Total(m - {k}, usage)
    decreases |m|
  {
    var j :| j in m && Total(m, usage) == usage(m[j].coins) + Total(m - {j}, usage);
    if j != k {
      TotalSplit(m - {j}, k, usage);
      TotalSplit(m - {k}, j, usage);
      assert m - {j} - {k} == m - {k} - {j};
    }
  }

  lemma TotalPut(m: map<Txid, Entry>, k: Txid, e: Entry, usage: Coins -> nat)
    ensures Total(m[k := e], usage) == usage(e.coins) + Total(m - {k}, usage)
  {
    TotalSplit(m[k := e], k, usage);
    assert m[k := e] - {k} == m - {k};
  }

  lemma TotalWithout(m: map<Txid, Entry>, k: Txid, usage: Coins -> nat)
    requires k !in m
    ensures Total(m - {k}, usage) == Total(m, usage)
  {
    assert m - {k} == m;
  }

  /** The entries that cachedCoinsUsage covers: all but the one being modified. */
  ghost function Settled(m: map<Txid, Entry>, hasModifier: bool, modifying: Txid): map<Txid, Entry> {
    if hasModifier then m - {modifying} else m
  }

  lemma SettledInsert(m: map<Txid, Entry>, hasModifier: bool, modifying: Txid, k: Txid, e: Entry, usage: Coins -> nat)
    requires k !in m && (hasModifier ==> modifying in m)
    ensures Total(Settled(m[k := e], hasModifier, modifying), usage)
         == Total(Settled(m, hasModifier, modifying), usage) + usage(e.coins)
  {
    var rest := Settled(m, hasModifier, modifying);
    assert Settled(m[k := e], hasModifier, modifying) == rest[k := e];
    TotalPut(rest, k, e, usage);
    TotalWithout(rest, k, usage);
  }

  lemma SettledRemove(m: map<Txid, Entry>, hasModifier: bool, modifying: Txid, k: Txid, usage: Coins -> nat)
    requires k in m && (hasModifier ==> modifying != k)
    ensures Total(Settled(m - {k}, hasModifier, modifying), usage)
         == Total(Settled(m, hasModifier, modifying), usage) - usage(m[k].coins)
  {
    var rest := Settled(m, hasModifier, modifying);
    assert Settled(m - {k}, hasModifier, modifying) == rest - {k};
    TotalSplit(rest, k, usage);
  }

  function UsageOf(m: map<Txid, Entry>, k: Txid, usage: Coins -> nat): nat {
    if k in m then usage(m[k].coins) else 0
  }

  lemma AbsorbTotal(ours: map<Txid, Entry>, k: Txid, e: Entry, usage: Coins -> nat)
    ensures var ours' := Absorb(ours, k, e);
            Total(ours', usage) == Total(ours, usage) - UsageOf(ours, k, usage) + UsageOf(ours', k, usage)
  {
    var ours' := Absorb(ours, k, e);
    assert ours' - {k} == ours - {k};
    OpenEntry(ours, k, e, usage);
    OpenEntry(ours', k, e, usage);
  }

  /** Opening an entry for modification leaves the rest of the map to be counted. */
  lemma OpenEntry(m: map<Txid, Entry>, k: Txid, e: Entry, usage: Coins -> nat)
    ensures Settled(m[k := e], true, k) == m - {k}
    ensures Total(m, usage) == Total(m - {k}, usage) + UsageOf(m, k, usage)
  {
    if k in m { TotalSplit(m, k, usage); } else { TotalWithout(m, k, usage); }
  }

  /** What the end of a modification leaves in the map, given the cleaned-up coins. */
  function Close(m: map<Txid, Entry>, k: Txid, coins: Coins): map<Txid, Entry>
    requires k in m
  {
    if m[k].isFresh && IsPruned(coins) then m - {k} else m[k := m[k].(coins := coins)]
  }

  lemma CloseEntry(m: map<Txid, Entry>, k: Txid, coins: Coins, below: Option<Coins>, usage: Coins -> nat)
    requires k in m && m[k].isDirty && EntryOk(m[k], below) && coins == Cleanup(m[k].coins)
    ensures var m' := Close(m, k, coins);
            && Total(m', usage) == Total(m - {k}, usage) + (if k in m' then usage(coins) else 0)
            && (k in m' ==> EntryOk(m'[k], below))
            && CanonOf(LookIn(m', k, below)) == Canon(m[k].coins)
  {
    CleanupCanon(m[k].coins);
    TotalPut(m, k, m[k].(coins := coins), usage);
  }

  // ----- the bottom of the stack -----

  function Stored(coins: map<Txid, Coins>, x: Txid): Option<Coins> {
    if x in coins then Some(coins[x]) else None
  }

  /** What the batch does with one entry. */
  function Store(coins: map<Txid, Coins>, k: Txid, e: Entry): map<Txid, Coins> {
    if !e.isDirty then coins
    else if IsPruned(e.coins) then coins - {k}
    else coins[k := e.coins]
  }

  lemma StoreEffect(coins: map<Txid, Coins>, k: Txid, e: Entry, x: Txid)
    ensures CanonOf(Stored(Store(coins, k, e), x)) ==
            if x == k && e.isDirty then Canon(e.coins) else CanonOf(Stored(coins, x))
  {}

  /** CCoinsViewDB: what the database holds. */
  class CoinsDB {
    var coins: map<Txid, Coins>
    var best: Hash

    constructor ()
      ensures coins == map[] && best == NULL_HASH
    {
      coins := map[];
      best := NULL_HASH;
    }

    ghost function Look(txid: Txid): Option<Coins>
      reads this
    {
      Stored(coins, txid)
    }

    /** Every dirty entry is written, or erased when it is fully spent. */
    method BatchWrite(mapCoins: map<Txid, Entry>, hashBlock: Hash)
      modifies this
      ensures forall x: Txid :: CanonOf(Look(x)) ==
                if x in mapCoins && mapCoins[x].isDirty then Canon(mapCoins[x].coins) else CanonOf(old(Look(x)))
      ensures best == if hashBlock == NULL_HASH then old(best) else hashBlock
    {
      var todo := mapCoins;
      while todo != map[]
        invariant todo.Keys <= mapCoins.Keys && forall x | x in todo :: todo[x] == mapCoins[x]
        invariant forall x: Txid :: CanonOf(Stored(coins, x)) ==
                    if x in mapCoins && x !in todo && mapCoins[x].isDirty then Canon(mapCoins[x].coins)
                    else CanonOf(Stored(old(coins), x))
        invariant best == old(best)
        decreases |todo|
      {
        var k :| k in todo;
        ghost var before := coins;
        coins := Store(coins, k, todo[k]);
        forall x: Txid { StoreEffect(before, k, todo[k], x); }
        todo := todo - {k};
      }
      if hashBlock != NULL_HASH {
        best := hashBlock;
      }
    }
  }

  /**
   * CCoinsViewCache.  base is the cache below, or null for the cache that sits on the database.
   * modifying and held describe the live CCoinsModifier; leaked is memory that cachedCoinsUsage
   * counts although no entry uses it any more.
   */
  class CoinsViewCache {
    var cacheCoins: map<Txid, Entry>
    var hashBlock: Hash
    var hasModifier: bool
    var cachedCoinsUsage: int
    const base: CoinsViewCache?
    const db: CoinsDB
    const usage: Coins -> nat
    ghost const Repr: set<object>
    ghost var modifying: Txid
    ghost var held: nat
    ghost var leaked: nat

    ghost function Below(): set<object> {
      if base == null then {db} else base.Repr
    }

    /** The chain of bases is finite and ends at db. */
    ghost predicate Linked()
      decreases Repr
    {
      && Repr == {this} + Below()
      && db in Below()
      && this !in Below()
      && (base != null ==> base in base.Repr && base.db == db && base.usage == usage && base.Repr < Repr && base.Linked())
    }

    /** What this view returns from GetCoins. */
    ghost function Look(txid: Txid): Option<Coins>
      requires Linked()
      reads Repr
      decreases Repr
    {
      if txid in cacheCoins then Some(cacheCoins[txid].coins)
      else if base == null then db.Look(txid)
      else base.Look(txid)
    }

    /** What the view below returns from GetCoins. */
    ghost function BaseLook(txid: Txid): Option<Coins>
      requires Linked()
      reads Below()
    {
      if base == null then db.Look(txid) else base.Look(txid)
    }

    /** The coins of a txid as this view presents them: spent and unknown are the same. */
    ghost function View(txid: Txid): Coins
      requires Linked()
      reads Repr
    {
      CanonOf(Look(txid))
    }

    ghost function BaseView(txid: Txid): Coins
      requires Linked()
      reads Below()
    {
      CanonOf(BaseLook(txid))
    }

    /** The block this view claims to represent. */
    ghost function Best(): Hash
      requires Linked()
      reads Repr
      decreases Repr
    {
      if hashBlock != NULL_HASH then hashBlock
      else if base == null then db.best
      else base.Best()
    }

    ghost function BaseBest(): Hash
      requires Linked()
      reads Below()
    {
      if base == null then db.best else base.Best()
    }

    ghost predicate BaseLocked()
      requires Linked()
      reads Below()
    {
      base != null && base.hasModifier
    }

    ghost predicate Coherent()
      requires Linked()
      reads Repr
    {
      forall x | x in cacheCoins :: EntryOk(cacheCoins[x], BaseLook(x))
    }

    ghost predicate Accounted()
      reads this
    {
      && (hasModifier ==> modifying in cacheCoins && cacheCoins[modifying].isDirty)
      && cachedCoinsUsage == Total(Settled(cacheCoins, hasModifier, modifying), usage)
                             + (if hasModifier then held else 0) + leaked
    }

    ghost predicate Valid()
      reads Repr
      decreases Repr
    {
      && Linked()
      && Coherent()
      && Accounted()
      && (base != null ==> base.Valid())
    }

    constructor OnCache(b: CoinsViewCache)
      requires b.Valid()
      ensures Valid() && !hasModifier && leaked == 0 && base == b && hashBlock == NULL_HASH
      ensures forall x: Txid :: Look(x) == b.Look(x)
      ensures Best() == b.Best()
    {
      cacheCoins := map[];
      hashBlock := NULL_HASH;
      hasModifier := false;
      cachedCoinsUsage := 0;
      base := b;
      db := b.db;
      usage := b.usage;
      Repr := {this} + b.Repr;
      leaked := 0;
      new;
      assert forall x: Txid :: Look(x) == BaseLook(x) == b.Look(x);
    }

    constructor OnDB(d: CoinsDB, usage: Coins -> nat)
      ensures Valid() && !hasModifier && leaked == 0 && base == null && db == d && this.usage == usage && Repr == {this, d}
      ensures forall x: Txid :: Look(x) == d.Look(x)
      ensures Best() == d.best
    {
      cacheCoins := map[];
      hashBlock := NULL_HASH;
      hasModifier := false;
      cachedCoinsUsage := 0;
      base := null;
      db := d;
      this.usage := usage;
      Repr := {this} + {d};
      leaked := 0;
      new;
      assert forall x: Txid :: Look(x) == BaseLook(x) == d.Look(x);
    }

    /** Nothing a caller can observe through this view has changed. */
    twostate predicate SameView()
      requires Linked()
      reads Repr
    {
      && (forall x: Txid :: Look(x) == old(Look(x)))
      && Best() == old(Best())
    }

    twostate predicate SameModifier()
      reads this
    {
      hasModifier == old(hasModifier) && modifying == old(modifying) && held == old(held) && leaked == old(leaked)
    }

    /** The effect on the view of changing nothing but the entry of k. */
    twostate lemma OnlyEntryChanged(k: Txid)
      requires old(Valid()) && Linked() && unchanged(Below())
      requires forall x | x != k :: x in cacheCoins <==> x in old(cacheCoins)
      requires forall x | x in cacheCoins && x != k :: cacheCoins[x] == old(cacheCoins)[x]
      requires k in cacheCoins ==> EntryOk(cacheCoins[k], BaseLook(k))
      ensures forall x: Txid :: BaseLook(x) == old(BaseLook(x))
      ensures forall x: Txid | x != k :: Look(x) == old(Look(x))
      ensures Look(k) == LookIn(cacheCoins, k, BaseLook(k))
      ensures Coherent() && (base != null ==> base.Valid())
      ensures hashBlock == old(hashBlock) ==> Best() == old(Best())
    {
      assert forall x: Txid :: BaseLook(x) == old(BaseLook(x));
    }

    /** No view changes when the one entry that changes means the same. */
    twostate lemma SameViewAfter(k: Txid)
      requires old(Valid()) && Linked() && unchanged(Below()) && hashBlock == old(hashBlock)
      requires forall x | x != k :: x in cacheCoins <==> x in old(cacheCoins)
      requires forall x | x in cacheCoins && x != k :: cacheCoins[x] == old(cacheCoins)[x]
      requires k in cacheCoins ==> EntryOk(cacheCoins[k], old(BaseLook(k)))
      requires CanonOf(LookIn(cacheCoins, k, old(BaseLook(k)))) == old(View(k))
      ensures Coherent() && (base != null ==> base.Valid())
      ensures forall x: Txid :: View(x) == old(View(x))
      ensures Best() == old(Best())
    {
      assert BaseLook(k) == old(BaseLook(k));
      OnlyEntryChanged(k);
    }

    /** base->GetCoins: reading may fill every cache below, but changes no view. */
    method BaseGetCoins(txid: Txid) returns (r: Option<Coins>)
      requires Valid()
      modifies Below()
      ensures base != null ==> base.Valid() && base.SameView() && base.SameModifier()
      ensures base == null ==> unchanged(db)
      ensures r == BaseLook(txid)
      decreases Repr, 0
    {
      if base == null {
        r := if txid in db.coins then Some(db.coins[txid]) else None;
      } else {
        r := base.GetCoins(txid);
      }
    }

    /** A read through the bases keeps this cache coherent and its view the same. */
    twostate lemma BaseReadKeeps()
      requires old(Valid()) && unchanged(this)
      requires base != null ==> base.Valid() && base.SameView() && base.SameModifier()
      requires base == null ==> unchanged(db)
      ensures Valid() && SameView() && SameModifier()
      ensures forall x: Txid :: BaseLook(x) == old(BaseLook(x))
      ensures BaseBest() == old(BaseBest()) && BaseLocked() == old(BaseLocked())
    {
      assert forall x: Txid :: BaseLook(x) == old(BaseLook(x));
      assert Best() == if hashBlock != NULL_HASH then hashBlock else BaseBest();
      assert old(Best()) == if hashBlock != NULL_HASH then hashBlock else old(BaseBest());
    }

    method FetchCoins(txid: Txid) returns (found: bool)
      requires Valid()
      modifies Repr
      ensures Valid() && SameView() && SameModifier()
      ensures BaseLocked() == old(BaseLocked()) && forall x: Txid :: BaseLook(x) == old(BaseLook(x))
      ensures found <==> txid in cacheCoins
      ensures found <==> Look(txid).Some?
      decreases Repr, 1
    {
      if txid in cacheCoins {
        return true;
      }
      var tmp := BaseGetCoins(txid);
      BaseReadKeeps();
      if tmp.None? {
        return false;
      }
      CacheEntry(txid, tmp.value);
      return true;
    }

    /** Keep a copy of what the base has. */
    method CacheEntry(txid: Txid, coins: Coins)
      requires Valid() && txid !in cacheCoins && BaseLook(txid) == Some(coins)
      modifies this
      ensures Valid() && SameView() && SameModifier() && hashBlock == old(hashBlock)
      ensures cacheCoins == old(cacheCoins)[txid := Entry(coins, false, IsPruned(coins))]
    {
      var e := Entry(coins, false, IsPruned(coins));
      SettledInsert(cacheCoins, hasModifier, modifying, txid, e, usage);
      cacheCoins := cacheCoins[txid := e];
      cachedCoinsUsage := cachedCoinsUsage + usage(coins);
      OnlyEntryChanged(txid);
    }

    method GetCoins(txid: Txid) returns (r: Option<Coins>)
      requires Valid()
      modifies Repr
      ensures Valid() && SameView() && SameModifier()
      ensures BaseLocked() == old(BaseLocked()) && forall x: Txid :: BaseLook(x) == old(BaseLook(x))
      ensures r == Look(txid)
      decreases Repr, 2
    {
      var found := FetchCoins(txid);
      r := if found then Some(cacheCoins[txid].coins) else None;
    }

    method BaseGetBestBlock() returns (h: Hash)
      requires Valid()
      modifies Below()
      ensures base != null ==> base.Valid() && base.SameView() && base.SameModifier()
      ensures base == null ==> unchanged(db)
      ensures h == BaseBest()
      decreases Repr, 0
    {
      if base == null {
        h := db.best;
      } else {
        h := base.GetBestBlock();
      }
    }

    method GetBestBlock() returns (h: Hash)
      requires Valid()
      modifies Repr
      ensures Valid() && SameView() && SameModifier()
      ensures h == Best()
      decreases Repr, 1
    {
      if hashBlock == NULL_HASH {
        h := BaseGetBestBlock();
        BaseReadKeeps();
        hashBlock := h;
        assert forall x: Txid :: BaseLook(x) == old(BaseLook(x));
        assert forall x: Txid :: Look(x) == old(Look(x));
      } else {
        h := hashBlock;
      }
    }

    method SetBestBlock(h: Hash)
      requires Valid()
      modifies this`hashBlock
      ensures Valid() && SameModifier()
      ensures hashBlock == h && Best() == (if h == NULL_HASH then BaseBest() else h)
      ensures forall x: Txid :: Look(x) == old(Look(x))
    {
      hashBlock := h;
      assert forall x: Txid :: BaseLook(x) == old(BaseLook(x));
    }

    /** Only an entry that repeats its base may be dropped, so the view stays. */
    method Uncache(txid: Txid)
      requires Valid()
      modifies this
      ensures Valid() && SameView() && SameModifier()
      ensures txid in cacheCoins ==> cacheCoins[txid].isDirty || cacheCoins[txid].isFresh
    {
      if txid in cacheCoins && !cacheCoins[txid].isDirty && !cacheCoins[txid].isFresh {
        SettledRemove(cacheCoins, hasModifier, modifying, txid, usage);
        cachedCoinsUsage := cachedCoinsUsage - usage(cacheCoins[txid].coins);
        cacheCoins := cacheCoins - {txid};
        OnlyEntryChanged(txid);
      }
    }

    /** Register a modifier for txid whose entry is now e; covered is the usage already counted for it. */
    method StartModifying(txid: Txid, e: Entry, covered: nat) returns (m: CoinsModifier)
      requires Valid() && !hasModifier
      requires e.isDirty && EntryOk(e, BaseLook(txid))
      requires covered <= UsageOf(cacheCoins, txid, usage)
      modifies this
      ensures Valid() && hasModifier && modifying == txid && m.cache == this && m.txid == txid
      ensures m.cachedCoinUsage == held == covered && hashBlock == old(hashBlock)
      ensures leaked == old(leaked) + UsageOf(old(cacheCoins), txid, usage) - covered
      ensures cacheCoins == old(cacheCoins)[txid := e]
      ensures forall x: Txid :: BaseLook(x) == old(BaseLook(x))
      ensures forall x: Txid :: View(x) == if x == txid then Canon(e.coins) else old(View(x))
      ensures Best() == old(Best()) && BaseLocked() == old(BaseLocked())
    {
      m := new CoinsModifier(this, txid, covered);
      OpenEntry(cacheCoins, txid, e, usage);
      leaked := leaked + UsageOf(cacheCoins, txid, usage) - covered;
      cacheCoins := cacheCoins[txid := e];
      modifying, held, hasModifier := txid, covered, true;
      OnlyEntryChanged(txid);
    }

    /** The end of a modification: the entry has the coins given, or is gone. */
    method StopModifying(txid: Txid, coins: Coins, covered: nat)
      requires Valid() && hasModifier && modifying == txid && held == covered && coins == Cleanup(cacheCoins[txid].coins)
      modifies this
      ensures Valid() && !hasModifier && leaked == old(leaked) && cacheCoins == Close(old(cacheCoins), txid, coins)
      ensures forall x: Txid :: View(x) == old(View(x))
      ensures Best() == old(Best())
    {
      CloseEntry(cacheCoins, txid, coins, BaseLook(txid), usage);
      hasModifier := false;
      cachedCoinsUsage := cachedCoinsUsage - covered;
      cacheCoins := Close(cacheCoins, txid, coins);
      cachedCoinsUsage := cachedCoinsUsage + if txid in cacheCoins then usage(coins) else 0;
      SameViewAfter(txid);
    }

    method ModifyCoins(txid: Txid) returns (m: CoinsModifier)
      requires Valid() && !hasModifier
      modifies Repr
      ensures Valid() && hasModifier && modifying == txid && m.cache == this && m.txid == txid
      ensures m.cachedCoinUsage == held && leaked == old(leaked)
      ensures forall x: Txid :: View(x) == old(View(x))
      ensures forall x: Txid :: BaseLook(x) == old(BaseLook(x))
      ensures Best() == old(Best()) && BaseLocked() == old(BaseLocked())
    {
      var e, covered := EntryToModify(txid);
      m := StartModifying(txid, e, covered);
    }

    /** The entry that a modification of txid starts from, and the memory already counted for it. */
    method EntryToModify(txid: Txid) returns (e: Entry, covered: nat)
      requires Valid()
      modifies Below()
      ensures Valid() && SameView() && SameModifier() && unchanged(this)
      ensures forall x: Txid :: BaseLook(x) == old(BaseLook(x))
      ensures BaseLocked() == old(BaseLocked())
      ensures e.isDirty && EntryOk(e, BaseLook(txid)) && View(txid) == Canon(e.coins)
      ensures covered == UsageOf(cacheCoins, txid, usage)
    {
      if txid in cacheCoins {
        return cacheCoins[txid].(isDirty := true), usage(cacheCoins[txid].coins);
      }
      var below := BaseGetCoins(txid);
      BaseReadKeeps();
      covered := 0;
      e := if below.Some? then Entry(below.value, true, IsPruned(below.value)) else Entry(EMPTY, true, true);
    }

    /**
     * For a transaction that is not a coinbase the caller promises that the base has nothing
     * unspent for it.  The memory of an entry that already existed stays counted.
     */
    method ModifyNewCoins(txid: Txid, coinbase: bool) returns (m: CoinsModifier)
      requires Valid() && !hasModifier
      requires coinbase || Gone(BaseLook(txid))
      modifies this
      ensures Valid() && hasModifier && modifying == txid && m.cache == this && m.txid == txid
      ensures m.cachedCoinUsage == held && hashBlock == old(hashBlock)
      ensures leaked == old(leaked) + UsageOf(old(cacheCoins), txid, usage)
      ensures forall x: Txid :: View(x) == if x == txid then EMPTY else old(View(x))
      ensures forall x: Txid :: BaseLook(x) == old(BaseLook(x))
    {
      var isFresh := !coinbase || (txid in cacheCoins && cacheCoins[txid].isFresh);
      m := StartModifying(txid, Entry(EMPTY, true, isFresh), 0);
    }

    /** One entry of a child goes into this cache. */
    method WriteEntry(k: Txid, e: Entry)
      requires Valid() && !hasModifier && EntryOk(e, Look(k))
      modifies this
      ensures Valid() && SameModifier() && hashBlock == old(hashBlock)
      ensures forall x: Txid | x != k :: Look(x) == old(Look(x))
      ensures View(k) == Canon(e.coins)
    {
      AbsorbIsCoherent(cacheCoins, k, e, BaseLook(k));
      AbsorbTotal(cacheCoins, k, e, usage);
      cachedCoinsUsage := cachedCoinsUsage - UsageOf(cacheCoins, k, usage);
      cacheCoins := Absorb(cacheCoins, k, e);
      cachedCoinsUsage := cachedCoinsUsage + UsageOf(cacheCoins, k, usage);
      OnlyEntryChanged(k);
    }

    /** Take over the entries of a child cache whose flags are truthful about this view. */
    method WriteEntries(mapCoins: map<Txid, Entry>)
      requires Valid() && !hasModifier
      requires forall x | x in mapCoins :: EntryOk(mapCoins[x], Look(x))
      modifies this
      ensures Valid() && SameModifier()
      ensures forall x: Txid :: View(x) == if x in mapCoins then Canon(mapCoins[x].coins) else old(View(x))
    {
      var todo := mapCoins;
      while todo != map[]
        invariant todo.Keys <= mapCoins.Keys && forall x | x in todo :: todo[x] == mapCoins[x]
        invariant Valid() && SameModifier()
        invariant forall x: Txid | x !in mapCoins || x in todo :: Look(x) == old(Look(x))
        invariant forall x: Txid | x in mapCoins && x !in todo :: View(x) == Canon(mapCoins[x].coins)
        decreases |todo|
      {
        var k :| k in todo;
        WriteEntry(k, todo[k]);
        todo := todo - {k};
      }
    }

    method BatchWrite(mapCoins: map<Txid, Entry>, hashBlockIn: Hash)
      requires Valid() && !hasModifier
      requires forall x | x in mapCoins :: EntryOk(mapCoins[x], Look(x))
      modifies this
      ensures Valid() && SameModifier()
      ensures forall x: Txid :: View(x) == if x in mapCoins then Canon(mapCoins[x].coins) else old(View(x))
      ensures hashBlock == hashBlockIn
    {
      WriteEntries(mapCoins);
      SetBestBlock(hashBlockIn);
    }

    /** After a batch write of all entries the base's new view is what this view was. */
    twostate lemma Pushed()
      requires Linked() && unchanged(this)
      requires forall x: Txid :: BaseView(x) == if x in cacheCoins then Canon(cacheCoins[x].coins) else old(BaseView(x))
      ensures forall x: Txid :: BaseView(x) == old(View(x))
    {
      assert forall x: Txid :: old(View(x)) == CanonOf(LookIn(cacheCoins, x, old(BaseLook(x))));
    }

    /** The base takes over all entries; this cache still holds them. */
    method PushToBase()
      requires Valid() && !hasModifier && !BaseLocked()
      modifies if base == null then {db as object} else {base as object}
      ensures base != null ==> base.Valid() && !base.hasModifier && base.hashBlock == hashBlock
      ensures forall x: Txid :: BaseView(x) == (if x in cacheCoins then Canon(cacheCoins[x].coins) else old(BaseView(x)))
      ensures base == null ==> BaseBest() == if hashBlock == NULL_HASH then old(BaseBest()) else hashBlock
      ensures base != null ==> BaseBest() == if hashBlock == NULL_HASH then old(base.BaseBest()) else hashBlock
    {
      if base == null {
        db.BatchWrite(cacheCoins, hashBlock);
      } else {
        base.BatchWrite(cacheCoins, hashBlock);
      }
    }

    /**
     * Push everything to the base.  The base's view becomes this view, and this view does not
     * change; no modification is lost and memory accounting is exact again.
     */
    method Flush()
      requires Valid() && !hasModifier && !BaseLocked()
      modifies this, if base == null then {db as object} else {base as object}
      ensures Valid() && !hasModifier && cacheCoins == map[] && leaked == 0 && cachedCoinsUsage == 0
      ensures forall x: Txid :: BaseView(x) == old(View(x))
      ensures forall x: Txid :: View(x) == old(View(x))
      ensures hashBlock == old(hashBlock) && !BaseLocked()
      ensures hashBlock != NULL_HASH ==> BaseBest() == hashBlock
      ensures hashBlock == NULL_HASH && base == null ==> BaseBest() == old(BaseBest())
      ensures hashBlock == NULL_HASH && base != null ==> BaseBest() == old(base.BaseBest())
    {
      PushToBase();
      Pushed();
      Clear();
    }

    /** The end of Flush: with the base up to date, nothing needs to be cached. */
    method Clear()
      requires Linked() && !hasModifier && (base != null ==> base.Valid())
      modifies this
      ensures Valid() && !hasModifier && cacheCoins == map[] && leaked == 0 && cachedCoinsUsage == 0
      ensures hashBlock == old(hashBlock) && unchanged(Below())
      ensures forall x: Txid :: View(x) == BaseView(x) == old(BaseView(x))
    {
      cacheCoins := map[];
      cachedCoinsUsage := 0;
      leaked := 0;
      assert forall x: Txid :: Look(x) == BaseLook(x) == old(BaseLook(x));
    }

    /** No cache of the stack has a live modifier. */
    ghost predicate Quiet()
      requires Linked()
      reads Repr
      decreases Repr
    {
      !hasModifier && (base != null ==> base.Quiet())
    }

    /** Flushing level by level brings the view of the top of the stack into the database. */
    method FlushAll()
      requires Valid() && Quiet()
      modifies Repr
      ensures Valid() && Quiet() && cacheCoins == map[]
      ensures forall x: Txid :: View(x) == old(View(x))
      ensures forall x: Txid :: CanonOf(db.Look(x)) == old(View(x))
      decreases Repr
    {
      Flush();
      if base != null {
        assert forall x: Txid :: base.View(x) == old(View(x));
        base.FlushAll();
        assert forall x: Txid :: Look(x) == base.Look(x);
        assert forall x: Txid :: base.View(x) == old(View(x));
      } else {
        assert forall x: Txid :: Look(x) == db.Look(x);
      }
    }

    /** This view and the view below it are the given plain maps. */
    ghost predicate Represents(p: Plain)
      requires Linked()
      reads Repr
    {
      && (forall x: Txid :: x in p.top && View(x) == p.top[x])
      && (forall x: Txid :: x in p.below && BaseView(x) == p.below[x])
    }
  }

  /** A reference to the entry of one txid, alive until Destroy. */
  class CoinsModifier {
    const cache: CoinsViewCache
    const txid: Txid
    const cachedCoinUsage: nat

    constructor (cache: CoinsViewCache, txid: Txid, cachedCoinUsage: nat)
      ensures this.cache == cache && this.txid == txid && this.cachedCoinUsage == cachedCoinUsage
    {
      this.cache, this.txid, this.cachedCoinUsage := cache, txid, cachedCoinUsage;
    }

    ghost predicate Live()
      reads cache
    {
      cache.hasModifier && cache.modifying == txid && cache.held == cachedCoinUsage
    }

    /** Any change the caller makes through operator-> or operator*. */
    method Assign(c: Coins)
      requires Live() && cache.Valid()
      modifies cache`cacheCoins
      ensures Live() && cache.Valid()
      ensures forall x: Txid :: cache.View(x) == if x == txid then Canon(c) else old(cache.View(x))
      ensures cache.Best() == old(cache.Best())
    {
      cache.cacheCoins := cache.cacheCoins[txid := cache.cacheCoins[txid].(coins := c)];
      assert cache.cacheCoins - {txid} == old(cache.cacheCoins) - {txid};
      cache.OnlyEntryChanged(txid);
    }

    /** ~CCoinsModifier. */
    method Destroy()
      requires Live() && cache.Valid()
      modifies cache
      ensures cache.Valid() && !cache.hasModifier && cache.leaked == old(cache.leaked)
      ensures forall x: Txid :: cache.View(x) == old(cache.View(x))
      ensures cache.Best() == old(cache.Best())
      ensures txid in cache.cacheCoins ==> !(cache.cacheCoins[txid].isFresh && IsPruned(cache.cacheCoins[txid].coins))
    {
      var coins := CleanupLoop(cache.cacheCoins[txid].coins);
      cache.StopModifying(txid, coins, cachedCoinUsage);
    }
  }

  // ----- whole runs -----

  /** The simple structure a cache stands for: total maps in which an unknown txid has EMPTY coins. */
  datatype Plain = Plain(top: imap<Txid, Coins>, below: imap<Txid, Coins>)

  datatype Op =
    | Read(txid: Txid)
    | Write(txid: Txid, coins: Coins)
    | WriteNew(txid: Txid, coinbase: bool, coins: Coins)
    | Drop(txid: Txid)
    | Push

  ghost predicate IsTotal(p: Plain) { forall x: Txid :: x in p.top && x in p.below }

  /** What one operation does to plain maps. */
  ghost function PlainStep(p: Plain, op: Op): (p': Plain)
    requires IsTotal(p)
    ensures IsTotal(p')
  {
    match op
    case Read(_) => p
    case Write(txid, coins) => p.(top := p.top[txid := Canon(coins)])
    case WriteNew(txid, _, coins) => p.(top := p.top[txid := Canon(coins)])
    case Drop(_) => p
    case Push => p.(below := p.top)
  }

  ghost function Replay(p: Plain, ops: seq<Op>): (p': Plain)
    requires IsTotal(p)
    ensures IsTotal(p')
  {
    if ops == [] then p else PlainStep(Replay(p, ops[..|ops| - 1]), ops[|ops| - 1])
  }

  /** The values the reads of a run return, from plain maps. */
  ghost function PlainReads(p: Plain, ops: seq<Op>): seq<Coins>
    requires IsTotal(p)
  {
    if ops == [] then []
    else
      var before := ops[..|ops| - 1];
      PlainReads(p, before) + if ops[|ops| - 1].Read? then [Replay(p, before).top[ops[|ops| - 1].txid]] else []
  }

  /** ModifyNewCoins for a transaction other than a coinbase is only used where the base has nothing unspent. */
  ghost predicate Legal(p: Plain, ops: seq<Op>)
    requires IsTotal(p)
  {
    forall i | 0 <= i < |ops| ::
      ops[i].WriteNew? && !ops[i].coinbase ==> Replay(p, ops[..i]).below[ops[i].txid] == EMPTY
  }

  lemma EmptyIsGone(o: Option<Coins>)
    ensures Gone(o) <==> CanonOf(o) == EMPTY
  {
    if o.Some? && !IsPruned(o.value) {
      Witness(o.value);
      CanonAvailable(o.value);
    }
  }

  /** One modification from the call that opens it to the destructor that closes it. */
  method WriteThrough(cache: CoinsViewCache, m: CoinsModifier, coins: Coins)
    requires cache.Valid() && m.cache == cache && m.Live()
    modifies cache
    ensures cache.Valid() && !cache.hasModifier
    ensures forall x: Txid :: cache.View(x) == if x == m.txid then Canon(coins) else old(cache.View(x))
    ensures forall x: Txid :: cache.BaseLook(x) == old(cache.BaseLook(x))
  {
    m.Assign(coins);
    m.Destroy();
  }

  method ApplyWrite(cache: CoinsViewCache, txid: Txid, coins: Coins, ghost p: Plain)
    requires cache.Valid() && !cache.hasModifier && !cache.BaseLocked()
    requires cache.Represents(p)
    modifies cache.Repr
    ensures cache.Valid() && !cache.hasModifier && !cache.BaseLocked()
    ensures cache.Represents(p.(top := p.top[txid := Canon(coins)]))
  {
    Rewrite(cache, txid, coins);
  }

  method Rewrite(cache: CoinsViewCache, txid: Txid, coins: Coins)
    requires cache.Valid() && !cache.hasModifier && !cache.BaseLocked()
    modifies cache.Repr
    ensures cache.Valid() && !cache.hasModifier && !cache.BaseLocked()
    ensures forall x: Txid :: cache.View(x) == if x == txid then Canon(coins) else old(cache.View(x))
    ensures forall x: Txid :: cache.BaseLook(x) == old(cache.BaseLook(x))
  {
    var m := cache.ModifyCoins(txid);
    WriteThrough(cache, m, coins);
  }

  method ApplyWriteNew(cache: CoinsViewCache, txid: Txid, coinbase: bool, coins: Coins, ghost p: Plain)
    requires cache.Valid() && !cache.hasModifier && !cache.BaseLocked()
    requires cache.Represents(p) && (coinbase || p.below[txid] == EMPTY)
    modifies cache.Repr
    ensures cache.Valid() && !cache.hasModifier && !cache.BaseLocked()
    ensures cache.Represents(p.(top := p.top[txid := Canon(coins)]))
  {
    EmptyIsGone(cache.BaseLook(txid));
    RewriteNew(cache, txid, coinbase, coins);
  }

  method RewriteNew(cache: CoinsViewCache, txid: Txid, coinbase: bool, coins: Coins)
    requires cache.Valid() && !cache.hasModifier && !cache.BaseLocked() && (coinbase || Gone(cache.BaseLook(txid)))
    modifies cache
    ensures cache.Valid() && !cache.hasModifier && !cache.BaseLocked()
    ensures forall x: Txid :: cache.View(x) == if x == txid then Canon(coins) else old(cache.View(x))
    ensures forall x: Txid :: cache.BaseLook(x) == old(cache.BaseLook(x))
  {
    var m := cache.ModifyNewCoins(txid, coinbase);
    WriteThrough(cache, m, coins);
  }

  method Apply(cache: CoinsViewCache, op: Op, ghost p: Plain) returns (seen: Option<Coins>)
    requires cache.Valid() && !cache.hasModifier && !cache.BaseLocked()
    requires cache.Represents(p)
    requires op.WriteNew? && !op.coinbase ==> p.below[op.txid] == EMPTY
    modifies cache.Repr
    ensures cache.Valid() && !cache.hasModifier && !cache.BaseLocked()
    ensures cache.Represents(PlainStep(p, op))
    ensures op.Read? ==> CanonOf(seen) == p.top[op.txid]
  {
    seen := None;
    match op
    case Read(txid) =>
      seen := cache.GetCoins(txid);
    case Write(txid, coins) =>
      ApplyWrite(cache, txid, coins, p);
    case WriteNew(txid, coinbase, coins) =>
      ApplyWriteNew(cache, txid, coinbase, coins, p);
    case Drop(txid) =>
      cache.Uncache(txid);
    case Push =>
      cache.Flush();
  }

  /**
   * Every run of reads, modifications, evictions and flushes on the top of a stack of any
   * depth behaves like the same run on plain maps: the reads return the same coins and the
   * views of the cache and of its base end up as the plain maps do.
   */
  method Run(cache: CoinsViewCache, ops: seq<Op>, ghost p: Plain) returns (seen: seq<Coins>)
    requires cache.Valid() && !cache.hasModifier && !cache.BaseLocked()
    requires cache.Represents(p) && Legal(p, ops)
    modifies cache.Repr
    ensures cache.Valid() && !cache.hasModifier && !cache.BaseLocked()
    ensures cache.Represents(Replay(p, ops))
    ensures seen == PlainReads(p, ops)
  {
    seen := [];
    for i := 0 to |ops|
      invariant cache.Valid() && !cache.hasModifier && !cache.BaseLocked()
      invariant cache.Represents(Replay(p, ops[..i]))
      invariant seen == PlainReads(p, ops[..i])
    {
      assert ops[..i + 1][..i] == ops[..i];
      var got := Apply(cache, ops[i], Replay(p, ops[..i]));
      if ops[i].Read? {
        seen := seen + [CanonOf(got)];
      }
    }
    assert ops[..|ops|] == ops;
  }

  // ----- two surprises -----

  /** A coinbase that is already cached is written anew: the memory counter is too high from then on. */
  method CoinbaseTwice(db: CoinsDB, usage: Coins -> nat, txid: Txid) returns (cache: CoinsViewCache)
    requires txid in db.coins && usage(db.coins[txid]) > 0
    modifies db
    ensures cache.Valid() && !cache.hasModifier && cache.cachedCoinsUsage > Total(cache.cacheCoins, usage)
  {
    cache := new CoinsViewCache.OnDB(db, usage);
    assert cache.Look(txid) == Some(db.coins[txid]);
    var found := cache.FetchCoins(txid);
    var m := cache.ModifyNewCoins(txid, true);
    m.Destroy();
  }

  /** A child without a best block of its own is flushed: its parent forgets the one it had. */
  method NullFlush(db: CoinsDB, usage: Coins -> nat, h: Hash) returns (parent: CoinsViewCache, ghost before: Hash)
    requires h != NULL_HASH && h != db.best
    ensures parent.Valid() && before == h && parent.Best() == db.best != before
  {
    parent := new CoinsViewCache.OnDB(db, usage);
    parent.SetBestBlock(h);
    before := parent.Best();
    var child := new CoinsViewCache.OnCache(parent);
    child.Flush();
    assert parent.Best() == child.BaseBest();
  }
}
