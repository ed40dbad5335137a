/**
 * The unspent outputs of one transaction: CCoins of src/coins.h.
 */
module Coins {
  import opened Wrappers

  /** CTxOut: a spent output is null, which is nValue == -1. */
  datatype TxOut = TxOut(nValue: int, scriptPubKey: seq<int>)

  predicate IsNull(o: TxOut) { o.nValue == -1 }

  const NULL_OUT := TxOut(-1, [])

  const OP_RETURN := 0x6a
  const MAX_SCRIPT_SIZE := 10000

  /** CScript::IsUnspendable. */
  predicate IsUnspendable(script: seq<int>) { (|script| > 0 && script[0] == OP_RETURN) || |script| > MAX_SCRIPT_SIZE }

  datatype Coins = Coins(fCoinBase: bool, vout: seq<TxOut>, nHeight: int, nVersion: int)

  const EMPTY := Coins(false, [], 0, 0)

  /** Fully spent: no output is available. */
  predicate IsPruned(c: Coins) { forall i | 0 <= i < |c.vout| :: IsNull(c.vout[i]) }

  predicate IsAvailable(c: Coins, n: nat) { n < |c.vout| && !IsNull(c.vout[n]) }

  /** The outputs without the spent ones at the end. */
  function Trim(vout: seq<TxOut>): (r: seq<TxOut>)
    ensures r <= vout
    ensures r != [] ==> !IsNull(r[|r| - 1])
    ensures forall i | |r| <= i < |vout| :: IsNull(vout[i])
  {
    if vout != [] && IsNull(vout[|vout| - 1]) then Trim(vout[..|vout| - 1]) else vout
  }

  lemma TrimUnique(vout: seq<TxOut>, t: seq<TxOut>)
    requires t <= vout && (t != [] ==> !IsNull(t[|t| - 1])) && forall i | |t| <= i < |vout| :: IsNull(vout[i])
    ensures Trim(vout) == t
  {
    var r := Trim(vout);
    assert r != [] ==> r[|r| - 1] == vout[|r| - 1];
    assert t != [] ==> t[|t| - 1] == vout[|t| - 1];
    assert |r| == |t|;
  }

  function Cleanup(c: Coins): Coins { c.(vout := Trim(c.vout)) }

  /** The pop_back loop of CCoins::Cleanup. */
  method CleanupLoop(c: Coins) returns (r: Coins)
    ensures r == Cleanup(c)
  {
    var vout := c.vout;
    while |vout| > 0 && IsNull(vout[|vout| - 1])
      invariant Trim(vout) == Trim(c.vout)
    {
      vout := vout[..|vout| - 1];
    }
    r := c.(vout := vout);
  }

  /** The outputs of a transaction without those that can never be spent. */
  function Spendable(vout: seq<TxOut>): (r: seq<TxOut>)
    ensures |r| == |vout|
  {
    seq(|vout|, i requires 0 <= i < |vout| => if IsUnspendable(vout[i].scriptPubKey) then NULL_OUT else vout[i])
  }

  /** CCoins::FromTx. */
  function FromTx(coinBase: bool, vout: seq<TxOut>, nHeight: int, nVersion: int): Coins {
    Cleanup(Coins(coinBase, Spendable(vout), nHeight, nVersion))
  }

  /** ClearUnspendable: the loop, and the Cleanup after it. */
  method ClearUnspendable(c: Coins) returns (r: Coins)
    ensures r == Cleanup(c.(vout := Spendable(c.vout)))
  {
    var vout := c.vout;
    for i := 0 to |vout|
      invariant |vout| == |c.vout|
      invariant forall j | 0 <= j < |vout| :: vout[j] == if j < i then Spendable(c.vout)[j] else c.vout[j]
    {
      if IsUnspendable(vout[i].scriptPubKey) {
        vout := vout[i := NULL_OUT];
      }
    }
    assert vout == Spendable(c.vout);
    r := CleanupLoop(c.(vout := vout));
  }

  /** CCoins::Spend: the new coins, and whether there was something to spend. */
  function Spend(c: Coins, n: nat): (Coins, bool) {
    if !IsAvailable(c, n) then (c, false) else (Cleanup(c.(vout := c.vout[n := NULL_OUT])), true)
  }

  /** Spending takes away exactly output n and leaves every other output as it was. */
  lemma SpendEffect(c: Coins, n: nat, i: nat)
    ensures Spend(c, n).1 <==> IsAvailable(c, n)
    ensures IsAvailable(Spend(c, n).0, i) <==> IsAvailable(c, i) && i != n
    ensures IsAvailable(Spend(c, n).0, i) ==> Spend(c, n).0.vout[i] == c.vout[i]
  {
    if IsAvailable(c, n) {
      var vout := c.vout[n := NULL_OUT];
      assert Trim(vout) <= vout;
      assert i < |vout| ==> vout[i] == if i == n then NULL_OUT else c.vout[i];
      assert i < |Trim(vout)| ==> Trim(vout)[i] == vout[i];
    }
  }

  /**
   * What a view is compared by: trailing spent outputs do not matter, and a fully spent
   * transaction is the same as an unknown one.
   */
  function Canon(c: Coins): Coins { if IsPruned(c) then EMPTY else Cleanup(c) }

  function CanonOf(o: Option<Coins>): Coins { if o.Some? then Canon(o.value) else EMPTY }

  lemma CleanupCanon(c: Coins)
    ensures IsPruned(Cleanup(c)) <==> IsPruned(c)
    ensures Canon(Cleanup(c)) == Canon(c)
  {
    var t := Trim(c.vout);
    assert Trim(t) == t;
    if !IsPruned(c) {
      var i :| 0 <= i < |c.vout| && !IsNull(c.vout[i]);
      assert i < |t| && t[i] == c.vout[i];
    }
  }

  /**
   * Two records are the same to a view exactly when the same outputs are available and, if any is,
   * height, version and coinbase flag agree and so does every output up to the last available one.
   */
  lemma CanonObservable(a: Coins, b: Coins)
    ensures Canon(a) == Canon(b) <==>
            && (forall i: nat :: IsAvailable(a, i) <==> IsAvailable(b, i))
            && (!IsPruned(a) ==> a.(vout := []) == b.(vout := []) && SameOuts(a, b))
  {
    Witness(a);
    Witness(b);
    CanonAvailable(a);
    CanonAvailable(b);
    if !IsPruned(a) && forall i: nat :: IsAvailable(a, i) <==> IsAvailable(b, i) { SameTrim(a, b); }
  }

  /** The outputs up to the last available one agree. */
  predicate SameOuts(a: Coins, b: Coins) {
    forall i, j | 0 <= i <= j < |a.vout| && IsAvailable(a, j) :: i < |b.vout| && a.vout[i] == b.vout[i]
  }

  /** An output is kept exactly when an available one is at or after its position. */
  lemma TrimMeans(c: Coins, i: nat)
    ensures i < |Trim(c.vout)| <==> exists j :: i <= j < |c.vout| && IsAvailable(c, j)
    ensures i < |Trim(c.vout)| ==> Trim(c.vout)[i] == c.vout[i]
  {
    var t := Trim(c.vout);
    if i < |t| {
      assert t[|t| - 1] == c.vout[|t| - 1];
      assert i <= |t| - 1 < |c.vout| && IsAvailable(c, |t| - 1);
    }
  }

  lemma SameTrim(a: Coins, b: Coins)
    requires forall i: nat :: IsAvailable(a, i) <==> IsAvailable(b, i)
    ensures Trim(a.vout) == Trim(b.vout) <==> SameOuts(a, b)
  {
    SameLength(a, b);
    SameLength(b, a);
    var t, u := Trim(a.vout), Trim(b.vout);
    forall i: nat | i < |t| ensures t[i] == a.vout[i] && u[i] == b.vout[i] {
      TrimMeans(a, i);
      TrimMeans(b, i);
    }
    if SameOuts(a, b) {
      forall i: nat | i < |t| ensures t[i] == u[i] { TrimMeans(a, i); }
    }
    if t == u {
      forall i, j | 0 <= i <= j < |a.vout| && IsAvailable(a, j) ensures i < |b.vout| && a.vout[i] == b.vout[i] {
        TrimMeans(a, i);
      }
    }
  }

  lemma SameLength(a: Coins, b: Coins)
    requires forall i: nat | IsAvailable(a, i) :: IsAvailable(b, i)
    ensures |Trim(a.vout)| <= |Trim(b.vout)|
  {
    var t := Trim(a.vout);
    if t != [] {
      assert t[|t| - 1] == a.vout[|t| - 1];
      assert IsAvailable(a, |t| - 1) && IsAvailable(b, |t| - 1);
    }
  }

  lemma Witness(a: Coins)
    ensures IsPruned(a) <==> forall i: nat :: !IsAvailable(a, i)
  {
    if !IsPruned(a) {
      var i :| 0 <= i < |a.vout| && !IsNull(a.vout[i]);
      assert IsAvailable(a, i);
    }
  }

  lemma CanonAvailable(a: Coins)
    ensures forall i: nat :: IsAvailable(Canon(a), i) <==> IsAvailable(a, i)
    ensures forall i: nat | IsAvailable(a, i) :: Canon(a).vout[i] == a.vout[i]
  {
    var t := Trim(a.vout);
    forall i: nat ensures IsAvailable(Canon(a), i) <==> IsAvailable(a, i) {
      if IsAvailable(a, i) { assert i < |t|; }
    }
  }
}
