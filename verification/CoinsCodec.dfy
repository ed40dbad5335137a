/**
 * The on-disk form of a transaction's unspent outputs: CalcMaskSize of src/coins.cpp and
 * Serialize, Unserialize and GetSerializeSize of CCoins in src/coins.h.
 */
module CoinsCodec {
  import opened Arithmetic
  import opened Amounts
  import opened Coins
  import opened ScriptCompressor
  import opened Wrappers

  // ----- bits and bytes -----

  /** The byte with the given bits, least significant first. */
  function ByteOf(bits: seq<bool>): (b: nat)
    ensures b < Pow2(|bits|)
  {
    if bits == [] then 0
    else ByteOf(bits[..|bits| - 1]) + if bits[|bits| - 1] then Pow2(|bits| - 1) else 0
  }

  predicate TestBit(b: int, p: nat) { b / Pow2(p) % 2 == 1 }

  function BitsOf(b: int): seq<bool> { seq(8, p requires 0 <= p => TestBit(b, p)) }

  lemma HighPart(low: nat, k: nat, p: nat)
    requires p < k
    ensures TestBit(low + Pow2(k), p) == TestBit(low, p)
  {
    var h, e := Pow2(k - p - 1), Pow2(p);
    Pow2Add(k - p - 1, p + 1);
    MulAssoc(h, 2, e);
    AddEven(low, 2 * h, e);
    ModShift(low / e, h, 2);
  }

  lemma AddEven(low: nat, h: int, e: int)
    requires e > 0
    ensures (low + h * e) / e == low / e + h
  {
    DivMod(low, e);
    MulDist(low / e, h, e);
    DivModUnique(low + h * e, e, low / e + h, low % e);
  }

  lemma TopBit(low: nat, k: nat)
    requires low < Pow2(k)
    ensures TestBit(low + Pow2(k), k) && !TestBit(low, k)
  {
    DivModUnique(low + Pow2(k), Pow2(k), 1, low);
    DivModUnique(low, Pow2(k), 0, low);
  }

  lemma {:induction false} BitOfByte(bits: seq<bool>, p: nat)
    requires p < |bits|
    ensures TestBit(ByteOf(bits), p) == bits[p]
  {
    var k := |bits| - 1;
    var low := ByteOf(bits[..k]);
    if p == k {
      TopBit(low, k);
    } else {
      BitOfByte(bits[..k], p);
      HighPart(low, k, p);
    }
  }

  lemma BitsOfByte(bits: seq<bool>)
    requires |bits| == 8
    ensures BitsOf(ByteOf(bits)) == bits
  {
    forall p | 0 <= p < 8 ensures BitsOf(ByteOf(bits))[p] == bits[p] { BitOfByte(bits, p); }
  }

  lemma {:induction false} ByteIsZero(bits: seq<bool>)
    ensures ByteOf(bits) == 0 <==> forall i | 0 <= i < |bits| :: !bits[i]
  {
    if bits != [] { ByteIsZero(bits[..|bits| - 1]); }
  }

  // ----- the availability mask -----

  predicate Avail(vout: seq<TxOut>, j: nat) { j < |vout| && !IsNull(vout[j]) }

  function Flags(vout: seq<TxOut>, m: nat): (r: seq<bool>) { seq(m, j requires 0 <= j => Avail(vout, j)) }

  function Window(vout: seq<TxOut>, b: nat): (r: seq<bool>) {
    seq(8, i requires 0 <= i => Avail(vout, 2 + 8 * b + i))
  }

  function MaskByte(vout: seq<TxOut>, b: nat): nat { ByteOf(Window(vout, b)) }

  function MaskBytes(vout: seq<TxOut>, b: nat, n: nat): (s: seq<int>)
    requires b <= n
    decreases n - b
  {
    if b == n then [] else [MaskByte(vout, b)] + MaskBytes(vout, b + 1, n)
  }

  /** One more than the last non-zero byte among the first n. */
  function MaskSize(vout: seq<TxOut>, n: nat): (r: nat)
    ensures r <= n && (r > 0 ==> MaskByte(vout, r - 1) != 0)
    ensures forall b | r <= b < n :: MaskByte(vout, b) == 0
  {
    if n == 0 then 0 else if MaskByte(vout, n - 1) != 0 then n else MaskSize(vout, n - 1)
  }

  /** The number of non-zero bytes from b up to n. */
  function Nonzero(vout: seq<TxOut>, b: nat, n: nat): (r: nat)
    requires b <= n
    ensures r <= n - b && (b < n && MaskByte(vout, n - 1) != 0 ==> r > 0)
    decreases n
  {
    if b == n then 0 else Nonzero(vout, b, n - 1) + if MaskByte(vout, n - 1) != 0 then 1 else 0
  }

  /** How many bytes the outputs from the third on occupy. */
  function Reach(vout: seq<TxOut>): nat { if |vout| <= 2 then 0 else (|vout| + 5) / 8 }

  lemma ReachMeans(vout: seq<TxOut>, b: nat)
    ensures 2 + b * 8 < |vout| <==> b < Reach(vout)
  {}

  function Size(vout: seq<TxOut>): nat { MaskSize(vout, Reach(vout)) }

  function Count(vout: seq<TxOut>): nat { Nonzero(vout, 0, Reach(vout)) }

  /** The inner loop of CalcMaskSize. */
  method IsZeroByte(vout: seq<TxOut>, b: nat) returns (fZero: bool)
    ensures fZero <==> MaskByte(vout, b) == 0
  {
    fZero := true;
    var i := 0;
    ghost var w := Window(vout, b);
    while i < 8 && 2 + b * 8 + i < |vout|
      invariant 0 <= i <= 8
      invariant fZero <==> forall k | 0 <= k < i :: !w[k]
    {
      assert w[i] == Avail(vout, 2 + 8 * b + i);
      if !IsNull(vout[2 + b * 8 + i]) {
        fZero := false;
      }
      i := i + 1;
    }
    forall k | i <= k < 8 ensures !w[k] { assert w[k] == Avail(vout, 2 + 8 * b + k); }
    ByteIsZero(w);
  }

  /** CalcMaskSize: bytes of the mask, and how many of them are not zero. */
  method CalcMaskSize(vout: seq<TxOut>) returns (nBytes: nat, nNonzeroBytes: nat)
    ensures nBytes == Size(vout) && nNonzeroBytes == Count(vout)
  {
    nBytes, nNonzeroBytes := 0, 0;
    var b := 0;
    ReachMeans(vout, 0);
    while 2 + b * 8 < |vout|
      invariant 0 <= b <= Reach(vout) && (2 + b * 8 < |vout| <==> b < Reach(vout))
      invariant nBytes == MaskSize(vout, b) && nNonzeroBytes == Nonzero(vout, 0, b)
    {
      ReachMeans(vout, b + 1);
      var fZero := IsZeroByte(vout, b);
      if !fZero {
        nBytes, nNonzeroBytes := b + 1, nNonzeroBytes + 1;
      }
      b := b + 1;
    }
  }

  lemma {:induction false} CountUpToSize(vout: seq<TxOut>, n: nat)
    ensures Nonzero(vout, 0, n) == Nonzero(vout, 0, MaskSize(vout, n))
  {
    if n > 0 && MaskByte(vout, n - 1) == 0 { CountUpToSize(vout, n - 1); }
  }

  lemma {:induction false} NonzeroFirst(vout: seq<TxOut>, b: nat, n: nat)
    requires b < n
    ensures Nonzero(vout, b, n) == Nonzero(vout, b + 1, n) + if MaskByte(vout, b) != 0 then 1 else 0
    decreases n
  {
    if b + 1 < n { NonzeroFirst(vout, b, n - 1); }
  }

  /** The mask loop of Unserialize: read until count non-zero bytes have been seen. */
  function ReadMask(s: seq<int>, avail: seq<bool>, count: nat): Option<(seq<bool>, seq<int>)>
    decreases |s|
  {
    if count == 0 then Some((avail, s))
    else if s == [] then None
    else ReadMask(s[1..], avail + BitsOf(s[0]), if s[0] != 0 then count - 1 else count)
  }

  lemma FlagsGrow(vout: seq<TxOut>, b: nat)
    ensures Flags(vout, 2 + 8 * b) + Window(vout, b) == Flags(vout, 2 + 8 * (b + 1))
  {}

  /** The reader stops right after the last non-zero byte, and has the flags of all outputs up to there. */
  lemma {:induction false} ReadMaskBack(vout: seq<TxOut>, b: nat, n: nat, rest: seq<int>)
    requires b <= n && (n > 0 ==> MaskByte(vout, n - 1) != 0)
    ensures ReadMask(MaskBytes(vout, b, n) + rest, Flags(vout, 2 + 8 * b), Nonzero(vout, b, n))
         == Some((Flags(vout, 2 + 8 * n), rest))
    decreases n - b
  {
    if b < n {
      var s := MaskBytes(vout, b, n) + rest;
      assert s[1..] == MaskBytes(vout, b + 1, n) + rest;
      NonzeroFirst(vout, b, n);
      BitsOfByte(Window(vout, b));
      FlagsGrow(vout, b);
      ReadMaskBack(vout, b + 1, n, rest);
    } else {
      assert MaskBytes(vout, b, n) + rest == rest;
    }
  }

  // ----- the outputs -----

  function WriteTxOut(curve: Curve, o: TxOut): seq<int> {
    WriteVarInt(StoredAmount(o.nValue)) + Put(curve, o.scriptPubKey)
  }

  function ReadTxOut(curve: Curve, s: seq<int>): Option<(TxOut, seq<int>)> {
    var v := ReadVarInt(s, 0, TWO64);
    if v.None? then None
    else
      var script := Get(curve, v.value.1);
      if script.None? then None
      else Some((TxOut(LoadedAmount(v.value.0), script.value.0), script.value.1))
  }

  /** An output as it reads back. */
  function Reloaded(o: TxOut): TxOut {
    TxOut(LoadedAmount(StoredAmount(o.nValue)), Lasting(o.scriptPubKey))
  }

  /** The size of every unspent script is a 32-bit number with room for the tags. */
  predicate ScriptsSized(vout: seq<TxOut>) {
    forall i | 0 <= i < |vout| && !IsNull(vout[i]) :: |vout[i].scriptPubKey| + SPECIAL_SCRIPTS < TWO32
  }

  lemma TxOutRoundTrip(curve: Curve, o: TxOut, rest: seq<int>)
    requires Determined(curve) && |o.scriptPubKey| + SPECIAL_SCRIPTS < TWO32
    ensures ReadTxOut(curve, WriteTxOut(curve, o) + rest) == Some((Reloaded(o), rest))
  {
    var x := StoredAmount(o.nValue);
    var tail := Put(curve, o.scriptPubKey) + rest;
    assert WriteTxOut(curve, o) + rest == WriteVarInt(x) + tail;
    VarIntRoundTrip(x, tail, TWO64);
    SmallWord(x);
    ScriptRoundTrip(curve, o.scriptPubKey, rest);
  }

  /** The unspent outputs from i on. */
  function WriteOuts(curve: Curve, vout: seq<TxOut>, i: nat): seq<int>
    decreases |vout| - i
  {
    if i >= |vout| then []
    else (if IsNull(vout[i]) then [] else WriteTxOut(curve, vout[i])) + WriteOuts(curve, vout, i + 1)
  }

  /** The outputs flagged as available, from i on; the others are null. */
  function ReadOuts(curve: Curve, s: seq<int>, avail: seq<bool>, i: nat): Option<(seq<TxOut>, seq<int>)>
    requires i <= |avail|
    decreases |avail| - i
  {
    if i == |avail| then Some(([], s))
    else if !avail[i] then Prepend(NULL_OUT, ReadOuts(curve, s, avail, i + 1))
    else
      var o := ReadTxOut(curve, s);
      if o.None? then None else Prepend(o.value.0, ReadOuts(curve, o.value.1, avail, i + 1))
  }

  function Prepend(o: TxOut, r: Option<(seq<TxOut>, seq<int>)>): Option<(seq<TxOut>, seq<int>)> {
    if r.None? then None else Some(([o] + r.value.0, r.value.1))
  }

  /** Outputs i to m as they come back: spent ones lose their script, the others may lose their amount. */
  function Outs(vout: seq<TxOut>, i: nat, m: nat): (r: seq<TxOut>)
    requires i <= m
    ensures |r| == m - i
  {
    seq(m - i, j requires 0 <= j => if Avail(vout, i + j) then Reloaded(vout[i + j]) else NULL_OUT)
  }

  /** No output from m on is available. */
  predicate NoneFrom(vout: seq<TxOut>, m: nat) { forall j | m <= j < |vout| :: IsNull(vout[j]) }

  lemma {:induction false} ReadOutsBack(curve: Curve, vout: seq<TxOut>, i: nat, m: nat, rest: seq<int>)
    requires Determined(curve) && ScriptsSized(vout) && i <= m && NoneFrom(vout, m)
    ensures ReadOuts(curve, WriteOuts(curve, vout, i) + rest, Flags(vout, m), i) == Some((Outs(vout, i, m), rest))
    decreases m - i
  {
    if i == m {
      NothingToWrite(curve, vout, i);
      assert WriteOuts(curve, vout, i) + rest == rest;
    } else {
      ReadOutsBack(curve, vout, i + 1, m, rest);
      ReadOneOut(curve, vout, i, m, rest);
    }
  }

  lemma ReadOneOut(curve: Curve, vout: seq<TxOut>, i: nat, m: nat, rest: seq<int>)
    requires Determined(curve) && ScriptsSized(vout) && i < m
    requires ReadOuts(curve, WriteOuts(curve, vout, i + 1) + rest, Flags(vout, m), i + 1) ==
      Some((Outs(vout, i + 1, m), rest))
    ensures ReadOuts(curve, WriteOuts(curve, vout, i) + rest, Flags(vout, m), i) == Some((Outs(vout, i, m), rest))
  {
    var tail := WriteOuts(curve, vout, i + 1) + rest;
    OutsFirst(vout, i, m);
    if Avail(vout, i) {
      WriteFirst(curve, vout, i, rest);
      TxOutRoundTrip(curve, vout[i], tail);
    } else {
      SkipNull(curve, vout, i);
    }
  }

  lemma WriteFirst(curve: Curve, vout: seq<TxOut>, i: nat, rest: seq<int>)
    requires Avail(vout, i)
    ensures WriteOuts(curve, vout, i) + rest == WriteTxOut(curve, vout[i]) + (WriteOuts(curve, vout, i + 1) + rest)
  {}

  lemma OutsFirst(vout: seq<TxOut>, i: nat, m: nat)
    requires i < m
    ensures Outs(vout, i, m) == [if Avail(vout, i) then Reloaded(vout[i]) else NULL_OUT] + Outs(vout, i + 1, m)
  {}

  lemma SkipNull(curve: Curve, vout: seq<TxOut>, i: nat)
    requires !Avail(vout, i)
    ensures WriteOuts(curve, vout, i) == WriteOuts(curve, vout, i + 1)
  {}

  lemma {:induction false} NothingToWrite(curve: Curve, vout: seq<TxOut>, i: nat)
    requires NoneFrom(vout, i)
    ensures WriteOuts(curve, vout, i) == []
    decreases |vout| - i
  {
    if i < |vout| {
      SkipNull(curve, vout, i);
      NothingToWrite(curve, vout, i + 1);
    }
  }

  // ----- the whole record -----

  function AsInt32(x: int): int { if x < 0x8000_0000 then x else x - TWO32 }

  /** The header code: flags, and the number of non-zero mask bytes less one if they must exist. */
  function Header(count: nat, coinBase: bool, first: bool, second: bool): nat
    requires first || second || count > 0
  {
    8 * (count - if first || second then 0 else 1)
      + (if coinBase then 1 else 0) + (if first then 2 else 0) + (if second then 4 else 0)
  }

  lemma HeaderFields(count: nat, coinBase: bool, first: bool, second: bool)
    requires first || second || count > 0
    ensures var code := Header(count, coinBase, first, second);
            && (code % 2 == 1) == coinBase && (code / 2 % 2 == 1) == first
            && (code / 4 % 2 == 1) == second && MaskCode(code) == count
  {
    var n := count - if first || second then 0 else 1;
    var k := (if coinBase then 1 else 0) + (if first then 2 else 0) + (if second then 4 else 0);
    LowBits(n, k);
    assert Header(count, coinBase, first, second) == 8 * n + k;
  }

  lemma LowBits(n: nat, k: nat)
    requires k < 8
    ensures var code := 8 * n + k;
            && code / 8 == n && code % 2 == k % 2 && code / 2 % 2 == k / 2 % 2
            && code / 4 % 2 == k / 4 % 2 && code / 2 % 4 == k / 2 % 4
  {
    var code := 8 * n + k;
    DivModUnique(code, 8, n, k);
    DivModUnique(code, 2, 4 * n + k / 2, k % 2);
    DivModUnique(code, 4, 2 * n + k / 4, k % 4);
    ModShift(k / 2, 2 * n, 2);
    ModShift(k / 2, n, 4);
    ModShift(k / 4, n, 2);
  }

  function Code(c: Coins): nat
    requires !IsPruned(c)
  {
    NeedsMask(c.vout);
    Header(Count(c.vout), c.fCoinBase, Avail(c.vout, 0), Avail(c.vout, 1))
  }

  /** assert(fFirst || fSecond || nMaskCode) */
  lemma NeedsMask(vout: seq<TxOut>)
    requires exists i | 0 <= i < |vout| :: !IsNull(vout[i])
    ensures Avail(vout, 0) || Avail(vout, 1) || Count(vout) > 0
  {
    var i :| 0 <= i < |vout| && !IsNull(vout[i]);
    if i >= 2 {
      var b := (i - 2) / 8;
      AvailableInByte(vout, i);
      MaskSizeAbove(vout, b);
    }
  }

  lemma AvailableInByte(vout: seq<TxOut>, i: nat)
    requires i >= 2 && Avail(vout, i)
    ensures (i - 2) / 8 < Reach(vout) && MaskByte(vout, (i - 2) / 8) != 0
  {
    var b, p := (i - 2) / 8, (i - 2) % 8;
    var w := Window(vout, b);
    DivMod(i - 2, 8);
    assert w[p] == Avail(vout, 2 + 8 * b + p) && 2 + 8 * b + p == i;
    ByteIsZero(w);
  }

  lemma MaskSizeAbove(vout: seq<TxOut>, b: nat)
    requires b < Reach(vout) && MaskByte(vout, b) != 0
    ensures b < Size(vout) && Count(vout) > 0
  {
    CountUpToSize(vout, Reach(vout));
  }

  /** Nothing is available beyond the mask. */
  lemma MaskCovers(vout: seq<TxOut>)
    ensures NoneFrom(vout, 2 + 8 * Size(vout))
  {
    forall j | 0 <= j < |vout| && !IsNull(vout[j]) ensures j < 2 + 8 * Size(vout) {
      if j >= 2 {
        AvailableInByte(vout, j);
        MaskSizeAbove(vout, (j - 2) / 8);
      }
    }
  }

  /** The serialized form. */
  function Encode(curve: Curve, c: Coins): seq<int>
    requires !IsPruned(c)
  {
    WriteVarInt(c.nVersion) + WriteVarInt(Code(c) % TWO32) + MaskBytes(c.vout, 0, Size(c.vout))
      + WriteOuts(curve, c.vout, 0) + WriteVarInt(c.nHeight)
  }

  function Decode(curve: Curve, s: seq<int>): Option<(Coins, seq<int>)> {
    var version := ReadVarInt(s, 0, TWO32);
    if version.None? then None else
    var code := ReadVarInt(version.value.1, 0, TWO32);
    if code.None? then None else DecodeBody(curve, code.value.1, AsInt32(version.value.0), code.value.0)
  }

  function MaskCode(code: nat): nat {
    code / 8 + if code / 2 % 4 != 0 then 0 else 1
  }

  function DecodeBody(curve: Curve, s: seq<int>, version: int, code: nat): Option<(Coins, seq<int>)> {
    var mask := ReadMask(s, [code / 2 % 2 == 1, code / 4 % 2 == 1], MaskCode(code));
    if mask.None? then None else DecodeOuts(curve, mask.value.1, mask.value.0, code % 2 == 1, version)
  }

  function DecodeOuts(curve: Curve, s: seq<int>, avail: seq<bool>, coinBase: bool, version: int): Option<(Coins, seq<int>)> {
    var outs := ReadOuts(curve, s, avail, 0);
    if outs.None? then None else
    var height := ReadVarInt(outs.value.1, 0, TWO32);
    if height.None? then None
    else Some((Cleanup(Coins(coinBase, outs.value.0, AsInt32(height.value.0), version)), height.value.1))
  }

  // ----- reading gives back what was written -----

  /** What a signed 32-bit number reads back as. */
  function AsRead(n: int): (r: int)
    ensures r == n <==> 0 <= n < 0x8000_0000
  {
    SmallInt(Kept(n));
    AsInt32(Kept(n) % TWO32)
  }

  lemma SmallInt(n: nat)
    ensures n < TWO32 ==> n % TWO32 == n
    ensures AsInt32(n % TWO32) == n <==> n < 0x8000_0000
  {
    if n < TWO32 { DivModUnique(n, TWO32, 0, n); }
  }

  /** The header code and the sizes of unspent scripts fit into 32 bits. */
  predicate Encodable(c: Coins) { !IsPruned(c) && Code(c) < TWO32 && ScriptsSized(c.vout) }

  lemma FewOutputs(c: Coins)
    requires !IsPruned(c) && |c.vout| < TWO32 - 12
    ensures Code(c) < TWO32
  {}

  /** The record as it reads back. */
  function Restored(c: Coins): Coins {
    Cleanup(Coins(c.fCoinBase, Outs(c.vout, 0, |c.vout|), AsRead(c.nHeight), AsRead(c.nVersion)))
  }

  lemma TrimLonger(vout: seq<TxOut>, n: nat, m: nat)
    requires n <= m && NoneFrom(vout, n)
    ensures Trim(Outs(vout, 0, m)) == Trim(Outs(vout, 0, n))
  {
    OutsLonger(vout, n, m);
    TrimFollowed(Outs(vout, 0, n), Outs(vout, 0, m));
  }

  lemma OutsLonger(vout: seq<TxOut>, n: nat, m: nat)
    requires n <= m && NoneFrom(vout, n)
    ensures Outs(vout, 0, n) <= Outs(vout, 0, m) && forall i | n <= i < m :: IsNull(Outs(vout, 0, m)[i])
  {}

  lemma TrimFollowed(a: seq<TxOut>, b: seq<TxOut>)
    requires a <= b && forall i | |a| <= i < |b| :: IsNull(b[i])
    ensures Trim(b) == Trim(a)
  {
    var t := Trim(a);
    forall i | |t| <= i < |b| ensures IsNull(b[i]) {
      if i < |a| { assert b[i] == a[i]; }
    }
    TrimUnique(b, t);
  }

  /** Trimming ignores how many null outputs follow. */
  lemma TrimPadding(vout: seq<TxOut>, m: nat)
    requires NoneFrom(vout, m)
    ensures Trim(Outs(vout, 0, m)) == Trim(Outs(vout, 0, |vout|))
  {
    if m > |vout| { TrimLonger(vout, |vout|, m); } else { TrimLonger(vout, m, |vout|); }
  }

  lemma MaskRoundTrip(c: Coins, rest: seq<int>)
    requires !IsPruned(c)
    ensures ReadMask(MaskBytes(c.vout, 0, Size(c.vout)) + rest, [Avail(c.vout, 0), Avail(c.vout, 1)], Count(c.vout))
         == Some((Flags(c.vout, 2 + 8 * Size(c.vout)), rest))
  {
    CountUpToSize(c.vout, Reach(c.vout));
    TwoFlags(c.vout);
    ReadMaskBack(c.vout, 0, Size(c.vout), rest);
  }

  lemma TwoFlags(vout: seq<TxOut>)
    ensures Flags(vout, 2) == [Avail(vout, 0), Avail(vout, 1)]
  {}

  function Tail(curve: Curve, c: Coins, rest: seq<int>): seq<int>
  {
    WriteOuts(curve, c.vout, 0) + (WriteVarInt(c.nHeight) + rest)
  }

  lemma EncodeSplit(curve: Curve, c: Coins, rest: seq<int>)
    requires Encodable(c)
    ensures Encode(curve, c) + rest
         == WriteVarInt(c.nVersion) + (WriteVarInt(Code(c)) + (MaskBytes(c.vout, 0, Size(c.vout)) + Tail(curve, c, rest)))
  {
    SmallInt(Code(c));
  }

  lemma BodyRoundTrip(curve: Curve, c: Coins, version: int, rest: seq<int>)
    requires Determined(curve) && Encodable(c)
    ensures DecodeBody(curve, MaskBytes(c.vout, 0, Size(c.vout)) + Tail(curve, c, rest), version, Code(c))
         == Some((Restored(c).(nVersion := version), rest))
  {
    NeedsMask(c.vout);
    HeaderFields(Count(c.vout), c.fCoinBase, Avail(c.vout, 0), Avail(c.vout, 1));
    MaskRoundTrip(c, Tail(curve, c, rest));
    DecodeOutsBack(curve, c, version, rest);
  }

  lemma DecodeOutsBack(curve: Curve, c: Coins, version: int, rest: seq<int>)
    requires Determined(curve) && ScriptsSized(c.vout)
    ensures DecodeOuts(curve, Tail(curve, c, rest), Flags(c.vout, 2 + 8 * Size(c.vout)), c.fCoinBase, version)
         == Some((Restored(c).(nVersion := version), rest))
  {
    OutsRoundTrip(curve, c, rest);
    VarIntRoundTrip(c.nHeight, rest, TWO32);
  }

  lemma OutsRoundTrip(curve: Curve, c: Coins, rest: seq<int>)
    requires Determined(curve) && ScriptsSized(c.vout)
    ensures var m := 2 + 8 * Size(c.vout);
            && ReadOuts(curve, Tail(curve, c, rest), Flags(c.vout, m), 0)
               == Some((Outs(c.vout, 0, m), WriteVarInt(c.nHeight) + rest))
            && Trim(Outs(c.vout, 0, m)) == Trim(Outs(c.vout, 0, |c.vout|))
  {
    var m := 2 + 8 * Size(c.vout);
    MaskCovers(c.vout);
    ReadOutsBack(curve, c.vout, 0, m, WriteVarInt(c.nHeight) + rest);
    TrimPadding(c.vout, m);
  }

  /** Whatever follows in the stream, Unserialize consumes exactly what Serialize wrote. */
  lemma RoundTrip(curve: Curve, c: Coins, rest: seq<int>)
    requires Determined(curve) && Encodable(c)
    ensures Decode(curve, Encode(curve, c) + rest) == Some((Restored(c), rest))
  {
    var body := MaskBytes(c.vout, 0, Size(c.vout)) + Tail(curve, c, rest);
    EncodeSplit(curve, c, rest);
    VarIntRoundTrip(c.nVersion, WriteVarInt(Code(c)) + body, TWO32);
    VarIntRoundTrip(Code(c), body, TWO32);
    SmallInt(Code(c));
    BodyRoundTrip(curve, c, AsRead(c.nVersion), rest);
  }

  /** Trailing spent outputs are gone and spent outputs carry no script, as Spend leaves them. */
  predicate Tidy(c: Coins) {
    && (c.vout != [] ==> !IsNull(c.vout[|c.vout| - 1]))
    && (forall i | 0 <= i < |c.vout| :: IsNull(c.vout[i]) ==> c.vout[i] == NULL_OUT)
  }

  predicate AmountsFit(vout: seq<TxOut>) {
    forall i | 0 <= i < |vout| && !IsNull(vout[i]) :: CodeFits(vout[i].nValue)
  }

  predicate ScriptsFit(vout: seq<TxOut>) {
    forall i | 0 <= i < |vout| && !IsNull(vout[i]) :: |vout[i].scriptPubKey| <= MAX_SCRIPT_SIZE
  }

  lemma OutsUnchanged(c: Coins)
    ensures Trim(Outs(c.vout, 0, |c.vout|)) == c.vout <==> Tidy(c) && AmountsFit(c.vout) && ScriptsFit(c.vout)
  {
    var vout, outs := c.vout, Outs(c.vout, 0, |c.vout|);
    forall i | 0 <= i < |vout| ensures outs[i] == vout[i] <==> OutLasts(vout[i]) {
      SurvivesIff(vout[i].nValue);
    }
    if Trim(outs) == vout {
      assert outs == vout;
      forall i | 0 <= i < |vout| ensures OutLasts(vout[i]) { assert outs[i] == vout[i]; }
    }
    if Tidy(c) && AmountsFit(vout) && ScriptsFit(vout) {
      forall i | 0 <= i < |vout| ensures outs[i] == vout[i] { assert OutLasts(vout[i]); }
    }
  }

  predicate OutLasts(o: TxOut) {
    if IsNull(o) then o == NULL_OUT else CodeFits(o.nValue) && |o.scriptPubKey| <= MAX_SCRIPT_SIZE
  }

  /**
   * What comes back unchanged: a tidy record with amounts whose codes fit into 64 bits, no unspent
   * script above the limit, and neither version nor height negative.
   */
  predicate Lasts(c: Coins) {
    && Tidy(c) && AmountsFit(c.vout) && ScriptsFit(c.vout)
    && 0 <= c.nVersion < 0x8000_0000 && 0 <= c.nHeight < 0x8000_0000
  }

  lemma RoundTripIff(curve: Curve, c: Coins, rest: seq<int>)
    requires Determined(curve) && Encodable(c)
    ensures Decode(curve, Encode(curve, c) + rest) == Some((c, rest)) <==> Lasts(c)
  {
    RoundTrip(curve, c, rest);
    OutsUnchanged(c);
  }

  /** Money always survives. */
  lemma MoneyRoundTrip(curve: Curve, c: Coins, rest: seq<int>)
    requires Determined(curve) && Encodable(c) && Tidy(c) && ScriptsFit(c.vout)
    requires 0 <= c.nVersion < 0x8000_0000 && 0 <= c.nHeight < 0x8000_0000
    requires forall i | 0 <= i < |c.vout| && !IsNull(c.vout[i]) :: 0 <= c.vout[i].nValue <= MAX_MONEY
    ensures Decode(curve, Encode(curve, c) + rest) == Some((c, rest))
  {
    forall i | 0 <= i < |c.vout| && !IsNull(c.vout[i]) ensures CodeFits(c.vout[i].nValue) {
      MoneySurvives(c.vout[i].nValue);
      SurvivesIff(c.vout[i].nValue);
    }
    RoundTripIff(curve, c, rest);
  }

  /** A negative version is never read back: its low seven bits are. */
  lemma NegativeVersionLost(curve: Curve, c: Coins, rest: seq<int>)
    requires Determined(curve) && Encodable(c) && Tidy(c) && AmountsFit(c.vout) && ScriptsFit(c.vout)
    requires 0 <= c.nHeight < 0x8000_0000 && c.nVersion < 0
    ensures Decode(curve, Encode(curve, c) + rest) == Some((c.(nVersion := c.nVersion % 0x80), rest))
  {
    RoundTrip(curve, c, rest);
    OutsUnchanged(c);
    SmallInt(c.nVersion % 0x80);
  }

  /** An output with a script of 10001 bytes comes back with OP_RETURN instead. */
  lemma LongScriptLost(curve: Curve, o: TxOut, rest: seq<int>)
    requires Determined(curve) && |o.scriptPubKey| == MAX_SCRIPT_SIZE + 1 && CodeFits(o.nValue)
    ensures ReadTxOut(curve, WriteTxOut(curve, o) + rest) == Some((o.(scriptPubKey := [OP_RETURN]), rest))
  {
    TxOutRoundTrip(curve, o, rest);
    SurvivesIff(o.nValue);
  }

  // ----- the life of a record -----

  /** Outputs that consensus accepts. */
  predicate MoneyRange(vout: seq<TxOut>) { forall i | 0 <= i < |vout| :: 0 <= vout[i].nValue <= MAX_MONEY }

  /** The record of a transaction that consensus accepts can be stored. */
  lemma FromTxLasts(coinBase: bool, vout: seq<TxOut>, nHeight: int, nVersion: int)
    requires MoneyRange(vout) && 0 <= nHeight < 0x8000_0000 && 0 <= nVersion < 0x8000_0000
    ensures Lasts(FromTx(coinBase, vout, nHeight, nVersion))
  {
    var c := FromTx(coinBase, vout, nHeight, nVersion);
    forall i | 0 <= i < |c.vout| ensures OutLasts(c.vout[i]) {
      assert c.vout[i] == Spendable(vout)[i];
      MoneySurvives(vout[i].nValue);
      SurvivesIff(vout[i].nValue);
    }
    AllLast(c);
  }

  lemma AllLast(c: Coins)
    requires forall i | 0 <= i < |c.vout| :: OutLasts(c.vout[i])
    ensures AmountsFit(c.vout) && ScriptsFit(c.vout) && forall i | 0 <= i < |c.vout| && IsNull(c.vout[i]) ::
      c.vout[i] == NULL_OUT
  {
    forall i | 0 <= i < |c.vout|
      ensures if IsNull(c.vout[i]) then c.vout[i] == NULL_OUT
              else CodeFits(c.vout[i].nValue) && |c.vout[i].scriptPubKey| <= MAX_SCRIPT_SIZE
    {
      assert OutLasts(c.vout[i]);
    }
  }

  /** Spending keeps a record storable. */
  lemma SpendLasts(c: Coins, n: nat)
    requires Lasts(c)
    ensures Lasts(Spend(c, n).0) && |Spend(c, n).0.vout| <= |c.vout|
  {
    if IsAvailable(c, n) {
      var d := Spend(c, n).0;
      forall i | 0 <= i < |d.vout| ensures OutLasts(d.vout[i]) {
        assert d.vout[i] == c.vout[n := NULL_OUT][i];
      }
      AllLast(d);
    }
  }

  function SpendAll(c: Coins, spent: seq<nat>): Coins {
    if spent == [] then c else Spend(SpendAll(c, spent[..|spent| - 1]), spent[|spent| - 1]).0
  }

  lemma {:induction false} SpendAllLasts(c: Coins, spent: seq<nat>)
    requires Lasts(c)
    ensures Lasts(SpendAll(c, spent)) && |SpendAll(c, spent).vout| <= |c.vout|
  {
    if spent != [] {
      SpendAllLasts(c, spent[..|spent| - 1]);
      SpendLasts(SpendAll(c, spent[..|spent| - 1]), spent[|spent| - 1]);
    }
  }

  /**
   * Whatever is spent of a transaction that consensus accepts, its record is pruned or comes back
   * unchanged from its stored form.
   */
  lemma LifeRoundTrip(curve: Curve, coinBase: bool, vout: seq<TxOut>, nHeight: int, nVersion: int, spent: seq<nat>,
                      rest: seq<int>)
    requires Determined(curve) && MoneyRange(vout) && |vout| < TWO32 - 12
    requires 0 <= nHeight < 0x8000_0000 && 0 <= nVersion < 0x8000_0000
    ensures var c := SpendAll(FromTx(coinBase, vout, nHeight, nVersion), spent);
            IsPruned(c) || Decode(curve, Encode(curve, c) + rest) == Some((c, rest))
  {
    var c := SpendAll(FromTx(coinBase, vout, nHeight, nVersion), spent);
    FromTxLasts(coinBase, vout, nHeight, nVersion);
    SpendAllLasts(FromTx(coinBase, vout, nHeight, nVersion), spent);
    if !IsPruned(c) {
      FewOutputs(c);
      RoundTripIff(curve, c, rest);
    }
  }

  // ----- the loops -----

  /** GetSerializeSize is the number of bytes written. */
  method GetSerializeSize(curve: Curve, c: Coins) returns (nSize: nat)
    requires !IsPruned(c)
    ensures nSize == |Encode(curve, c)|
  {
    var nMaskSize, nMaskCode := CalcMaskSize(c.vout);
    NeedsMask(c.vout);
    nSize := SizeOfVarInt(c.nVersion);
    var n := SizeOfVarInt(Header(nMaskCode, c.fCoinBase, Avail(c.vout, 0), Avail(c.vout, 1)) % TWO32);
    nSize := nSize + n + nMaskSize;
    MaskBytesLength(c.vout, 0, Size(c.vout));
    n := OutsSize(curve, c.vout);
    nSize := nSize + n;
    n := SizeOfVarInt(c.nHeight);
    nSize := nSize + n;
  }

  lemma {:induction false} MaskBytesLength(vout: seq<TxOut>, b: nat, n: nat)
    requires b <= n
    ensures |MaskBytes(vout, b, n)| == n - b
    decreases n - b
  {
    if b < n { MaskBytesLength(vout, b + 1, n); }
  }

  method OutsSize(curve: Curve, vout: seq<TxOut>) returns (nSize: nat)
    ensures nSize == |WriteOuts(curve, vout, 0)|
  {
    nSize := 0;
    for i := 0 to |vout|
      invariant nSize + |WriteOuts(curve, vout, i)| == |WriteOuts(curve, vout, 0)|
    {
      if !IsNull(vout[i]) {
        var nVal := CompressAmount(vout[i].nValue % TWO64);
        var n := SizeOfVarInt(nVal);
        nSize := nSize + n;
        n := ScriptSize(curve, vout[i].scriptPubKey);
        nSize := nSize + n;
      }
    }
  }

  /** Serialize. */
  method Serialize(curve: Curve, c: Coins) returns (s: seq<int>)
    requires !IsPruned(c)
    ensures s == Encode(curve, c)
  {
    var nMaskSize, nMaskCode := CalcMaskSize(c.vout);
    NeedsMask(c.vout);
    s := VarIntBytes(c.nVersion);
    var code := VarIntBytes(Header(nMaskCode, c.fCoinBase, Avail(c.vout, 0), Avail(c.vout, 1)) % TWO32);
    var mask := SerializeMask(c.vout, nMaskSize);
    var outs := SerializeOuts(curve, c.vout);
    var height := VarIntBytes(c.nHeight);
    s := s + code + mask + outs + height;
  }

  method SerializeMask(vout: seq<TxOut>, nMaskSize: nat) returns (s: seq<int>)
    ensures s == MaskBytes(vout, 0, nMaskSize)
  {
    s := [];
    for b := 0 to nMaskSize
      invariant s + MaskBytes(vout, b, nMaskSize) == MaskBytes(vout, 0, nMaskSize)
    {
      var chAvail := SerializeByte(vout, b);
      s := s + [chAvail];
    }
  }

  lemma NextBit(w: seq<bool>, i: nat)
    requires i < |w|
    ensures ByteOf(w[..i + 1]) == if w[i] then BitOr(ByteOf(w[..i]), Pow2(i)) else ByteOf(w[..i])
  {
    assert w[..i + 1][..i] == w[..i];
    BitOrDisjoint(1, i, ByteOf(w[..i]));
    BitOrComm(ByteOf(w[..i]), Pow2(i));
  }

  method SerializeByte(vout: seq<TxOut>, b: nat) returns (chAvail: nat)
    ensures chAvail == MaskByte(vout, b)
  {
    chAvail := 0;
    ghost var w := Window(vout, b);
    var i := 0;
    while i < 8 && 2 + b * 8 + i < |vout|
      invariant 0 <= i <= 8 && chAvail == ByteOf(w[..i])
    {
      NextBit(w, i);
      assert w[i] == Avail(vout, 2 + 8 * b + i) == !IsNull(vout[2 + b * 8 + i]);
      if !IsNull(vout[2 + b * 8 + i]) {
        chAvail := BitOr(chAvail, Pow2(i));
      }
      i := i + 1;
    }
    forall k | i <= k < 8 ensures !w[k] { assert w[k] == Avail(vout, 2 + 8 * b + k); }
    RestIsClear(w, i);
  }

  lemma {:induction false} RestIsClear(w: seq<bool>, i: nat)
    requires i <= |w| && forall k | i <= k < |w| :: !w[k]
    ensures ByteOf(w[..i]) == ByteOf(w)
  {
    if i < |w| {
      RestIsClear(w[..|w| - 1], i);
      assert w[..|w| - 1][..i] == w[..i];
    } else {
      assert w[..i] == w;
    }
  }

  lemma WriteNext(curve: Curve, vout: seq<TxOut>, i: nat, s: seq<int>)
    requires Avail(vout, i)
    ensures s + WriteOuts(curve, vout, i) == s + WriteTxOut(curve, vout[i]) + WriteOuts(curve, vout, i + 1)
  {}

  method SerializeTxOut(curve: Curve, o: TxOut) returns (s: seq<int>)
    ensures s == WriteTxOut(curve, o)
  {
    var nVal := CompressAmount(o.nValue % TWO64);
    s := VarIntBytes(nVal);
    s := s + Put(curve, o.scriptPubKey);
  }

  /** One round of the loop over the outputs. */
  method SerializeOut(curve: Curve, vout: seq<TxOut>, i: nat, s: seq<int>) returns (r: seq<int>)
    requires i < |vout|
    ensures r + WriteOuts(curve, vout, i + 1) == s + WriteOuts(curve, vout, i)
  {
    if IsNull(vout[i]) {
      SkipNull(curve, vout, i);
      return s;
    }
    var o := SerializeTxOut(curve, vout[i]);
    WriteNext(curve, vout, i, s);
    return s + o;
  }

  method SerializeOuts(curve: Curve, vout: seq<TxOut>) returns (s: seq<int>)
    ensures s == WriteOuts(curve, vout, 0)
  {
    s := [];
    assert s + WriteOuts(curve, vout, 0) == WriteOuts(curve, vout, 0);
    for i := 0 to |vout|
      invariant s + WriteOuts(curve, vout, i) == WriteOuts(curve, vout, 0)
    {
      s := SerializeOut(curve, vout, i, s);
    }
    assert s + WriteOuts(curve, vout, |vout|) == s;
  }

  /** Unserialize: nothing where the stream ends too early. */
  method Unserialize(curve: Curve, s: seq<int>) returns (r: Option<(Coins, seq<int>)>)
    ensures r == Decode(curve, s)
  {
    var version := VarIntRead(s, TWO32);
    if version.None? { return None; }
    var code := VarIntRead(version.value.1, TWO32);
    if code.None? { return None; }
    var nCode := code.value.0;
    var mask := UnserializeMask(code.value.1, [nCode / 2 % 2 == 1, nCode / 4 % 2 == 1], MaskCode(nCode));
    if mask.None? { return None; }
    var outs := UnserializeOuts(curve, mask.value.1, mask.value.0);
    if outs.None? { return None; }
    var height := VarIntRead(outs.value.1, TWO32);
    if height.None? { return None; }
    var c := CleanupLoop(Coins(nCode % 2 == 1, outs.value.0, AsInt32(height.value.0), AsInt32(version.value.0)));
    return Some((c, height.value.1));
  }

  method UnserializeMask(s: seq<int>, first: seq<bool>, count: nat) returns (r: Option<(seq<bool>, seq<int>)>)
    ensures r == ReadMask(s, first, count)
  {
    var nMaskCode, vAvail, rest := count, first, s;
    while nMaskCode > 0
      invariant ReadMask(rest, vAvail, nMaskCode) == ReadMask(s, first, count)
      decreases |rest|
    {
      if rest == [] { return None; }
      var chAvail := rest[0];
      vAvail, rest := vAvail + BitsOf(chAvail), rest[1..];
      if chAvail != 0 {
        nMaskCode := nMaskCode - 1;
      }
    }
    return Some((vAvail, rest));
  }

  method UnserializeOuts(curve: Curve, s: seq<int>, vAvail: seq<bool>) returns (r: Option<(seq<TxOut>, seq<int>)>)
    ensures r == ReadOuts(curve, s, vAvail, 0)
  {
    var vout, rest := [], s;
    BehindNothing(ReadOuts(curve, s, vAvail, 0));
    for i := 0 to |vAvail|
      invariant ReadOuts(curve, s, vAvail, 0) == Behind(vout, ReadOuts(curve, rest, vAvail, i))
    {
      if vAvail[i] {
        var o := ReadTxOut(curve, rest);
        if o.None? { return None; }
        BehindPrepend(vout, o.value.0, ReadOuts(curve, o.value.1, vAvail, i + 1));
        vout, rest := vout + [o.value.0], o.value.1;
      } else {
        BehindPrepend(vout, NULL_OUT, ReadOuts(curve, rest, vAvail, i + 1));
        vout := vout + [NULL_OUT];
      }
    }
    assert vout + [] == vout;
    return Some((vout, rest));
  }

  lemma BehindNothing(r: Option<(seq<TxOut>, seq<int>)>)
    ensures Behind([], r) == r
  {
    if r.Some? { assert [] + r.value.0 == r.value.0; }
  }

  function Behind(vout: seq<TxOut>, r: Option<(seq<TxOut>, seq<int>)>): Option<(seq<TxOut>, seq<int>)> {
    if r.None? then None else Some((vout + r.value.0, r.value.1))
  }

  lemma BehindPrepend(vout: seq<TxOut>, o: TxOut, r: Option<(seq<TxOut>, seq<int>)>)
    ensures Behind(vout, Prepend(o, r)) == Behind(vout + [o], r)
  {
    if r.Some? { assert vout + ([o] + r.value.0) == vout + [o] + r.value.0; }
  }
}
