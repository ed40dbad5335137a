/**
 * Multi-limb unsigned integers: base_uint<BITS> of src/arith_uint256.h and src/arith_uint256.cpp.
 * A number is an array of 32-bit limbs, least significant first; its width is any positive
 * number of limbs (8 for arith_uint256, 16 for arith_uint512).
 */
module ArithUint {
  import opened Arithmetic

  const BASE: nat := 0x1_0000_0000

  // ----- values of limb sequences -----

  predicate Limbs(s: seq<int>) { forall i | 0 <= i < |s| :: 0 <= s[i] < BASE }

  ghost function Val(s: seq<int>): int {
    if s == [] then 0 else Val(s[..|s| - 1]) + s[|s| - 1] * Pow(BASE, |s| - 1)
  }

  lemma {:induction false} ValBound(s: seq<int>)
    requires Limbs(s)
    ensures 0 <= Val(s) < Pow(BASE, |s|)
  {
    if s != [] {
      var n := |s| - 1;
      ValBound(s[..n]);
      var p := Pow(BASE, n);
      MulMono(0, s[n], p);
      MulMono(s[n], BASE - 1, p);
      MulDist(BASE - 1, 1, p);
    }
  }

  lemma ValStep(s: seq<int>, i: nat)
    requires i < |s|
    ensures Val(s[..i + 1]) == Val(s[..i]) + s[i] * Pow(BASE, i)
  {
    assert s[..i + 1][..i] == s[..i];
  }

  lemma {:induction false} ValSplit(s: seq<int>, k: nat)
    requires k <= |s|
    ensures Val(s) == Val(s[..k]) + Val(s[k..]) * Pow(BASE, k)
    decreases |s|
  {
    if k == |s| {
      assert s[..k] == s && s[k..] == [];
    } else {
      var n := |s| - 1;
      ValSplit(s[..n], k);
      assert s[..n][..k] == s[..k] && s[..n][k..] == s[k..][..n - k];
      assert Val(s[k..]) == Val(s[k..n]) + s[n] * Pow(BASE, n - k);
      MulDist(Val(s[k..n]), s[n] * Pow(BASE, n - k), Pow(BASE, k));
      MulAssoc(s[n], Pow(BASE, n - k), Pow(BASE, k));
      PowAdd(BASE, n - k, k);
      assert s[..n][k..] == s[k..n];
    }
  }

  lemma {:induction false} ValZero(s: seq<int>)
    requires forall i | 0 <= i < |s| :: s[i] == 0
    ensures Val(s) == 0
  {
    if s != [] { ValZero(s[..|s| - 1]); }
  }

  /** A value below the modulus that differs from x by a multiple of it is x modulo it. */
  lemma Reduce(x: int, v: int, q: int, m: int)
    requires m > 0 && 0 <= v < m && x == v + q * m
    ensures v == x % m
  {
    DivModUnique(x, m, q, v);
  }

  // ----- addition -----

  /** One limb of a carry chain: n = r + carry * 2^32. */
  lemma CarryStep(n: int, p: int)
    ensures n == n % BASE + n / BASE * BASE
    ensures n * p == n % BASE * p + n / BASE * (BASE * p)
  {
    var r, c := n % BASE, n / BASE;
    assert n == r + c * BASE;
    MulDist(r, c * BASE, p);
    MulAssoc(c, BASE, p);
  }

  class BaseUint {
    const pn: array<int>

    ghost predicate Valid()
      reads pn
    {
      pn.Length >= 1 && Limbs(pn[..])
    }

    ghost function Value(): int
      reads pn
    {
      Val(pn[..])
    }

    ghost function Modulus(): nat { Pow(BASE, pn.Length) }

    /** base_uint(uint64_t): the two low limbs hold b. */
    constructor (width: nat, b: nat)
      requires width >= 2 && b < 0x1_0000_0000_0000_0000
      ensures Valid() && fresh(pn) && pn.Length == width && Value() == b
    {
      pn := new int[width](i => if i == 0 then b % 0x1_0000_0000 else if i == 1 then b / 0x1_0000_0000 else 0);
      new;
      LowValue(pn[..], b);
    }

    constructor Copy(b: BaseUint)
      requires b.Valid()
      ensures Valid() && fresh(pn) && pn.Length == b.pn.Length && pn[..] == b.pn[..]
    {
      pn := new int[b.pn.Length](i requires 0 <= i < b.pn.Length reads b.pn => b.pn[i]);
    }

    /** operator+= : addition modulo 2^BITS; b may be this object itself. */
    method Add(b: BaseUint)
      requires Valid() && b.Valid() && b.pn.Length == pn.Length
      modifies pn
      ensures Valid()
      ensures Value() == (old(Value()) + old(b.Value())) % Modulus()
    {
      ghost var x, y := pn[..], b.pn[..];
      var carry := 0;
      for i := 0 to pn.Length
        invariant AddDone(pn[..], x, y, i, carry)
        invariant forall j | i <= j < pn.Length :: b.pn[j] == y[j]
      {
        ghost var before := pn[..];
        AddStep(before, x, y, i, carry);
        var n := carry + pn[i] + b.pn[i];
        pn[i] := n % BASE;
        assert pn[..] == before[i := n % BASE];
        carry := n / BASE;
      }
      AddWhole(pn[..], x, y, carry);
      Finish(pn[..], carry, Val(x) + Val(y));
    }

    /** operator++ : the carry runs through limbs that become zero. */
    method Increment()
      requires Valid()
      modifies pn
      ensures Valid()
      ensures Value() == (old(Value()) + 1) % Modulus()
    {
      ghost var x := pn[..];
      var i := 0;
      pn[0] := (pn[0] + 1) % BASE;
      IncrementFirst(x);
      assert pn[..] == x[0 := (x[0] + 1) % BASE];
      while pn[i] == 0 && i < pn.Length - 1
        invariant 0 <= i < pn.Length && Incremented(pn[..], x, i)
      {
        i := i + 1;
        ghost var before := pn[..];
        pn[i] := (pn[i] + 1) % BASE;
        IncrementStep(before, x, i);
        assert pn[..] == before[i := (before[i] + 1) % BASE];
      }
      IncrementDone(pn[..], x, i);
    }

    /** operator-- : the borrow runs through limbs that become all ones. */
    method Decrement()
      requires Valid()
      modifies pn
      ensures Valid()
      ensures Value() == (old(Value()) - 1) % Modulus()
    {
      ghost var x := pn[..];
      var i := 0;
      pn[0] := (pn[0] - 1) % BASE;
      DecrementFirst(x);
      assert pn[..] == x[0 := (x[0] - 1) % BASE];
      while pn[i] == BASE - 1 && i < pn.Length - 1
        invariant 0 <= i < pn.Length && Decremented(pn[..], x, i)
      {
        i := i + 1;
        ghost var before := pn[..];
        pn[i] := (pn[i] - 1) % BASE;
        DecrementStep(before, x, i);
        assert pn[..] == before[i := (before[i] - 1) % BASE];
      }
      DecrementDone(pn[..], x, i);
    }

    /** operator~ */
    method Complement() returns (ret: BaseUint)
      requires Valid()
      ensures ret.Valid() && fresh(ret.pn) && fresh(ret) && ret.pn.Length == pn.Length
      ensures ret.Value() == Modulus() - 1 - Value()
    {
      ret := new BaseUint.Copy(this);
      for i := 0 to pn.Length
        invariant forall j | 0 <= j < i :: ret.pn[j] == BASE - 1 - pn[j]
        invariant pn[..] == old(pn[..])
      {
        ret.pn[i] := BASE - 1 - pn[i];
      }
      ValComplement(pn[..], ret.pn[..]);
    }

    /** Unary minus: the two's complement. */
    method Negate() returns (ret: BaseUint)
      requires Valid()
      ensures ret.Valid() && fresh(ret.pn) && fresh(ret) && ret.pn.Length == pn.Length
      ensures ret.Value() == (Modulus() - Value()) % Modulus()
    {
      ret := Complement();
      ret.Increment();
    }

    /** operator-= : subtraction modulo 2^BITS; b may be this object itself. */
    method Subtract(b: BaseUint)
      requires Valid() && b.Valid() && b.pn.Length == pn.Length
      modifies pn
      ensures Valid()
      ensures Value() == (old(Value()) - old(b.Value())) % Modulus()
    {
      ghost var x, y, m := Value(), b.Value(), Modulus();
      var n := b.Negate();
      Add(n);
      SubtractMod(x, y, m);
    }

    /** CompareTo: the sign of the difference. */
    method CompareTo(b: BaseUint) returns (r: int)
      requires Valid() && b.Valid() && b.pn.Length == pn.Length
      ensures r == if Value() < b.Value() then -1 else if Value() > b.Value() then 1 else 0
    {
      var i := pn.Length;
      while i > 0
        invariant 0 <= i <= pn.Length
        invariant pn[i..] == b.pn[i..]
      {
        i := i - 1;
        if pn[i] < b.pn[i] {
          HigherLimbDecides(pn[..], b.pn[..], i);
          return -1;
        }
        if pn[i] > b.pn[i] {
          HigherLimbDecides(b.pn[..], pn[..], i);
          return 1;
        }
        assert pn[i..] == [pn[i]] + pn[i + 1..] && b.pn[i..] == [b.pn[i]] + b.pn[i + 1..];
      }
      assert pn[..] == b.pn[..];
      return 0;
    }

    /** bits(): one more than the position of the highest set bit, or zero. */
    method Bits() returns (r: nat)
      requires Valid()
      ensures r <= 32 * pn.Length
      ensures if r == 0 then Value() == 0 else Pow2(r - 1) <= Value() < Pow2(r)
    {
      var pos := pn.Length;
      while pos > 0
        invariant 0 <= pos <= pn.Length
        invariant forall j | pos <= j < pn.Length :: pn[j] == 0
      {
        pos := pos - 1;
        if pn[pos] != 0 {
          var b := HighBit(pn[pos]);
          TopLimb(pn[..], pos, b);
          return 32 * pos + b + 1;
        }
      }
      ValZero(pn[..]);
      return 0;
    }

    method SetZero()
      modifies pn
      ensures forall j | 0 <= j < pn.Length :: pn[j] == 0
    {
      for i := 0 to pn.Length
        invariant forall j | 0 <= j < i :: pn[j] == 0
      {
        pn[i] := 0;
      }
    }

    /** operator<<= : multiplication by 2^shift modulo 2^BITS. */
    method ShiftLeft(shift: nat)
      requires Valid()
      modifies pn
      ensures Valid() && Value() == old(Value()) * Pow2(shift) % Modulus()
    {
      var a := pn[..];
      var k, s := shift / 32, shift % 32;
      SetZero();
      for i := 0 to pn.Length
        invariant LeftDone(pn[..], a, k, s, i)
      {
        ScatterLeft(a, k, s, i);
      }
      LeftComplete(pn[..], a, k, s);
      ShiftLeftValue(a, k, s, shift);
    }

    /** One iteration of operator<<=. */
    method ScatterLeft(a: seq<int>, k: nat, s: nat, i: nat)
      requires Limbs(a) && s < 32 && i < pn.Length == |a| && LeftDone(pn[..], a, k, s, i)
      modifies pn
      ensures LeftDone(pn[..], a, k, s, i + 1)
    {
      MoveAlone(a[i], s);
      if i > 0 { StayMove(a[i - 1], s); }
      StayAndMove(a[i], CarryOut(a, i, s), s);
      if i + k + 1 < pn.Length && s != 0 {
        pn[i + k + 1] := BitOr(pn[i + k + 1], Move(a[i], s));
      }
      if i + k < pn.Length {
        pn[i + k] := BitOr(pn[i + k], Stay(a[i], s));
      }
    }

    /** operator>>= : division by 2^shift. */
    method ShiftRight(shift: nat)
      requires Valid()
      modifies pn
      ensures Valid() && Value() == old(Value()) / Pow2(shift)
    {
      var a := pn[..];
      var k, s := shift / 32, shift % 32;
      SetZero();
      for i := 0 to pn.Length
        invariant RightDone(pn[..], a, k, s, i)
      {
        ScatterRight(a, k, s, i);
      }
      RightComplete(pn[..], a, k, s);
      ShiftRightValue(a, k, s, shift);
    }

    /** One iteration of operator>>=. */
    method ScatterRight(a: seq<int>, k: nat, s: nat, i: nat)
      requires Limbs(a) && s < 32 && i < pn.Length == |a| && RightDone(pn[..], a, k, s, i)
      modifies pn
      ensures RightDone(pn[..], a, k, s, i + 1)
    {
      FallMove(a[i], s);
      if i - k - 1 >= 0 {
        FallMove(a[i - 1], s);
        FallAndStay(a[i], a[i - 1] / Pow2(s), s);
        if s != 0 {
          pn[i - k - 1] := BitOr(pn[i - k - 1], a[i] * Pow2(32 - s) % BASE);
        }
      }
      if i - k >= 0 {
        BitOrZero(a[i] / Pow2(s));
        BitOrComm(0, a[i] / Pow2(s));
        pn[i - k] := BitOr(pn[i - k], a[i] / Pow2(s));
      }
    }

    /** operator*=(uint32_t). */
    method MultiplySmall(b32: int)
      requires Valid() && 0 <= b32 < BASE
      modifies pn
      ensures Valid() && Value() == old(Value()) * b32 % Modulus()
    {
      ghost var x := pn[..];
      var carry := 0;
      for i := 0 to pn.Length
        invariant 0 <= carry < BASE && SmallDone(pn[..], x, i, b32, carry)
      {
        ghost var before := pn[..];
        SmallStep(before, x, i, b32, carry);
        var n := carry + b32 * pn[i];
        pn[i] := n % BASE;
        assert pn[..] == before[i := n % BASE];
        carry := n / BASE;
      }
      SmallEnd(pn[..], x, b32, carry);
    }

    /**
     * operator*= : the product modulo 2^BITS, unless b is this very object.  The product is
     * built up in this object after its limbs are cleared, so x *= x yields zero.
     */
    method Multiply(b: BaseUint)
      requires Valid() && b.Valid() && b.pn.Length == pn.Length
      modifies pn
      ensures Valid()
      ensures b.pn != pn ==> Value() == old(Value()) * old(b.Value()) % Modulus()
      ensures b.pn == pn ==> Value() == 0
    {
      var a := pn[..];
      ghost var y := b.pn[..];
      SetZero();
      ValZero(pn[..]);
      FinishExact(pn[..], 0);
      for j := 0 to pn.Length
        invariant Valid()
        invariant b.pn != pn ==> Val(pn[..]) == Val(a[..j]) * Val(y) % Modulus() && b.pn[..] == y
        invariant b.pn == pn ==> forall i | 0 <= i < pn.Length :: pn[i] == 0
      {
        MultiplyRow(a[j], j, b);
        RowAdds(a, y, j, Modulus());
      }
      assert a[..pn.Length] == a;
      if b.pn == pn { ValZero(pn[..]); }
    }

    /** One squared in place: the result is zero. */
    static method SquareOfOne(width: nat) returns (x: BaseUint, ghost before: int)
      requires width >= 2
      ensures fresh(x) && x.Valid() && before == 1 && x.Value() == 0
    {
      x := new BaseUint(width, 1);
      before := x.Value();
      x.Multiply(x);
    }

    /** The inner loop of operator*= : add a multiple of b, j limbs up. */
    method MultiplyRow(aj: int, j: nat, b: BaseUint)
      requires Valid() && b.Valid() && b.pn.Length == pn.Length && 0 <= aj < BASE && j < pn.Length
      requires b.pn == pn ==> forall i | 0 <= i < pn.Length :: pn[i] == 0
      modifies pn
      ensures Valid()
      ensures b.pn != pn ==> Value() == (old(Value()) + RowSum(aj, b.pn[..], j)) % Modulus()
      ensures b.pn == pn ==> forall i | 0 <= i < pn.Length :: pn[i] == 0
    {
      ghost var x, y := pn[..], b.pn[..];
      var carry := RowLoop(aj, j, b);
      if b.pn != pn {
        ghost var c := RowEndSum(pn[..], x, y, aj, j, carry);
        Finish(pn[..], c, Val(x) + RowSum(aj, y, j));
      }
    }

    method RowLoop(aj: int, j: nat, b: BaseUint) returns (carry: int)
      requires Valid() && b.Valid() && b.pn.Length == pn.Length && 0 <= aj < BASE && j < pn.Length
      requires b.pn == pn ==> forall i | 0 <= i < pn.Length :: pn[i] == 0
      modifies pn
      ensures RowState(pn[..], b.pn[..], old(pn[..]), old(b.pn[..]), aj, j, pn.Length - j, carry, b.pn == pn)
    {
      ghost var x, y, same := pn[..], b.pn[..], b.pn == pn;
      carry := 0;
      var i := 0;
      while i + j < pn.Length
        invariant 0 <= i && i + j <= pn.Length
        invariant RowState(pn[..], b.pn[..], x, y, aj, j, i, carry, same)
      {
        ghost var before := pn[..];
        RowNext(before, b.pn[..], x, y, aj, j, i, carry, same);
        var n := carry + pn[i + j] + aj * b.pn[i];
        pn[i + j] := n % BASE;
        assert pn[..] == before[i + j := n % BASE];
        carry := n / BASE;
        i := i + 1;
      }
    }

    /**
     * operator/= : the quotient, by shifting the divisor down from the top.  Division by zero
     * is reported after this object has been cleared.  b may be this object itself.
     */
    method Divide(b: BaseUint) returns (ok: bool)
      requires Valid() && b.Valid() && b.pn.Length == pn.Length
      modifies pn
      ensures Valid()
      ensures ok <==> old(b.Value()) != 0
      ensures ok ==> Value() == old(Value()) / old(b.Value())
      ensures !ok ==> Value() == 0
    {
      ghost var n, d := Value(), b.Value();
      var div := new BaseUint.Copy(b);
      var num := new BaseUint.Copy(this);
      SetZero();
      ValZero(pn[..]);
      var numBits := num.Bits();
      var divBits := div.Bits();
      if divBits == 0 {
        return false;
      }
      if divBits > numBits {
        QuotientZero(n, d, numBits, divBits);
        return true;
      }
      var shift := numBits - divBits;
      AlignedFits(n, d, numBits, divBits, pn.Length);
      div.ShiftLeft(shift);
      DividingStart(pn[..], num.pn[..], div.pn[..], n, d, shift);
      DivideLoop(num, div, shift, n, d);
      return true;
    }

    /** The loop of operator/= : one quotient bit after the other, from the top. */
    method DivideLoop(num: BaseUint, div: BaseUint, top: nat, ghost n: int, ghost d: int)
      requires top < 32 * pn.Length && d > 0
      requires num.pn.Length == div.pn.Length == pn.Length
      requires num.pn != pn && div.pn != pn && num.pn != div.pn
      requires Dividing(pn[..], num.pn[..], div.pn[..], n, d, top + 1)
      modifies pn, num.pn, div.pn
      ensures Valid() && Value() == n / d
    {
      var shift := top;
      while shift >= 0
        invariant -1 <= shift <= top
        invariant Dividing(pn[..], num.pn[..], div.pn[..], n, d, shift + 1)
        decreases shift
      {
        DivideStep(num, div, shift, n, d);
        shift := shift - 1;
      }
      DivModUnique(n, d, Value(), num.Value());
    }

    /** One iteration of the loop of operator/=. */
    method DivideStep(num: BaseUint, div: BaseUint, shift: nat, ghost n: int, ghost d: int)
      requires shift < 32 * pn.Length && d > 0
      requires num.pn.Length == div.pn.Length == pn.Length
      requires num.pn != pn && div.pn != pn && num.pn != div.pn
      requires Dividing(pn[..], num.pn[..], div.pn[..], n, d, shift + 1)
      modifies pn, num.pn, div.pn
      ensures Dividing(pn[..], num.pn[..], div.pn[..], n, d, shift)
    {
      ghost var q, r := Val(pn[..]), Val(num.pn[..]);
      var c := num.CompareTo(div);
      if c >= 0 {
        num.Subtract(div);
        NoBorrow(old(num.pn[..]), old(div.pn[..]));
        SetBit(shift);
      } else {
        ClearLess(pn[..], shift);
      }
      div.ShiftRight(1);
      DivideArith(q, r, Val(old(div.pn[..])), n, d, shift);
      ValBound(num.pn[..]);
    }

    /** Sets a bit below which everything is clear. */
    method SetBit(shift: nat)
      requires Valid() && shift < 32 * pn.Length && LowClear(pn[..], shift + 1)
      modifies pn
      ensures Valid() && LowClear(pn[..], shift) && Value() == old(Value()) + Pow2(shift)
    {
      ghost var before := pn[..];
      BitIsClear(pn[..], shift);
      pn[shift / 32] := BitOr(pn[shift / 32], Pow2(shift % 32));
      assert pn[..] == before[shift / 32 := before[shift / 32] + Pow2(shift % 32)];
    }

    /** operator=(uint64_t) */
    method SetLow(b: nat)
      requires pn.Length >= 2 && b < 0x1_0000_0000_0000_0000
      modifies pn
      ensures Valid() && Value() == b
    {
      SetZero();
      pn[0] := b % BASE;
      pn[1] := b / BASE;
      LowValue(pn[..], b);
    }

    /** GetLow64: the two low limbs. */
    method GetLow64() returns (r: nat)
      requires Valid() && pn.Length >= 2
      ensures r == Value() % (BASE * BASE)
    {
      r := pn[0] + pn[1] * BASE;
      LowLimbs(pn[..]);
    }
  }

  /** A 64-bit intermediate never overflows and leaves a one-limb carry. */
  lemma MulFits(carry: int, a: int, b: int, d: int)
    requires 0 <= carry < BASE && 0 <= a < BASE && 0 <= b < BASE && 0 <= d < BASE
    ensures 0 <= carry + d + a * b < BASE * BASE
    ensures 0 <= (carry + d + a * b) / BASE < BASE
  {
    MulMono(a, BASE - 1, b);
    MulMono(b, BASE - 1, BASE - 1);
    assert (BASE - 1) * b == b * (BASE - 1);
    MulMono(0, a, b);
  }

  ghost predicate SmallDone(r: seq<int>, x: seq<int>, i: nat, b: int, carry: int) {
    && i <= |r| == |x| && Limbs(r) && (forall j | i <= j < |r| :: r[j] == x[j])
    && Val(r[..i]) + carry * Pow(BASE, i) == Val(x[..i]) * b
  }

  lemma SmallStep(r: seq<int>, x: seq<int>, i: nat, b: int, carry: int)
    requires i < |r| && SmallDone(r, x, i, b, carry) && 0 <= b < BASE && 0 <= carry < BASE
    ensures var n := carry + b * r[i]; 0 <= n / BASE < BASE && SmallDone(r[i := n % BASE], x, i + 1, b, n / BASE)
  {
    var n, p := carry + b * r[i], Pow(BASE, i);
    var r' := r[i := n % BASE];
    MulFits(carry, b, r[i], 0);
    ValStep(r', i);
    assert r'[..i] == r[..i];
    ValStep(x, i);
    CarryStep(n, p);
    SmallScale(Val(x[..i]), x[i], b, carry, p);
  }

  lemma SmallScale(v: int, d: int, b: int, carry: int, p: int)
    ensures (carry + b * d) * p == carry * p + d * p * b && (v + d * p) * b == v * b + d * p * b
  {
    MulDist(carry, b * d, p);
    MulDist(v, d * p, b);
    MulAssoc(b, d, p);
  }

  lemma SmallEnd(r: seq<int>, x: seq<int>, b: int, carry: int)
    requires SmallDone(r, x, |r|, b, carry)
    ensures Val(r) == Val(x) * b % Pow(BASE, |r|)
  {
    assert r[..|r|] == r && x[..|r|] == x;
    Finish(r, carry, Val(x) * b);
  }

  /** aj times the number y, j limbs up, limb by limb. */
  ghost function RowSum(aj: int, y: seq<int>, j: nat): int {
    if y == [] then 0 else RowSum(aj, y[..|y| - 1], j) + aj * y[|y| - 1] * Pow(BASE, |y| - 1 + j)
  }

  lemma {:induction false} RowSumValue(aj: int, y: seq<int>, j: nat)
    ensures RowSum(aj, y, j) == aj * Val(y) * Pow(BASE, j)
  {
    if y != [] {
      var n := |y| - 1;
      RowSumValue(aj, y[..n], j);
      PowAdd(BASE, n, j);
      RowScale(aj, Val(y[..n]), y[n], Pow(BASE, n), Pow(BASE, j));
    }
  }

  lemma RowScale(a: int, v: int, d: int, pi: int, pj: int)
    ensures a * (v + d * pi) * pj == a * v * pj + a * d * (pi * pj)
  {
    assert a * (v + d * pi) == a * v + a * (d * pi) by { MulDist(v, d * pi, a); }
    MulDist(a * v, a * (d * pi), pj);
    MulAssoc(a, d, pi);
    MulAssoc(a * d, pi, pj);
  }

  /** The limbs of y beyond k contribute a multiple of the modulus. */
  lemma RowSumSplit(aj: int, y: seq<int>, j: nat, k: nat) returns (q: int)
    requires |y| == k + j
    ensures RowSum(aj, y, j) == RowSum(aj, y[..k], j) + q * Pow(BASE, |y|)
  {
    q := aj * Val(y[k..]);
    RowSumValue(aj, y, j);
    RowSumValue(aj, y[..k], j);
    ValSplit(y, k);
    PowAdd(BASE, k, j);
    RowScale(aj, Val(y[..k]), Val(y[k..]), Pow(BASE, k), Pow(BASE, j));
  }

  ghost predicate RowDone(r: seq<int>, x: seq<int>, y: seq<int>, aj: int, j: nat, i: nat, carry: int)
    requires |r| == |x| == |y| && i + j <= |r|
  {
    && (forall m | i + j <= m < |r| :: r[m] == x[m])
    && Val(r[..i + j]) + carry * Pow(BASE, i + j) == Val(x[..i + j]) + RowSum(aj, y[..i], j)
  }

  lemma RowStep(r: seq<int>, x: seq<int>, y: seq<int>, aj: int, j: nat, i: nat, carry: int, n: int)
    requires |r| == |x| == |y| && i + j < |r| && RowDone(r, x, y, aj, j, i, carry)
    requires n == carry + r[i + j] + aj * y[i]
    ensures RowDone(r[i + j := n % BASE], x, y, aj, j, i + 1, n / BASE)
  {
    var p, r' := Pow(BASE, i + j), r[i + j := n % BASE];
    ValStep(r', i + j);
    assert r'[..i + j] == r[..i + j];
    ValStep(x, i + j);
    assert y[..i + 1][..i] == y[..i];
    CarryStep(n, p);
    MulDist(carry, x[i + j], p);
    MulDist(carry + x[i + j], aj * y[i], p);
  }

  /** The state of the inner loop; when b is the same array everything stays zero. */
  ghost predicate RowState(r: seq<int>, b: seq<int>, x: seq<int>, y: seq<int>, aj: int, j: nat, i: nat, carry: int,
                           same: bool)
  {
    && |r| == |b| == |x| == |y| && i + j <= |r| && Limbs(r) && Limbs(b) && 0 <= carry < BASE
    && if same then carry == 0 && b == r && forall m | 0 <= m < |r| :: r[m] == 0
       else b == y && RowDone(r, x, y, aj, j, i, carry)
  }

  lemma RowNext(r: seq<int>, b: seq<int>, x: seq<int>, y: seq<int>, aj: int, j: nat, i: nat, carry: int, same: bool)
    requires RowState(r, b, x, y, aj, j, i, carry, same) && i + j < |r| && 0 <= aj < BASE
    ensures var n := carry + r[i + j] + aj * b[i]; var r' := r[i + j := n % BASE];
            RowState(r', if same then r' else b, x, y, aj, j, i + 1, n / BASE, same)
  {
    var n := carry + r[i + j] + aj * b[i];
    MulFits(carry, aj, b[i], r[i + j]);
    if !same { RowStep(r, x, y, aj, j, i, carry, n); }
  }

  lemma RowEndSum(r: seq<int>, x: seq<int>, y: seq<int>, aj: int, j: nat, carry: int) returns (c: int)
    requires |r| == |x| == |y| && j < |r| && RowDone(r, x, y, aj, j, |r| - j, carry)
    ensures Val(r) + c * Pow(BASE, |r|) == Val(x) + RowSum(aj, y, j)
  {
    var w, k := |r|, |r| - j;
    assert r[..w] == r && x[..w] == x;
    var q := RowSumSplit(aj, y, j, k);
    MulDist(carry, q, Pow(BASE, w));
    c := carry + q;
  }

  lemma RowAdds(a: seq<int>, y: seq<int>, j: nat, m: int)
    requires j < |a| && m > 0
    ensures (Val(a[..j]) * Val(y) % m + RowSum(a[j], y, j)) % m == Val(a[..j + 1]) * Val(y) % m
  {
    var v, p := Val(y), Pow(BASE, j);
    ValStep(a, j);
    RowSumValue(a[j], y, j);
    ModAdd(Val(a[..j]) * v, RowSum(a[j], y, j), m);
    MulDist(Val(a[..j]), a[j] * p, v);
    assert a[j] * p * v == a[j] * v * p by { MulAssoc(a[j], p, v); MulAssoc(a[j], v, p); assert p * v == v * p; }
  }

  lemma FallAndStay(limb: int, stay: int, s: nat)
    requires 0 <= limb < BASE && s < 32 && 0 <= stay < Pow2(32 - s)
    ensures limb * Pow2(32 - s) % BASE >= 0
    ensures BitOr(stay, limb * Pow2(32 - s) % BASE) == stay + limb * Pow2(32 - s) % BASE
    ensures s == 0 ==> limb * Pow2(32 - s) % BASE == 0
  {
    FallMove(limb, s);
    MulMono(0, limb % Pow2(s), Pow2(32 - s));
    BitOrDisjoint(limb % Pow2(s), 32 - s, stay);
    BitOrComm(stay, limb * Pow2(32 - s) % BASE);
  }

  /** The state of operator>>= after i limbs: done below i - k - 1, the high part of limb i - 1 there, zero above. */
  ghost predicate RightDone(r: seq<int>, a: seq<int>, k: nat, s: nat, i: nat)
    requires s < 32 && i <= |a|
  {
    && |r| == |a|
    && (forall j | 0 <= j < i - k - 1 :: r[j] == ShiftedRight(a, k, s)[j])
    && (i - k - 1 >= 0 ==> r[i - k - 1] == a[i - 1] / Pow2(s))
    && (forall j | 0 <= j < |r| && i - k <= j :: r[j] == 0)
  }

  lemma LeftComplete(r: seq<int>, a: seq<int>, k: nat, s: nat)
    requires Limbs(a) && s < 32 && LeftDone(r, a, k, s, |a|)
    ensures r == ShiftedLeft(a, k, s) && Limbs(r)
  {
    ShiftedLeftLimbs(a, k, s);
  }

  lemma RightComplete(r: seq<int>, a: seq<int>, k: nat, s: nat)
    requires Limbs(a) && s < 32 && RightDone(r, a, k, s, |a|)
    ensures r == ShiftedRight(a, k, s) && Limbs(r)
  {
    ShiftedRightLimbs(a, k, s);
  }

  /** The state of operator<<= after i limbs: done below i + k, the moved bits at i + k, zero above. */
  ghost predicate LeftDone(r: seq<int>, a: seq<int>, k: nat, s: nat, i: nat)
    requires s < 32 && i <= |a|
  {
    && |r| == |a|
    && (forall j | 0 <= j < |r| && j < i + k :: r[j] == ShiftedLeft(a, k, s)[j])
    && (i + k < |r| ==> r[i + k] == CarryOut(a, i, s))
    && (forall j | i + k < j < |r| :: r[j] == 0)
  }

  lemma MoveAlone(limb: int, s: nat)
    requires 0 <= limb < BASE && s < 32
    ensures Move(limb, s) >= 0 && BitOr(0, Move(limb, s)) == Move(limb, s)
    ensures s == 0 ==> Move(limb, s) == 0
  {
    StayMove(limb, s);
    BitOrZero(Move(limb, s));
    BitOrComm(0, Move(limb, s));
  }

  lemma StayAndMove(limb: int, moved: int, s: nat)
    requires 0 <= limb < BASE && s < 32
    ensures 0 <= moved < Pow2(s) ==> Stay(limb, s) >= 0 && BitOr(moved, Stay(limb, s)) == Stay(limb, s) + moved
  {
    StayMove(limb, s);
    if 0 <= moved < Pow2(s) {
      BitOrDisjoint(limb % Pow2(32 - s), s, moved);
      BitOrComm(moved, Stay(limb, s));
    }
  }

  /** The inner loop of bits(): the position of the highest set bit of a non-zero limb. */
  method HighBit(limb: int) returns (b: nat)
    requires 0 < limb < BASE
    ensures b < 32 && Pow2(b) <= limb < Pow2(b + 1)
  {
    Pow2Of32();
    b := 31;
    while b > 0
      invariant 0 <= b <= 31 && limb < Pow2(b + 1)
    {
      TestBit(limb, b);
      if limb / Pow2(b) % 2 == 1 {
        return b;
      }
      b := b - 1;
    }
  }

  lemma Pow2Of32()
    ensures Pow2(32) == BASE
  {
    assert Pow2(8) == 256;
    Pow2Add(8, 8);
    Pow2Add(16, 16);
  }

  /** The highest bit that can be set decides between two ranges. */
  lemma TestBit(x: nat, b: nat)
    requires x < Pow2(b + 1)
    ensures x / Pow2(b) % 2 == 1 <==> Pow2(b) <= x
  {
    var p := Pow2(b);
    if x < p {
      DivModUnique(x, p, 0, x);
    } else {
      DivModUnique(x, p, 1, x - p);
    }
  }

  lemma {:induction false} PowBase(n: nat)
    ensures Pow(BASE, n) == Pow2(32 * n)
  {
    if n > 0 {
      PowBase(n - 1);
      Pow2Of32();
      Pow2Add(32, 32 * (n - 1));
    }
  }

  lemma TopLimb(s: seq<int>, pos: nat, b: nat)
    requires Limbs(s) && pos < |s| && (forall j | pos < j < |s| :: s[j] == 0) && Pow2(b) <= s[pos] < Pow2(b + 1)
    ensures Pow2(32 * pos + b) <= Val(s) < Pow2(32 * pos + b + 1)
  {
    var p := Pow(BASE, pos);
    ValTrim(s, pos + 1);
    ValStep(s, pos);
    ValBound(s[..pos]);
    PowBase(pos);
    Pow2Add(b, 32 * pos);
    Pow2Add(b + 1, 32 * pos);
    MulMono(Pow2(b), s[pos], p);
    MulMono(s[pos] + 1, Pow2(b + 1), p);
    MulDist(s[pos], 1, p);
  }

  /** Limbs 0..i hold the sum so far; a carry is still due exactly when limb i became zero. */
  ghost predicate Decremented(r: seq<int>, x: seq<int>, i: nat)
    requires i < |r| == |x|
  {
    && Limbs(r)
    && (forall j | i < j < |r| :: r[j] == x[j])
    && Val(r[..i + 1]) - (if r[i] == BASE - 1 then Pow(BASE, i + 1) else 0) == Val(x[..i + 1]) - 1
  }

  lemma DecrementLimb(d: int, p: int)
    requires 0 <= d < BASE
    ensures (d - 1) % BASE * p - (if (d - 1) % BASE == BASE - 1 then BASE * p else 0) == d * p - p
  {
    if d == 0 {
      DivModUnique(-1, BASE, -1, BASE - 1);
      MulDist(BASE, -1, p);
    } else {
      DivModUnique(d - 1, BASE, 0, d - 1);
      MulDist(d, -1, p);
    }
  }

  lemma DecrementFirst(x: seq<int>)
    requires Limbs(x) && x != []
    ensures Decremented(x[0 := (x[0] - 1) % BASE], x, 0)
  {
    var r := x[0 := (x[0] - 1) % BASE];
    ValStep(r, 0);
    ValStep(x, 0);
    DecrementLimb(x[0], 1);
  }

  lemma DecrementStep(r: seq<int>, x: seq<int>, i: nat)
    requires 0 < i < |r| == |x| && Decremented(r, x, i - 1) && r[i - 1] == BASE - 1
    ensures Decremented(r[i := (r[i] - 1) % BASE], x, i)
  {
    var r' := r[i := (r[i] - 1) % BASE];
    ValStep(r', i);
    assert r'[..i] == r[..i];
    ValStep(x, i);
    DecrementLimb(x[i], Pow(BASE, i));
  }

  lemma DecrementDone(r: seq<int>, x: seq<int>, i: nat)
    requires i < |r| == |x| && Limbs(x) && Decremented(r, x, i) && (r[i] != BASE - 1 || i == |r| - 1)
    ensures Val(r) == (Val(x) - 1) % Pow(BASE, |r|)
  {
    ValSplit(r, i + 1);
    ValSplit(x, i + 1);
    assert r[i + 1..] == x[i + 1..];
    ValBound(r);
    var borrow := if i == |r| - 1 && r[i] == BASE - 1 then 1 else 0;
    assert Val(x) - 1 == Val(r) + (-borrow) * Pow(BASE, |r|);
    Reduce(Val(x) - 1, Val(r), -borrow, Pow(BASE, |r|));
  }

  ghost predicate Incremented(r: seq<int>, x: seq<int>, i: nat)
    requires i < |r| == |x|
  {
    && Limbs(r)
    && (forall j | i < j < |r| :: r[j] == x[j])
    && Val(r[..i + 1]) + (if r[i] == 0 then Pow(BASE, i + 1) else 0) == Val(x[..i + 1]) + 1
  }

  lemma IncrementLimb(d: int, p: int)
    requires 0 <= d < BASE
    ensures (d + 1) % BASE * p + (if (d + 1) % BASE == 0 then BASE * p else 0) == d * p + p
  {
    MulDist(d, 1, p);
  }

  lemma IncrementFirst(x: seq<int>)
    requires Limbs(x) && x != []
    ensures Incremented(x[0 := (x[0] + 1) % BASE], x, 0)
  {
    var r := x[0 := (x[0] + 1) % BASE];
    ValStep(r, 0);
    ValStep(x, 0);
    IncrementLimb(x[0], 1);
  }

  lemma IncrementStep(r: seq<int>, x: seq<int>, i: nat)
    requires 0 < i < |r| == |x| && Incremented(r, x, i - 1) && r[i - 1] == 0
    ensures Incremented(r[i := (r[i] + 1) % BASE], x, i)
  {
    var r' := r[i := (r[i] + 1) % BASE];
    ValStep(r', i);
    assert r'[..i] == r[..i];
    ValStep(x, i);
    IncrementLimb(x[i], Pow(BASE, i));
  }

  lemma IncrementDone(r: seq<int>, x: seq<int>, i: nat)
    requires i < |r| == |x| && Limbs(x) && Incremented(r, x, i) && (r[i] != 0 || i == |r| - 1)
    ensures Val(r) == (Val(x) + 1) % Pow(BASE, |r|)
  {
    if r[i] == 0 {
      assert r[..i + 1] == r && x[..i + 1] == x;
      FinishWrapped(r, Val(x) + 1);
    } else {
      TopUnchanged(r, x, i + 1);
    }
  }

  lemma FinishWrapped(r: seq<int>, total: int)
    requires Limbs(r) && Val(r) + Pow(BASE, |r|) == total
    ensures Val(r) == total % Pow(BASE, |r|)
  {
    ValBound(r);
    Reduce(total, Val(r), 1, Pow(BASE, |r|));
  }

  lemma FinishExact(r: seq<int>, total: int)
    requires Limbs(r) && Val(r) == total
    ensures Val(r) == total % Pow(BASE, |r|)
  {
    ValBound(r);
    Reduce(total, Val(r), 0, Pow(BASE, |r|));
  }

  lemma TopUnchanged(r: seq<int>, x: seq<int>, k: nat)
    requires |r| == |x| && k <= |r| && Limbs(r) && forall j | k <= j < |r| :: r[j] == x[j]
    requires Val(r[..k]) == Val(x[..k]) + 1
    ensures Val(r) == (Val(x) + 1) % Pow(BASE, |r|)
  {
    SameTop(r, x, k);
    FinishExact(r, Val(x) + 1);
  }

  lemma SameTop(r: seq<int>, x: seq<int>, k: nat)
    requires |r| == |x| && k <= |r| && forall j | k <= j < |r| :: r[j] == x[j]
    ensures Val(r) - Val(r[..k]) == Val(x) - Val(x[..k])
  {
    ValSplit(r, k);
    ValSplit(x, k);
    assert r[k..] == x[k..];
  }

  lemma {:induction false} ValComplement(s: seq<int>, t: seq<int>)
    requires |s| == |t| && forall i | 0 <= i < |s| :: t[i] == BASE - 1 - s[i]
    ensures Val(s) + Val(t) == Pow(BASE, |s|) - 1
  {
    if s != [] {
      var n := |s| - 1;
      ValComplement(s[..n], t[..n]);
      MulDist(s[n], t[n], Pow(BASE, n));
      assert (s[n] + t[n]) * Pow(BASE, n) == (BASE - 1) * Pow(BASE, n);
      MulDist(BASE - 1, 1, Pow(BASE, n));
    }
  }

  lemma SubtractMod(x: int, y: int, m: int)
    requires m > 0
    ensures (x + (m - y) % m) % m == (x - y) % m
  {
    var q, r := (m - y) / m, (m - y) % m;
    assert m - y == q * m + r;
    MulDist(1, -q, m);
    assert x + r == (x - y) + (1 - q) * m;
    ModShift(x - y, 1 - q, m);
  }

  lemma HigherLimbDecides(a: seq<int>, b: seq<int>, i: nat)
    requires |a| == |b| && i < |a| && Limbs(a) && Limbs(b) && a[i] < b[i] && a[i + 1..] == b[i + 1..]
    ensures Val(a) < Val(b)
  {
    var p := Pow(BASE, i);
    ValSplit(a, i + 1);
    ValSplit(b, i + 1);
    ValStep(a, i);
    ValStep(b, i);
    ValBound(a[..i]);
    ValBound(b[..i]);
    MulMono(a[i] + 1, b[i], p);
    MulDist(a[i], 1, p);
  }

  ghost predicate AddDone(r: seq<int>, x: seq<int>, y: seq<int>, i: nat, carry: int) {
    && i <= |r| == |x| == |y| && Limbs(r) && Limbs(y) && 0 <= carry <= 1
    && (forall j | i <= j < |r| :: r[j] == x[j])
    && Val(r[..i]) + carry * Pow(BASE, i) == Val(x[..i]) + Val(y[..i])
  }

  lemma AddStep(r: seq<int>, x: seq<int>, y: seq<int>, i: nat, carry: int)
    requires i < |r| && AddDone(r, x, y, i, carry)
    ensures var n := carry + r[i] + y[i]; AddDone(r[i := n % BASE], x, y, i + 1, n / BASE)
  {
    var n, p := carry + r[i] + y[i], Pow(BASE, i);
    var r' := r[i := n % BASE];
    ValStep(x, i);
    ValStep(y, i);
    ValStep(r', i);
    assert r'[..i] == r[..i];
    CarryStep(n, p);
    AddScale(carry, x[i], y[i], p);
  }

  lemma AddWhole(r: seq<int>, x: seq<int>, y: seq<int>, carry: int)
    requires AddDone(r, x, y, |r|, carry)
    ensures Val(r) + carry * Pow(BASE, |r|) == Val(x) + Val(y)
  {
    assert r[..|r|] == r && x[..|r|] == x && y[..|r|] == y;
  }

  lemma AddScale(a: int, b: int, c: int, p: int)
    ensures (a + b + c) * p == a * p + b * p + c * p
  {
    MulDist(a, b, p);
    MulDist(a + b, c, p);
  }

  lemma Finish(r: seq<int>, carry: int, total: int)
    requires Limbs(r) && Val(r) + carry * Pow(BASE, |r|) == total
    ensures Val(r) == total % Pow(BASE, |r|)
  {
    ValBound(r);
    Reduce(total, Val(r), carry, Pow(BASE, |r|));
  }

  lemma LowValue(s: seq<int>, b: nat)
    requires |s| >= 2 && s[0] == b % BASE && s[1] == b / BASE && forall i | 2 <= i < |s| :: s[i] == 0
    ensures Val(s) == b
  {
    ValSplit(s, 2);
    ValZero(s[2..]);
    assert s[..2][..1] == [s[0]] && s[..2][..1][..0] == [];
    assert Val(s[..2]) == s[0] * Pow(BASE, 0) + s[1] * Pow(BASE, 1);
  }

  // ----- shifts -----

  /** The bits of a limb that stay in it, and those that move to the next one, when shifting left by s < 32. */
  function Stay(limb: int, s: nat): int { limb * Pow2(s) % BASE }
  function Move(limb: int, s: nat): int
    requires s < 32
  {
    limb / Pow2(32 - s)
  }

  /** Splitting a product by e with e * f == BASE: quotient and remainder by f become the two parts. */
  lemma SplitProduct(limb: int, e: nat, f: nat)
    requires 0 <= limb < BASE && e > 0 && f > 0 && f * e == BASE
    ensures limb * e % BASE == limb % f * e && limb * e / BASE == limb / f
    ensures 0 <= limb / f < e
  {
    var q, r := limb / f, limb % f;
    assert limb == q * f + r;
    MulDist(q * f, r, e);
    MulAssoc(q, f, e);
    MulMono(r + 1, f, e);
    MulDist(r, 1, e);
    MulMono(0, r, e);
    DivModUnique(limb * e, BASE, q, r * e);
    assert e * f == f * e;
    if q >= e { MulMono(e, q, f); }
    if q < 0 { MulMono(q, -1, f); }
  }

  lemma StayMove(limb: int, s: nat)
    requires 0 <= limb < BASE && s < 32
    ensures limb * Pow2(s) == Stay(limb, s) + Move(limb, s) * BASE
    ensures 0 <= Stay(limb, s) < BASE && 0 <= Move(limb, s) < Pow2(s)
    ensures Stay(limb, s) == limb % Pow2(32 - s) * Pow2(s)
  {
    Pow2Of32();
    Pow2Add(32 - s, s);
    SplitProduct(limb, Pow2(s), Pow2(32 - s));
  }

  /** The limbs after operator<<=. */
  function ShiftedLeft(a: seq<int>, k: nat, s: nat): (r: seq<int>)
    requires s < 32
    ensures |r| == |a|
  {
    seq(|a|, j requires 0 <= j < |a| =>
      (if j >= k then Stay(a[j - k], s) else 0) + (if j >= k + 1 then Move(a[j - k - 1], s) else 0))
  }

  ghost function CarryOut(a: seq<int>, t: nat, s: nat): int
    requires t <= |a| && s < 32
  {
    if t == 0 then 0 else Move(a[t - 1], s)
  }

  lemma ShiftStep(a: seq<int>, k: nat, s: nat, t: nat, p: int)
    requires Limbs(a) && s < 32 && t < |a|
    ensures CarryOut(a, t, s) * p + a[t] * Pow2(s) * p ==
      (Stay(a[t], s) + CarryOut(a, t, s)) * p + CarryOut(a, t + 1, s) * (BASE * p)
  {
    StayMove(a[t], s);
    var stay, move := Stay(a[t], s), Move(a[t], s);
    MulDist(stay, move * BASE, p);
    MulAssoc(move, BASE, p);
    MulDist(stay, CarryOut(a, t, s), p);
  }

  /** The low limbs of the result, with the bits that move on, are the shifted low limbs of the argument. */
  lemma {:induction false} ShiftPrefix(a: seq<int>, k: nat, s: nat, t: nat)
    requires Limbs(a) && s < 32 && t + k <= |a|
    ensures Val(ShiftedLeft(a, k, s)[..t + k]) + CarryOut(a, t, s) * Pow(BASE, t + k) ==
      Val(a[..t]) * (Pow2(s) * Pow(BASE, k))
  {
    var r, e := ShiftedLeft(a, k, s), Pow2(s) * Pow(BASE, k);
    if t == 0 {
      ValZero(r[..k]);
    } else {
      var u := t - 1;
      var p := Pow(BASE, u + k);
      ShiftPrefix(a, k, s, u);
      ValStep(a, u);
      ValStep(r, u + k);
      assert r[u + k] == Stay(a[u], s) + CarryOut(a, u, s);
      ShiftStep(a, k, s, u, p);
      ShiftScale(Val(a[..u]), a[u], u, k, s);
    }
  }

  lemma ShiftScale(v: int, limb: int, u: nat, k: nat, s: nat)
    ensures (v + limb * Pow(BASE, u)) * (Pow2(s) * Pow(BASE, k)) ==
      v * (Pow2(s) * Pow(BASE, k)) + limb * Pow2(s) * Pow(BASE, u + k)
  {
    var e, pk, pu := Pow2(s), Pow(BASE, k), Pow(BASE, u);
    MulDist(v, limb * pu, e * pk);
    PowAdd(BASE, u, k);
    assert limb * pu * (e * pk) == limb * e * (pu * pk) by { Rearrange(limb, pu, e, pk); }
  }

  lemma Rearrange(a: int, b: int, c: int, d: int)
    ensures a * b * (c * d) == a * c * (b * d)
  {
    MulAssoc(a, b, c * d);
    MulAssoc(b, c, d);
    MulAssoc(c, b, d);
    assert b * c == c * b;
    MulAssoc(a, c, b * d);
  }

  lemma StayMoveFit(x: int, y: int, s: nat)
    requires 0 <= x < BASE && 0 <= y < BASE && s < 32
    ensures 0 <= Stay(x, s) + Move(y, s) < BASE
  {
    var e, f := Pow2(s), Pow2(32 - s);
    Pow2Of32();
    Pow2Add(32 - s, s);
    StayMove(x, s);
    StayMove(y, s);
    MulMono(x % f + 1, f, e);
    MulDist(x % f, 1, e);
  }

  lemma ShiftedLeftLimbs(a: seq<int>, k: nat, s: nat)
    requires Limbs(a) && s < 32
    ensures Limbs(ShiftedLeft(a, k, s))
  {
    forall j | 0 <= j < |a| ensures 0 <= ShiftedLeft(a, k, s)[j] < BASE {
      if j > k {
        StayMoveFit(a[j - k], a[j - k - 1], s);
      } else if j == k {
        StayMove(a[0], s);
      }
    }
  }

  lemma ShiftAmount(k: nat, s: nat, shift: nat)
    requires shift == 32 * k + s
    ensures Pow2(shift) == Pow2(s) * Pow(BASE, k)
  {
    PowBase(k);
    Pow2Add(s, 32 * k);
  }

  /** operator<<= multiplies by a power of two modulo 2^BITS. */
  lemma ShiftLeftValue(a: seq<int>, k: nat, s: nat, shift: nat)
    requires Limbs(a) && s < 32 && shift == 32 * k + s
    ensures Val(ShiftedLeft(a, k, s)) == Val(a) * Pow2(shift) % Pow(BASE, |a|)
  {
    var r, w, e := ShiftedLeft(a, k, s), |a|, Pow2(s) * Pow(BASE, k);
    ShiftAmount(k, s, shift);
    ShiftedLeftLimbs(a, k, s);
    ValBound(r);
    if k <= w {
      var q := ShiftedWithin(a, k, s);
      Reduce(Val(a) * e, Val(r), q, Pow(BASE, w));
    } else {
      ValZero(r);
      AllShiftedOut(Val(a), Pow2(s), k, w);
    }
  }

  lemma ShiftedWithin(a: seq<int>, k: nat, s: nat) returns (q: int)
    requires Limbs(a) && s < 32 && k <= |a|
    ensures Val(a) * (Pow2(s) * Pow(BASE, k)) == Val(ShiftedLeft(a, k, s)) + q * Pow(BASE, |a|)
  {
    var r, w := ShiftedLeft(a, k, s), |a|;
    ShiftPrefix(a, k, s, w - k);
    assert r[..w] == r;
    var over := DroppedLimbs(a, k, Pow2(s));
    q := CarryOut(a, w - k, s) + over;
    MulDist(CarryOut(a, w - k, s), over, Pow(BASE, w));
  }

  lemma AllShiftedOut(v: int, p: int, k: nat, w: nat)
    requires k > w
    ensures v * (p * Pow(BASE, k)) % Pow(BASE, w) == 0
  {
    PowAdd(BASE, k - w, w);
    var q := v * (p * Pow(BASE, k - w));
    MulAssoc(p, Pow(BASE, k - w), Pow(BASE, w));
    MulAssoc(v, p * Pow(BASE, k - w), Pow(BASE, w));
    Reduce(v * (p * Pow(BASE, k)), 0, q, Pow(BASE, w));
  }

  /** The limbs of a that are shifted out contribute a multiple of the modulus. */
  lemma DroppedLimbs(a: seq<int>, k: nat, e: int) returns (over: int)
    requires k <= |a|
    ensures Val(a) * (e * Pow(BASE, k)) == Val(a[..|a| - k]) * (e * Pow(BASE, k)) + over * Pow(BASE, |a|)
  {
    ValSplit(a, |a| - k);
    PowAdd(BASE, |a| - k, k);
    over := DroppedScale(Val(a), Val(a[..|a| - k]), Val(a[|a| - k..]), Pow(BASE, |a| - k), e, Pow(BASE, k), Pow(BASE, |a|));
  }

  lemma DroppedScale(v: int, low: int, high: int, p: int, e: int, pk: int, pw: int) returns (over: int)
    requires v == low + high * p && p * pk == pw
    ensures v * (e * pk) == low * (e * pk) + over * pw
  {
    over := high * e;
    MulDist(low, high * p, e * pk);
    Rearrange(high, p, e, pk);
  }

  // ----- right shift -----

  /** The limbs after operator>>=. */
  function ShiftedRight(a: seq<int>, k: nat, s: nat): (r: seq<int>)
    requires s < 32
    ensures |r| == |a|
  {
    seq(|a|, j requires 0 <= j < |a| =>
      (if j + k < |a| then a[j + k] / Pow2(s) else 0)
      + (if j + k + 1 < |a| then a[j + k + 1] * Pow2(32 - s) % BASE else 0))
  }

  /** A limb is its high part times 2^s plus the bits that move to the limb below. */
  lemma FallMove(limb: int, s: nat)
    requires 0 <= limb < BASE && s < 32
    ensures limb * Pow2(32 - s) % BASE == limb % Pow2(s) * Pow2(32 - s)
    ensures 0 <= limb / Pow2(s) < Pow2(32 - s) && 0 <= limb % Pow2(s) < Pow2(s)
    ensures limb == limb / Pow2(s) * Pow2(s) + limb % Pow2(s)
  {
    Pow2Of32();
    Pow2Add(s, 32 - s);
    SplitProduct(limb, Pow2(32 - s), Pow2(s));
    DivMod(limb, Pow2(s));
  }

  lemma ShiftedRightLimbs(a: seq<int>, k: nat, s: nat)
    requires Limbs(a) && s < 32
    ensures Limbs(ShiftedRight(a, k, s))
  {
    var e, f := Pow2(s), Pow2(32 - s);
    Pow2Of32();
    Pow2Add(s, 32 - s);
    forall j | 0 <= j < |a| ensures 0 <= ShiftedRight(a, k, s)[j] < BASE {
      if j + k + 1 < |a| {
        FallMove(a[j + k], s);
        FallMove(a[j + k + 1], s);
        var m := a[j + k + 1] % e;
        MulMono(m + 1, e, f);
        MulDist(m, 1, f);
        MulMono(0, m, f);
      } else if j + k < |a| {
        FallMove(a[j + k], s);
        MulMono(1, e, f);
      }
    }
  }

  lemma FallScale(v: int, q: int, r: int, limb: int, q': int, e: int, f: int, p: int, bp: int)
    requires limb == q' * e + r && e * f == BASE && bp == BASE * p
    ensures e * (v + (q + r * f) * p + q' * bp) == e * (v + q * p) + limb * bp
  {
    MulDist(q, r * f, p);
    MulAssoc(r, f, p);
    MulDist(q' * e, r, bp);
    assert e * (r * (f * p)) == r * bp by {
      MulAssoc(e, f, p);
      assert e * (r * (f * p)) == r * (e * (f * p)) by {
        MulAssoc(e, r, f * p);
        MulAssoc(r, e, f * p);
        assert e * r == r * e;
      }
    }
    assert e * (q' * bp) == q' * e * bp by { MulAssoc(e, q', bp); assert e * q' == q' * e; }
    MulDist(v + q * p, r * (f * p) + q' * bp, e);
    MulDist(r * (f * p), q' * bp, e);
  }

  /** The limbs above the k-th, shifted right by s bits, up to the m-th. */
  ghost predicate FallenTo(a: seq<int>, k: nat, s: nat, m: nat)
    requires s < 32 && 1 <= m && k + m <= |a|
  {
    var r, e := ShiftedRight(a, k, s), Pow2(s);
    e * (Val(r[..m - 1]) + a[k + m - 1] / e * Pow(BASE, m - 1)) + a[k] % e == Val(a[k..k + m])
  }

  lemma FallenFirst(a: seq<int>, k: nat, s: nat)
    requires Limbs(a) && s < 32 && k < |a|
    ensures FallenTo(a, k, s, 1)
  {
    var e, q := Pow2(s), a[k] / Pow2(s);
    FallMove(a[k], s);
    assert a[k..k + 1] == [a[k]] && [a[k]][..0] == [];
    assert Val([a[k]]) == a[k];
    assert e * q == q * e;
  }

  lemma WordSplit(s: nat)
    requires s < 32
    ensures Pow2(s) * Pow2(32 - s) == BASE
  {
    Pow2Of32();
    Pow2Add(s, 32 - s);
  }

  lemma FallenNext(a: seq<int>, k: nat, s: nat, m: nat)
    requires Limbs(a) && s < 32 && 1 <= m && k + m < |a| && FallenTo(a, k, s, m)
    ensures FallenTo(a, k, s, m + 1)
  {
    var r, e, f := ShiftedRight(a, k, s), Pow2(s), Pow2(32 - s);
    var limb, q := a[k + m], a[k + m - 1] / Pow2(s);
    FallMove(limb, s);
    WordSplit(s);
    ValStep(r, m - 1);
    assert r[m - 1] == q + limb % e * f;
    FallScale(Val(r[..m - 1]), q, limb % e, limb, limb / e, e, f, Pow(BASE, m - 1), Pow(BASE, m));
    ValSlice(a, k, m);
  }

  lemma ValSlice(a: seq<int>, k: nat, m: nat)
    requires k + m < |a|
    ensures Val(a[k..k + m + 1]) == Val(a[k..k + m]) + a[k + m] * Pow(BASE, m)
  {
    var t := a[k..k + m + 1];
    assert t[..|t| - 1] == a[k..k + m];
  }

  lemma {:induction false} ShiftRightPrefix(a: seq<int>, k: nat, s: nat, m: nat)
    requires Limbs(a) && s < 32 && 1 <= m && k + m <= |a|
    ensures FallenTo(a, k, s, m)
  {
    if m == 1 {
      FallenFirst(a, k, s);
    } else {
      ShiftRightPrefix(a, k, s, m - 1);
      FallenNext(a, k, s, m - 1);
    }
  }

  lemma ShiftRightTop(a: seq<int>, k: nat, s: nat)
    requires Limbs(a) && s < 32 && k < |a|
    ensures Pow2(s) * Val(ShiftedRight(a, k, s)) + a[k] % Pow2(s) == Val(a[k..])
  {
    var r, m := ShiftedRight(a, k, s), |a| - k;
    ShiftRightPrefix(a, k, s, m);
    assert a[k..k + m] == a[k..];
    ValTrim(r, m);
    ValStep(r, m - 1);
    assert r[m - 1] == a[k + m - 1] / Pow2(s);
    assert Val(r) == Val(r[..m - 1]) + a[k + m - 1] / Pow2(s) * Pow(BASE, m - 1);
  }

  lemma ValTrim(s: seq<int>, m: nat)
    requires m <= |s| && forall j | m <= j < |s| :: s[j] == 0
    ensures Val(s) == Val(s[..m])
  {
    ValSplit(s, m);
    ValZero(s[m..]);
  }

  lemma DropLow(a: seq<int>, k: nat)
    requires Limbs(a) && k <= |a|
    ensures Val(a) / Pow(BASE, k) == Val(a[k..])
  {
    ValSplit(a, k);
    ValBound(a[..k]);
    DivModUnique(Val(a), Pow(BASE, k), Val(a[k..]), Val(a[..k]));
  }

  /** operator>>= divides by a power of two. */
  lemma ShiftRightValue(a: seq<int>, k: nat, s: nat, shift: nat)
    requires Limbs(a) && s < 32 && shift == 32 * k + s
    ensures Val(ShiftedRight(a, k, s)) == Val(a) / Pow2(shift)
  {
    var r, e, p := ShiftedRight(a, k, s), Pow2(s), Pow(BASE, k);
    ShiftAmount(k, s, shift);
    ValBound(a);
    if k < |a| {
      ShiftRightTop(a, k, s);
      DivMod(a[k], e);
      assert e * Val(r) == Val(r) * e;
      DivModUnique(Val(a[k..]), e, Val(r), a[k] % e);
      DropLow(a, k);
      DivDiv(Val(a), p, e);
      assert p * e == e * p;
    } else {
      ValZero(r);
      PowAdd(BASE, k - |a|, |a|);
      MulMono(1, Pow(BASE, k - |a|), Pow(BASE, |a|));
      MulMono(1, e, p);
      DivModUnique(Val(a), e * p, 0, Val(a));
    }
  }

  // ----- division -----

  /** The bits below position t are all clear. */
  ghost predicate LowClear(r: seq<int>, t: nat) {
    && (forall l | 0 <= l < |r| && 32 * l + 32 <= t :: r[l] == 0)
    && (t / 32 < |r| ==> r[t / 32] % Pow2(t % 32) == 0)
  }

  /** The state before the iteration of the division loop that decides quotient bit t - 1. */
  ghost predicate Dividing(q: seq<int>, num: seq<int>, div: seq<int>, n: int, d: int, t: nat) {
    && Limbs(q) && Limbs(num) && Limbs(div) && q != [] && num != [] && div != []
    && LowClear(q, t)
    && n == Val(q) * d + Val(num)
    && 0 <= Val(num) < d * Pow2(t)
    && (t > 0 ==> Val(div) == d * Pow2(t - 1))
  }

  lemma DividingStart(q: seq<int>, num: seq<int>, div: seq<int>, n: int, d: int, shift: nat)
    requires Limbs(num) && Limbs(div) && q != [] && num != [] && div != [] && (forall i | 0 <= i < |q| :: q[i] == 0)
    requires Val(num) == n && 0 <= n < d * Pow2(shift + 1) && Val(div) == d * Pow2(shift)
    ensures Dividing(q, num, div, n, d, shift + 1)
  {
    ValZero(q);
    ZeroIsClear(q, shift + 1);
  }

  lemma ZeroIsClear(q: seq<int>, t: nat)
    requires forall i | 0 <= i < |q| :: q[i] == 0
    ensures Limbs(q) && LowClear(q, t)
  {
    DivModUnique(0, Pow2(t % 32), 0, 0);
  }

  lemma HalfMultiple(x: nat, b: nat)
    requires x % Pow2(b + 1) == 0
    ensures x % Pow2(b) == 0
  {
    var h := x / Pow2(b + 1);
    DivMod(x, Pow2(b + 1));
    assert x == h * 2 * Pow2(b) by { MulAssoc(h, 2, Pow2(b)); }
    DivModUnique(x, Pow2(b), h * 2, 0);
  }

  lemma ClearLess(r: seq<int>, shift: nat)
    requires Limbs(r) && LowClear(r, shift + 1)
    ensures LowClear(r, shift)
  {
    var l, b := shift / 32, shift % 32;
    if l < |r| {
      if b == 31 {
        ClearWord(r, shift);
      } else {
        ClearBit(r, shift);
      }
    }
  }

  lemma ClearWord(r: seq<int>, shift: nat)
    requires LowClear(r, shift + 1) && shift / 32 < |r| && shift % 32 == 31
    ensures LowClear(r, shift)
  {
    var l := shift / 32;
    NextShift(shift);
    assert r[l] == 0;
    DivModUnique(0, Pow2(31), 0, 0);
  }

  lemma ClearBit(r: seq<int>, shift: nat)
    requires Limbs(r) && LowClear(r, shift + 1) && shift / 32 < |r| && shift % 32 < 31
    ensures LowClear(r, shift)
  {
    NextShift(shift);
    HalfMultiple(r[shift / 32], shift % 32);
  }

  lemma NextShift(shift: nat)
    ensures if shift % 32 == 31 then (shift + 1) / 32 == shift / 32 + 1 && (shift + 1) % 32 == 0
            else (shift + 1) / 32 == shift / 32 && (shift + 1) % 32 == shift % 32 + 1
  {}

  /** A multiple of 2^(b+1) below 2^32 has room for bit b. */
  lemma BitFits(x: nat, b: nat)
    requires b < 31 && x % Pow2(b + 1) == 0 && x < BASE
    ensures BitOr(x, Pow2(b)) == x + Pow2(b) < BASE && (x + Pow2(b)) % Pow2(b) == 0
  {
    var e, p := Pow2(b + 1), Pow2(b);
    var h := x / e;
    DivMod(x, e);
    BitOrDisjoint(h, b + 1, p);
    Pow2Of32();
    Pow2Add(b + 1, 31 - b);
    RoomForHalf(x, h, e, Pow2(31 - b), p);
    DivModUnique(x + p, p, h * 2 + 1, 0);
  }

  lemma RoomForHalf(x: int, h: int, e: int, f: int, p: int)
    requires x == h * e < e * f && e == 2 * p && p > 0
    ensures x + p < e * f && x + p == (h * 2 + 1) * p
  {
    if h >= f { MulMono(f, h, e); assert false; }
    MulMono(h + 1, f, e);
    MulDist(h, 1, e);
    MulAssoc(h, 2, p);
  }

  lemma BitAlone(b: nat)
    requires b < 32
    ensures BitOr(0, Pow2(b)) == Pow2(b) < BASE && Pow2(b) % Pow2(b) == 0
  {
    BitOrZero(Pow2(b));
    BitOrComm(0, Pow2(b));
    Pow2Of32();
    Pow2Mono(b, 31);
    DivModUnique(Pow2(b), Pow2(b), 1, 0);
  }

  lemma BitIsClear(r: seq<int>, shift: nat)
    requires Limbs(r) && shift < 32 * |r| && LowClear(r, shift + 1)
    ensures var l, b := shift / 32, shift % 32; var r' := r[l := r[l] + Pow2(b)];
            && BitOr(r[l], Pow2(b)) == r[l] + Pow2(b) && Limbs(r') && LowClear(r', shift)
            && Val(r') == Val(r) + Pow2(shift)
  {
    var l, b := shift / 32, shift % 32;
    BitRoom(r, shift);
    ValUpdate(r, l, r[l] + Pow2(b));
    PowBase(l);
    Pow2Add(b, 32 * l);
  }

  lemma BitRoom(r: seq<int>, shift: nat)
    requires Limbs(r) && shift < 32 * |r| && LowClear(r, shift + 1)
    ensures var l, b := shift / 32, shift % 32;
            BitOr(r[l], Pow2(b)) == r[l] + Pow2(b) < BASE && (r[l] + Pow2(b)) % Pow2(b) == 0
  {
    var l, b := shift / 32, shift % 32;
    ClearAt(r, shift);
    if b == 31 { BitAlone(b); } else { BitFits(r[l], b); }
  }

  lemma ClearAt(r: seq<int>, shift: nat)
    requires shift < 32 * |r| && LowClear(r, shift + 1)
    ensures var l, b := shift / 32, shift % 32;
            if b == 31 then r[l] == 0 else r[l] % Pow2(b + 1) == 0
  {
    var l, b := shift / 32, shift % 32;
    if b < 31 { DivModUnique(shift + 1, 32, l, b + 1); }
  }

  lemma {:induction false} ValUpdate(s: seq<int>, i: nat, v: int)
    requires i < |s|
    ensures Val(s[i := v]) == Val(s) + (v - s[i]) * Pow(BASE, i)
  {
    var n, t := |s| - 1, s[i := v];
    if i == n {
      assert t[..n] == s[..n];
      MulDist(s[i], v - s[i], Pow(BASE, i));
    } else {
      assert t[..n] == s[..n][i := v];
      ValUpdate(s[..n], i, v);
    }
  }

  lemma NoBorrow(x: seq<int>, y: seq<int>)
    requires Limbs(x) && Limbs(y) && |x| == |y| && Val(x) >= Val(y)
    ensures (Val(x) - Val(y)) % Pow(BASE, |x|) == Val(x) - Val(y)
  {
    ValBound(x);
    ValBound(y);
    DivModUnique(Val(x) - Val(y), Pow(BASE, |x|), 0, Val(x) - Val(y));
  }

  lemma DivideArith(q: int, r: int, div: int, n: int, d: int, shift: nat)
    requires d > 0 && n == q * d + r && 0 <= r < d * Pow2(shift + 1) && div == d * Pow2(shift)
    ensures r >= div ==> n == (q + Pow2(shift)) * d + (r - div) && 0 <= r - div < d * Pow2(shift)
    ensures shift > 0 ==> div / Pow2(1) == d * Pow2(shift - 1)
  {
    MulDist(q, Pow2(shift), d);
    assert Pow2(shift) * d == d * Pow2(shift);
    TwiceProduct(d, shift);
    if shift > 0 { TwiceProduct(d, shift - 1); }
  }

  lemma TwiceProduct(d: int, e: nat)
    ensures d * Pow2(e + 1) == 2 * (d * Pow2(e))
  {
    MulAssoc(d, 2, Pow2(e));
    MulAssoc(2, d, Pow2(e));
  }

  lemma QuotientZero(n: int, d: int, nb: nat, db: nat)
    requires nb < db && Pow2(db - 1) <= d
    requires if nb == 0 then n == 0 else 0 <= n < Pow2(nb)
    ensures n / d == 0
  {
    Pow2Mono(nb, db - 1);
    DivModUnique(n, d, 0, n);
  }

  /** Aligning the divisor with the top bit of the dividend loses nothing. */
  lemma AlignedFits(n: int, d: int, nb: nat, db: nat, width: nat)
    requires 1 <= db <= nb <= 32 * width && Pow2(db - 1) <= d < Pow2(db) && n < Pow2(nb)
    ensures d * Pow2(nb - db) % Pow(BASE, width) == d * Pow2(nb - db)
    ensures n < d * Pow2(nb - db + 1)
  {
    var e := Pow2(nb - db);
    Pow2Add(db, nb - db);
    MulStrict(d, Pow2(db), e);
    MulStrict(0, d, e);
    PowBase(width);
    Pow2Mono(nb, 32 * width);
    DivModUnique(d * e, Pow(BASE, width), 0, d * e);
    Pow2Add(db - 1, nb - db + 1);
    MulMono(Pow2(db - 1), d, Pow2(nb - db + 1));
  }

  lemma LowLimbs(s: seq<int>)
    requires Limbs(s) && |s| >= 2
    ensures s[0] + s[1] * BASE == Val(s) % (BASE * BASE)
  {
    ValSplit(s, 2);
    assert s[..2][..1] == s[..1] && s[..1][..0] == [];
    assert Val(s[..2]) == s[0] + s[1] * BASE by { ValStep(s, 0); ValStep(s, 1); assert Pow(BASE, 1) == BASE; }
    assert Pow(BASE, 2) == BASE * BASE;
    ValBound(s[..2]);
    Reduce(Val(s), Val(s[..2]), Val(s[2..]), BASE * BASE);
  }
}
