/**
 * The compact ("nBits") encoding of 256-bit targets, SetCompact and GetCompact of
 * src/arith_uint256.cpp, and the work of a block, GetBlockProof of src/chain.cpp.
 */
module Compact {
  import opened Arithmetic
  import opened ArithUint

  const WIDTH := 8
  const SIGN := 0x80_0000
  const EXPONENT := 0x100_0000

  // ----- powers of 256 -----

  ghost function Byte(n: nat): (r: nat)
    ensures r > 0
  {
    Pow2(8 * n)
  }

  lemma ByteAdd(i: nat, j: nat)
    ensures Byte(i + j) == Byte(i) * Byte(j)
  {
    Pow2Add(8 * i, 8 * j);
  }

  lemma SmallBytes()
    ensures Byte(0) == 1 && Byte(1) == 0x100 && Byte(2) == 0x1_0000 && Byte(3) == 0x100_0000
  {
    assert Pow2(4) == 16;
    Pow2Add(4, 4);
    Pow2Add(8, 8);
    Pow2Add(8, 16);
  }

  lemma ByteStep(n: nat)
    ensures Byte(n + 1) == 0x100 * Byte(n)
  {
    SmallBytes();
    ByteAdd(1, n);
  }

  lemma ByteMono(i: nat, j: nat)
    requires i <= j
    ensures Byte(i) <= Byte(j)
  {
    Pow2Mono(8 * i, 8 * j);
  }

  lemma ModulusIs()
    ensures Pow(BASE, WIDTH) == Byte(32)
  {
    PowBase(8);
  }

  // ----- what a compact number means -----

  function Mantissa(c: nat): nat { c % SIGN }
  function Exponent(c: nat): nat { c / EXPONENT }
  predicate SignBit(c: nat) { c / SIGN % 2 == 1 }

  /** The mantissa scaled by 256^(exponent - 3), fractions dropped. */
  ghost function Scale(m: nat, n: nat): (r: nat) {
    if n <= 3 then Quotient(m, Byte(3 - n)) else MulMono(0, m, Byte(n - 3)); m * Byte(n - 3)
  }

  ghost function Quotient(m: nat, d: nat): nat
    requires d > 0
  {
    m / d
  }

  ghost function Magnitude(c: nat): nat { Scale(Mantissa(c), Exponent(c)) }

  lemma Fields(c: nat)
    ensures c == Mantissa(c) + (if SignBit(c) then SIGN else 0) + Exponent(c) * EXPONENT
    ensures c < 0x1_0000_0000 ==> Exponent(c) < 0x100
  {}

  lemma FieldsOf(m: nat, sign: bool, n: nat)
    requires m < SIGN
    ensures var c := m + (if sign then SIGN else 0) + n * EXPONENT;
            Mantissa(c) == m && SignBit(c) == sign && Exponent(c) == n
  {
    var b := if sign then 1 else 0;
    var c := m + b * SIGN + n * EXPONENT;
    DivModUnique(c, EXPONENT, n, m + b * SIGN);
    DivModUnique(c, SIGN, 2 * n + b, m);
  }

  /** m * 256^(n - 3) is v with everything below the mantissa's last bit dropped. */
  ghost predicate Approximates(m: nat, n: nat, v: int) {
    m * Byte(n) <= v * Byte(3) < (m + 1) * Byte(n)
  }

  /** A mantissa of full precision: it uses its third byte, or the top bit of its second. */
  ghost predicate Normal(m: nat, n: nat, v: int) {
    if v == 0 then m == 0 && n == 0
    else 0x8000 <= m < SIGN && Approximates(m, n, v)
  }

  /** c is the compact form of v with the given sign. */
  ghost predicate IsCompact(c: nat, v: int, negative: bool) {
    Normal(Mantissa(c), Exponent(c), v) && (SignBit(c) <==> negative && v != 0)
  }

  /** A larger exponent means a larger number. */
  lemma ExponentOrders(m: nat, n: nat, v: nat, m': nat, n': nat, v': nat)
    requires 0x8000 <= m' && m < SIGN && Approximates(m, n, v) && Approximates(m', n', v') && n < n'
    ensures v < v'
  {
    MulMono(m + 1, SIGN, Byte(n));
    ByteStep(n);
    ByteMono(n + 1, n');
    MulMono(0x8000, m', Byte(n'));
    if v' <= v { MulMono(v', v, Byte(3)); assert false; }
  }

  lemma MantissaIs(m: nat, n: nat, v: nat)
    requires Approximates(m, n, v)
    ensures m == v * Byte(3) / Byte(n)
  {
    MulDist(m, 1, Byte(n));
    DivModUnique(v * Byte(3), Byte(n), m, v * Byte(3) - m * Byte(n));
  }

  lemma NormalUnique(m: nat, n: nat, m': nat, n': nat, v: nat)
    requires Normal(m, n, v) && Normal(m', n', v)
    ensures m == m' && n == n'
  {
    if v != 0 {
      if n < n' { ExponentOrders(m, n, v, m', n', v); }
      if n' < n { ExponentOrders(m', n', v, m, n, v); }
      MantissaIs(m, n, v);
      MantissaIs(m', n', v);
    }
  }

  /** The compact form is unique. */
  lemma CompactUnique(c: nat, c': nat, v: nat, negative: bool)
    requires IsCompact(c, v, negative) && IsCompact(c', v, negative)
    ensures c == c'
  {
    NormalUnique(Mantissa(c), Exponent(c), Mantissa(c'), Exponent(c'), v);
    Fields(c);
    Fields(c');
  }

  /** The compact form preserves the order of (non-negative) numbers. */
  lemma CompactMonotone(c: nat, c': nat, v: nat, v': nat)
    requires IsCompact(c, v, false) && IsCompact(c', v', false) && v <= v'
    ensures c <= c'
  {
    var m, n, m', n' := Mantissa(c), Exponent(c), Mantissa(c'), Exponent(c');
    Fields(c);
    Fields(c');
    if v != 0 {
      if n' < n { ExponentOrders(m', n', v', m, n, v); }
      if n == n' {
        MulMono(v, v', Byte(3));
        if m' < m { MulMono(m' + 1, m, Byte(n)); }
      }
    }
  }

  // ----- precision -----

  /** The weight of the mantissa's last bit. */
  ghost function Unit(n: nat): nat { if n <= 3 then 1 else Byte(n - 3) }

  lemma ScaleTimes(m: nat, n: nat)
    ensures n >= 3 ==> Scale(m, n) * Byte(3) == m * Byte(n) && Unit(n) * Byte(3) == Byte(n)
    ensures n < 3 ==> Scale(m, n) * Byte(3) == (m - m % Byte(3 - n)) * Byte(n)
  {
    SmallBytes();
    if n >= 3 {
      ByteAdd(n - 3, 3);
      MulAssoc(m, Byte(n - 3), Byte(3));
    } else {
      ByteAdd(3 - n, n);
      DivMod(m, Byte(3 - n));
      MulAssoc(m / Byte(3 - n), Byte(3 - n), Byte(n));
    }
  }

  lemma CancelLe(a: int, b: int, c: int)
    requires c > 0 && a * c <= b * c
    ensures a <= b
  {
    if a > b { MulStrict(b, a, c); assert false; }
  }

  lemma CancelLt(a: int, b: int, c: int)
    requires c > 0 && a * c < b * c
    ensures a < b
  {
    if a >= b { MulMono(b, a, c); assert false; }
  }

  /** Below exponent 3 a normal mantissa is exact. */
  lemma SmallExact(m: nat, n: nat, v: nat)
    requires n < 3 && Approximates(m, n, v)
    ensures m % Byte(3 - n) == 0 && Scale(m, n) == v
  {
    var e := Byte(3 - n);
    ByteAdd(3 - n, n);
    MulAssoc(v, e, Byte(n));
    CancelLe(m, v * e, Byte(n));
    CancelLt(v * e, m + 1, Byte(n));
    DivModUnique(m, e, v, 0);
  }

  /** Decoding a compact form truncates: it loses less than one unit of the mantissa. */
  lemma CompactTruncates(c: nat, v: nat, negative: bool)
    requires IsCompact(c, v, negative)
    ensures Magnitude(c) <= v < Magnitude(c) + Unit(Exponent(c))
    ensures (v - Magnitude(c)) * 0x8000 <= Magnitude(c)
    ensures Exponent(c) <= 3 ==> Magnitude(c) == v
    ensures SignBit(c) <==> negative && Magnitude(c) != 0
  {
    if v == 0 {
      SmallBytes();
    } else {
      ScaleBounds(Mantissa(c), Exponent(c), v);
    }
  }

  lemma ScaleBounds(m: nat, n: nat, v: nat)
    requires 0x8000 <= m && Approximates(m, n, v)
    ensures Scale(m, n) <= v < Scale(m, n) + Unit(n)
    ensures 0x8000 * Unit(n) <= Scale(m, n) || Scale(m, n) == v
    ensures n <= 3 ==> Scale(m, n) == v
    ensures v != 0 ==> Scale(m, n) != 0
  {
    if n < 3 {
      SmallExact(m, n, v);
    } else {
      ScaleTimes(m, n);
      CancelLe(Scale(m, n), v, Byte(3));
      MulDist(m, 1, Byte(n));
      MulDist(Scale(m, n), Unit(n), Byte(3));
      CancelLt(v, Scale(m, n) + Unit(n), Byte(3));
      MulMono(0x8000, m, Unit(n));
      SmallBytes();
    }
  }

  /** Decoding and encoding again changes nothing more. */
  lemma CompactStable(c: nat, v: nat, negative: bool)
    requires IsCompact(c, v, negative)
    ensures IsCompact(c, Magnitude(c), negative)
  {
    var m, n := Mantissa(c), Exponent(c);
    CompactTruncates(c, v, negative);
    if v != 0 {
      ScaleBounds(m, n, v);
      if n > 3 {
        ScaleTimes(m, n);
        MulDist(m, 1, Byte(n));
      }
    }
  }

  /** The compact numbers that GetCompact can produce. */
  ghost predicate Canonical(c: nat) {
    var m, n := Mantissa(c), Exponent(c);
    c == 0 || (0x8000 <= m && (n < 3 ==> m % Byte(3 - n) == 0))
  }

  /** What SetCompact leaves in a 256-bit number. */
  ghost function Decoded(c: nat): nat { Magnitude(c) % Byte(32) }

  ghost predicate DecodedNegative(c: nat) { SignBit(c) && Magnitude(c) != 0 }

  /** Decoding and encoding is the identity exactly on the canonical numbers that fit in 256 bits. */
  lemma ReencodeIff(c: nat)
    ensures IsCompact(c, Decoded(c), DecodedNegative(c)) <==> Canonical(c) && Magnitude(c) < Byte(32)
  {
    if Magnitude(c) < Byte(32) {
      DivModUnique(Magnitude(c), Byte(32), 0, Magnitude(c));
      ReencodeFitting(c);
    } else {
      ReencodeOverflow(c, Decoded(c));
    }
  }

  lemma ReencodeFitting(c: nat)
    ensures IsCompact(c, Magnitude(c), DecodedNegative(c)) <==> Canonical(c)
  {
    var m, n, v := Mantissa(c), Exponent(c), Magnitude(c);
    ScaleTimes(m, n);
    Fields(c);
    if IsCompact(c, v, DecodedNegative(c)) && v != 0 && n < 3 {
      SmallExact(m, n, v);
    }
    if Canonical(c) {
      if c == 0 {
        SmallBytes();
      } else {
        ScalePositive(m, n);
        MulDist(m, 1, Byte(n));
      }
    }
  }

  /** A number that does not fit is not the compact form of what is left of it. */
  lemma ReencodeOverflow(c: nat, v: nat)
    requires v < Byte(32) <= Magnitude(c)
    ensures !IsCompact(c, v, DecodedNegative(c))
  {
    var m, n := Mantissa(c), Exponent(c);
    if n <= 3 {
      ShortWord(m, Byte(3 - n));
      FitsModulus(Magnitude(c));
    }
    ScaleTimes(m, n);
    MulStrict(v, Magnitude(c), Byte(3));
  }

  /** A canonical number that decodes to zero, so encoding again does not give it back. */
  lemma ReencodeFails()
    ensures var c := 0x2301_0000;
            && Canonical(c) && Magnitude(c) >= Byte(32) && Decoded(c) == 0
            && !IsCompact(c, Decoded(c), DecodedNegative(c))
  {
    var c := 0x2301_0000;
    assert Mantissa(c) == 0x1_0000 && Exponent(c) == 35;
    MulMono(1, 0x1_0000, Byte(32));
    DivModUnique(Magnitude(c), Byte(32), 0x1_0000, 0);
  }

  lemma ScalePositive(m: nat, n: nat)
    requires 0x8000 <= m && (n < 3 ==> m % Byte(3 - n) == 0)
    ensures Scale(m, n) > 0
  {
    if n <= 3 {
      DivMod(m, Byte(3 - n));
    } else {
      MulMono(1, m, Byte(n - 3));
    }
  }

  // ----- the conversions -----

  /** The overflow flag: the shifted mantissa does not fit in 256 bits. */
  predicate Overflows(word: nat, size: nat) {
    word != 0 && (size > 34 || (word > 0xff && size > 33) || (word > 0xffff && size > 32))
  }

  lemma OverflowIff(word: nat, size: nat)
    requires word < SIGN && size > 3
    ensures Overflows(word, size) <==> word * Byte(size - 3) >= Byte(32)
  {
    var e := Byte(size - 3);
    SmallBytes();
    if size > 34 {
      ByteMono(32, size - 3);
      if word > 0 { MulMono(1, word, e); }
    } else if size <= 32 {
      ByteMono(size - 3, 29);
      ByteAdd(3, 29);
      MulMono(word, SIGN, e);
      MulMono(e, Byte(29), SIGN);
    } else {
      var k := 35 - size;
      ByteAdd(k, size - 3);
      if word >= Byte(k) { MulMono(Byte(k), word, e); } else { MulStrict(word, Byte(k), e); }
    }
  }

  /** The value of a short compact number is its mantissa's leading bytes. */
  lemma ShortWord(word: nat, d: nat)
    requires word < SIGN && d > 0
    ensures word / d < SIGN
  {
    DivLe(word, d);
  }

  lemma FitsModulus(v: nat)
    requires v < SIGN
    ensures v < Byte(32) && v % Byte(32) == v
  {
    SmallBytes();
    ByteMono(3, 32);
    DivModUnique(v, Byte(32), 0, v);
  }

  lemma ProductZero(a: nat, b: nat)
    requires b > 0
    ensures a * b == 0 <==> a == 0
  {
    if a > 0 { MulMono(1, a, b); }
  }

  /** SetCompact: the flags tell exactly when the value could not be represented. */
  method SetShifted(bn: BaseUint, word: nat, shift: nat)
    requires bn.Valid() && bn.pn.Length == WIDTH && word < SIGN
    modifies bn.pn
    ensures bn.Valid() && bn.Value() == word * Pow2(shift) % bn.Modulus()
  {
    bn.SetLow(word);
    bn.ShiftLeft(shift);
  }

  method SetCompact(bn: BaseUint, nCompact: nat) returns (negative: bool, overflow: bool)
    requires nCompact < 0x1_0000_0000 && bn.Valid() && bn.pn.Length == WIDTH
    modifies bn.pn
    ensures bn.Valid()
    ensures overflow <==> Magnitude(nCompact) >= bn.Modulus()
    ensures bn.Value() == Magnitude(nCompact) % bn.Modulus()
    ensures negative <==> SignBit(nCompact) && Magnitude(nCompact) != 0
  {
    var size, word := nCompact / EXPONENT, nCompact % SIGN;
    ModulusIs();
    if size <= 3 {
      ShortMeans(nCompact);
      word := word / Pow2(8 * (3 - size));
      bn.SetLow(word);
    } else {
      LongMeans(nCompact);
      SetShifted(bn, word, 8 * (size - 3));
    }
    negative := word != 0 && SignBit(nCompact);
    overflow := Overflows(word, size);
  }

  /** Up to exponent 3 the value is the mantissa's leading bytes; it always fits. */
  lemma ShortMeans(c: nat)
    requires Exponent(c) <= 3
    ensures Magnitude(c) == Mantissa(c) / Pow2(8 * (3 - Exponent(c))) < SIGN
    ensures Magnitude(c) < Byte(32) && Magnitude(c) % Byte(32) == Magnitude(c) && !Overflows(Magnitude(c), Exponent(c))
  {
    ShortWord(Mantissa(c), Byte(3 - Exponent(c)));
    FitsModulus(Magnitude(c));
  }

  lemma LongMeans(c: nat)
    requires Exponent(c) > 3
    ensures Magnitude(c) == Mantissa(c) * Pow2(8 * (Exponent(c) - 3))
    ensures Overflows(Mantissa(c), Exponent(c)) <==> Magnitude(c) >= Byte(32)
    ensures Magnitude(c) == 0 <==> Mantissa(c) == 0
  {
    OverflowIff(Mantissa(c), Exponent(c));
    ProductZero(Mantissa(c), Byte(Exponent(c) - 3));
  }

  /** The first three bytes of a number, before room is made for the sign bit. */
  ghost predicate Leading(word: nat, size: nat, v: int) {
    if v == 0 then word == 0 && size == 0
    else 0x1_0000 <= word < EXPONENT && 1 <= size <= 32 && Approximates(word, size, v)
  }

  lemma LeadingShort(v: nat, size: nat)
    requires size <= 3 && v < Byte(size) && (size > 0 ==> Byte(size - 1) <= v)
    ensures Leading(v * Byte(3 - size), size, v) && v * Byte(3 - size) < EXPONENT
  {
    SmallBytes();
    if size > 0 {
      var e := Byte(3 - size);
      ByteAdd(size, 3 - size);
      ByteAdd(size - 1, 3 - size);
      MulStrict(v, Byte(size), e);
      MulMono(Byte(size - 1), v, e);
      MulAssoc(v, e, Byte(size));
      MulDist(v * e, 1, Byte(size));
    }
  }

  lemma LeadingLong(v: nat, size: nat, w: nat, e: nat)
    requires 3 < size <= 32 && Byte(size - 1) <= v < Byte(size) && e == Byte(size - 3) && w * e <= v < (w + 1) * e
    ensures Leading(w, size, v) && w < EXPONENT
  {
    LeadingWord(v, w, e, size);
    LeadingClose(v, w, e, size);
    SmallBytes();
  }

  /** The quotient by the lower bytes has exactly three bytes. */
  lemma LeadingWord(v: nat, w: nat, e: nat, size: nat)
    requires 3 < size <= 32 && Byte(size - 1) <= v < Byte(size) && e == Byte(size - 3) && w * e <= v < (w + 1) * e
    ensures Byte(2) <= w < Byte(3)
  {
    ByteAdd(3, size - 3);
    ByteAdd(2, size - 3);
    CancelLt(w, Byte(3), e);
    CancelLt(Byte(2), w + 1, e);
  }

  lemma LeadingClose(v: nat, w: nat, e: nat, size: nat)
    requires 3 < size && e == Byte(size - 3) && w * e <= v < (w + 1) * e
    ensures Approximates(w, size, v)
  {
    ByteAdd(size - 3, 3);
    MulAssoc(w, e, Byte(3));
    MulAssoc(w + 1, e, Byte(3));
    MulMono(w * e, v, Byte(3));
    MulStrict(v, (w + 1) * e, Byte(3));
  }

  /** Dropping the last byte of the mantissa when it would run into the sign bit. */
  lemma MakeRoom(word: nat, size: nat, v: nat)
    requires Leading(word, size, v) && word >= SIGN
    ensures Normal(word / 0x100, size + 1, v) && word / 0x100 < SIGN
  {
    var m, e := word / 0x100, Byte(size);
    ByteStep(size);
    MulAssoc(m, 0x100, e);
    MulAssoc(m + 1, 0x100, e);
    MulMono(m * 0x100, word, e);
    MulMono(word + 1, (m + 1) * 0x100, e);
  }

  lemma {:induction false} SetClearBit(x: nat, b: nat)
    requires x / Pow2(b) % 2 == 0
    ensures BitOr(x, Pow2(b)) == x + Pow2(b)
  {
    if b == 0 {
      BitOrZero(x / 2);
    } else {
      DivDiv(x, 2, Pow2(b - 1));
      SetClearBit(x / 2, b - 1);
    }
  }

  /** What the sign-bit check of GetCompact makes of the leading bytes. */
  lemma Normalised(word: nat, size: nat, v: int, word': nat, size': nat)
    requires Leading(word, size, v)
    requires if word >= SIGN then word' == word / 0x100 && size' == size + 1 else word' == word && size' == size
    ensures word' < SIGN && size' < 0x100 && Normal(word', size', v) && (word' == 0 <==> v == 0)
  {
    if word >= SIGN && v > 0 { MakeRoom(word, size, v); }
    if v < 0 { NegativeHasNone(word, size, v); }
  }

  lemma NegativeHasNone(word: nat, size: nat, v: int)
    requires v < 0
    ensures !Approximates(word, size, v)
  {
    MulMono(v, -1, Byte(3));
    MulMono(0, word, Byte(size));
  }

  /** GetCompact: the result is the (unique) compact form of the number. */
  method GetCompact(bn: BaseUint, fNegative: bool) returns (c: nat)
    requires bn.Valid() && bn.pn.Length == WIDTH
    ensures c < 0x1_0000_0000 && IsCompact(c, bn.Value(), fNegative)
  {
    var first, bytes := LeadingBytes(bn);
    var word, size := MoveFromSign(first, bytes, bn.Value());
    c := Assemble(word, size, fNegative);
  }

  lemma SignOf(word: nat)
    requires word < EXPONENT
    ensures word / SIGN % 2 == 1 <==> word >= SIGN
  {}

  method MoveFromSign(first: nat, bytes: nat, ghost v: int) returns (word: nat, size: nat)
    requires first < EXPONENT && Leading(first, bytes, v)
    ensures word < SIGN && size < 0x100 && Normal(word, size, v) && (word == 0 <==> v == 0)
  {
    word, size := first, bytes;
    SignOf(first);
    if word / SIGN % 2 == 1 {
      word, size := word / 0x100, size + 1;
    }
    Normalised(first, bytes, v, word, size);
  }

  /** The first half of GetCompact. */
  method LeadingBytes(bn: BaseUint) returns (word: nat, size: nat)
    requires bn.Valid() && bn.pn.Length == WIDTH
    ensures word < EXPONENT && Leading(word, size, bn.Value())
  {
    var bits := bn.Bits();
    size := (bits + 7) / 8;
    ValBound(bn.pn[..]);
    ByteLength(bn.Value(), bits);
    if size <= 3 {
      var low := bn.GetLow64();
      ShortWordFits(bn.Value(), size);
      word := low * Pow2(8 * (3 - size)) % 0x1_0000_0000;
    } else {
      var t := new BaseUint.Copy(bn);
      t.ShiftRight(8 * (size - 3));
      var low := t.GetLow64();
      LongWordFits(bn.Value(), size);
      word := low % 0x1_0000_0000;
    }
  }

  /** No bit is lost in the 32-bit mantissa. */
  lemma ShortWordFits(v: nat, size: nat)
    requires size <= 3 && v < Byte(size) && (size > 0 ==> Byte(size - 1) <= v)
    ensures var w := v % (BASE * BASE) * Pow2(8 * (3 - size)) % 0x1_0000_0000;
            0 <= w < EXPONENT && Leading(w, size, v)
  {
    LeadingShort(v, size);
    SmallBytes();
    ByteMono(size, 3);
    SmallMod(v, BASE * BASE);
    SmallMod(v * Byte(3 - size), 0x1_0000_0000);
  }

  lemma LongWordFits(v: nat, size: nat)
    requires 3 < size <= 32 && Byte(size - 1) <= v < Byte(size)
    ensures var w := v / Pow2(8 * (size - 3)) % (BASE * BASE) % 0x1_0000_0000;
            0 <= w < EXPONENT && Leading(w, size, v)
  {
    LongWord(v, size, v / Byte(size - 3), Byte(size - 3));
  }

  lemma LongWord(v: nat, size: nat, w: int, e: nat)
    requires 3 < size <= 32 && Byte(size - 1) <= v < Byte(size) && e == Byte(size - 3) && w == v / e
    ensures 0 <= w < EXPONENT && Leading(w, size, v) && w % (BASE * BASE) % 0x1_0000_0000 == w
  {
    QuotientBounds(v, w, e);
    LeadingLong(v, size, w, e);
    SmallMod(w, BASE * BASE);
    SmallMod(w, 0x1_0000_0000);
  }

  lemma QuotientBounds(v: nat, w: int, e: nat)
    requires e > 0 && w == v / e
    ensures w >= 0 && w * e <= v < (w + 1) * e
  {
    DivMod(v, e);
    MulDist(w, 1, e);
    if w < 0 { MulMono(w, -1, e); }
  }

  lemma SmallMod(x: int, m: int)
    requires 0 <= x < m
    ensures x % m == x
  {}

  lemma ByteLength(v: nat, bits: nat)
    requires if bits == 0 then v == 0 else Pow2(bits - 1) <= v < Pow2(bits)
    ensures var n := (bits + 7) / 8; v < Byte(n) && (n > 0 ==> Byte(n - 1) <= v)
  {
    var n := (bits + 7) / 8;
    if bits > 0 {
      Pow2Mono(bits, 8 * n);
      Pow2Mono(8 * (n - 1), bits - 1);
    }
  }

  /** The last lines of GetCompact: exponent and sign are or-ed in. */
  method Assemble(word: nat, size: nat, fNegative: bool) returns (c: nat)
    requires word < SIGN && size < 0x100
    ensures Mantissa(c) == word && Exponent(c) == size && (SignBit(c) <==> fNegative && word != 0)
    ensures c < 0x1_0000_0000
  {
    assert Pow2(24) == EXPONENT && Pow2(23) == SIGN by { SmallBytes(); }
    BitOrDisjoint(size, 24, word);
    BitOrComm(word, size * EXPONENT);
    c := BitOr(word, size * EXPONENT);
    FieldsOf(word, false, size);
    if fNegative && c % SIGN != 0 {
      SetClearBit(c, 23);
      FieldsOf(word, true, size);
      c := BitOr(c, SIGN);
    }
  }

  /** SetCompact followed by GetCompact. */
  method Reencode(c: nat) returns (c': nat)
    requires c < 0x1_0000_0000
    ensures IsCompact(c', Decoded(c), DecodedNegative(c))
    ensures c' == c <==> Canonical(c) && Magnitude(c) < Byte(32)
  {
    var bn := new BaseUint(WIDTH, 0);
    var negative, overflow := SetCompact(bn, c);
    ModulusIs();
    c' := GetCompact(bn, negative);
    ReencodeIff(c);
    if IsCompact(c, Decoded(c), DecodedNegative(c)) { CompactUnique(c, c', Decoded(c), DecodedNegative(c)); }
  }

  // ----- the work of a block -----

  lemma ScaleIsMultiple(m: nat, n: nat)
    requires n > 3
    ensures Scale(m, n) == 0x100 * (m * Byte(n - 4))
  {
    ByteStep(n - 4);
    MulAssoc(m, 0x100, Byte(n - 4));
  }

  /** A target that fits is never the largest 256-bit number. */
  lemma TargetBelowMax(c: nat)
    requires Magnitude(c) < Byte(32)
    ensures Magnitude(c) + 1 < Byte(32)
  {
    var m, n := Mantissa(c), Exponent(c);
    if n <= 3 {
      ShortWord(m, Byte(3 - n));
      SmallBytes();
      ByteMono(3, 32);
    } else {
      ByteStep(31);
      ScaleIsMultiple(m, n);
    }
  }

  lemma WorkFormula(t: nat, m: nat)
    requires 0 < t && t + 1 < m
    ensures (m - 1 - t) / (t + 1) + 1 == m / (t + 1) < m
  {
    var q, r := m / (t + 1), m % (t + 1);
    DivMod(m, t + 1);
    MulDist(q, -1, t + 1);
    DivModUnique(m - 1 - t, t + 1, q - 1, r);
    if q >= m { MulMono(m, q, t + 1); MulMono(2, t + 1, m); assert false; }
  }

  /** 2^256 / (target + 1), or nothing for a target that is zero, negative or too large. */
  ghost function BlockWork(nBits: nat): int {
    var t := Magnitude(nBits);
    if t == 0 || SignBit(nBits) || t >= Byte(32) then 0 else Byte(32) / (t + 1)
  }

  /** GetBlockProof: 2^256 / (target + 1), computed without representing 2^256. */
  method GetBlockProof(nBits: nat) returns (proof: BaseUint)
    requires nBits < 0x1_0000_0000
    ensures proof.Valid() && proof.pn.Length == WIDTH
    ensures proof.Value() == BlockWork(nBits)
  {
    var bnTarget, ok := Target(nBits);
    if !ok {
      proof := new BaseUint(WIDTH, 0);
      return;
    }
    proof := Work(bnTarget);
  }

  /** The target of nBits, and whether it can be met. */
  method Target(nBits: nat) returns (bnTarget: BaseUint, ok: bool)
    requires nBits < 0x1_0000_0000
    ensures bnTarget.Valid() && bnTarget.pn.Length == WIDTH
    ensures !ok ==> BlockWork(nBits) == 0
    ensures ok ==> 0 < bnTarget.Value() == Magnitude(nBits) && bnTarget.Value() + 1 < bnTarget.Modulus()
    ensures ok ==> BlockWork(nBits) == bnTarget.Modulus() / (bnTarget.Value() + 1)
  {
    bnTarget := new BaseUint(WIDTH, 0);
    var negative, overflow := SetCompact(bnTarget, nBits);
    var zero := new BaseUint(WIDTH, 0);
    var isZero := bnTarget.CompareTo(zero);
    TargetFacts(nBits, bnTarget.Value());
    ok := !negative && !overflow && isZero != 0;
  }

  lemma TargetFacts(nBits: nat, value: int)
    requires value == Magnitude(nBits) % Pow(BASE, WIDTH)
    ensures Pow(BASE, WIDTH) == Byte(32)
    ensures Magnitude(nBits) < Pow(BASE, WIDTH) ==> value == Magnitude(nBits) && value + 1 < Pow(BASE, WIDTH)
  {
    ModulusIs();
    if Magnitude(nBits) < Byte(32) {
      SmallMod(Magnitude(nBits), Byte(32));
      TargetBelowMax(nBits);
    }
  }

  /** The division of GetBlockProof. */
  method Work(bnTarget: BaseUint) returns (proof: BaseUint)
    requires bnTarget.Valid() && bnTarget.pn.Length == WIDTH
    requires 0 < bnTarget.Value() && bnTarget.Value() + 1 < bnTarget.Modulus()
    ensures proof.Valid() && proof.pn.Length == WIDTH
    ensures proof.Value() == bnTarget.Modulus() / (bnTarget.Value() + 1)
  {
    ghost var t, m := bnTarget.Value(), bnTarget.Modulus();
    WorkFormula(t, m);
    proof := bnTarget.Complement();
    var next := PlusOne(bnTarget);
    DivModUnique(t + 1, m, 0, t + 1);
    var ok := proof.Divide(next);
    proof := PlusOne(proof);
    DivModUnique(m / (t + 1), m, 0, m / (t + 1));
  }

  method PlusOne(x: BaseUint) returns (r: BaseUint)
    requires x.Valid() && x.pn.Length == WIDTH
    ensures r.Valid() && r.pn.Length == WIDTH && fresh(r.pn)
    ensures r.Value() == (x.Value() + 1) % x.Modulus()
  {
    r := new BaseUint.Copy(x);
    var one := new BaseUint(WIDTH, 1);
    r.Add(one);
  }
}
