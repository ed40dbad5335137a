/**
 * Amount compression of src/compressor.cpp and the variable-length integers of src/serialize.h.
 */
module Amounts {
  import opened Arithmetic
  import opened Wrappers

  const COIN := 100_000_000
  const MAX_MONEY := 9_999_999 * COIN
  const TWO64 := 0x1_0000_0000_0000_0000

  // ----- amounts -----

  /** A number without trailing zeros (up to nine of them) and how many were removed. */
  datatype Scaled = Scaled(m: nat, e: nat)

  predicate IsScaled(s: Scaled) { s.m > 0 && s.e <= 9 && (s.e < 9 ==> s.m % 10 != 0) }

  /** The loop of CompressAmount, with e zeros removed already. */
  function Reduced(n: nat, e: nat): (r: Scaled)
    requires n > 0 && e <= 9
    ensures IsScaled(r) && e <= r.e
    decreases 9 - e
  {
    if n % 10 == 0 && e < 9 then Reduced(n / 10, e + 1) else Scaled(n, e)
  }

  /** The number packed into the compressed form. */
  function Pack(s: Scaled): nat
    requires IsScaled(s)
  {
    if s.e < 9 then 1 + (s.m / 10 * 9 + s.m % 10 - 1) * 10 + s.e else 1 + (s.m - 1) * 10 + 9
  }

  function Unpack(x: nat): (s: Scaled)
    requires x > 0
  {
    var e, y := (x - 1) % 10, (x - 1) / 10;
    Scaled(if e < 9 then y / 9 * 10 + y % 9 + 1 else y + 1, e)
  }

  lemma UnpackPack(s: Scaled)
    requires IsScaled(s)
    ensures Pack(s) > 0 && Unpack(Pack(s)) == s
  {
    if s.e < 9 {
      var y := s.m / 10 * 9 + s.m % 10 - 1;
      DivModUnique(Pack(s) - 1, 10, y, s.e);
      DivModUnique(y, 9, s.m / 10, s.m % 10 - 1);
    } else {
      DivModUnique(Pack(s) - 1, 10, s.m - 1, 9);
    }
  }

  lemma PackUnpack(x: nat)
    requires x > 0
    ensures IsScaled(Unpack(x)) && Pack(Unpack(x)) == x
  {
    var s := Unpack(x);
    if s.e < 9 {
      var y := (x - 1) / 10;
      assert s.m / 10 == y / 9 && s.m % 10 == y % 9 + 1;
    }
  }

  function Expand(s: Scaled): int { s.m * Pow(10, s.e) }

  /** CompressAmount, before the result is cut to 64 bits. */
  function Compress(n: nat): nat { if n == 0 then 0 else Pack(Reduced(n, 0)) }

  /** DecompressAmount, before the result is cut to 64 bits. */
  function Decompress(x: nat): int { if x == 0 then 0 else Expand(Unpack(x)) }

  lemma {:induction false} ExpandReduced(n: nat, e: nat)
    requires n > 0 && e <= 9
    ensures Expand(Reduced(n, e)) == n * Pow(10, e)
    decreases 9 - e
  {
    if n % 10 == 0 && e < 9 {
      ExpandReduced(n / 10, e + 1);
      MulAssoc(n / 10, 10, Pow(10, e));
    }
  }

  lemma {:induction false} ReducedExpand(s: Scaled, e: nat)
    requires IsScaled(s) && e <= s.e
    ensures s.m * Pow(10, s.e - e) > 0 && Reduced(s.m * Pow(10, s.e - e), e) == s
    decreases s.e - e
  {
    if e < s.e {
      ReducedExpand(s, e + 1);
      MulSwap(s.m, 10, Pow(10, s.e - e - 1));
    }
  }

  lemma MulSwap(a: int, b: int, c: int)
    ensures a * (b * c) == b * (a * c)
  {
    MulAssoc(a, b, c);
    MulAssoc(b, a, c);
  }

  /** Decompression undoes compression. */
  lemma DecompressCompress(n: nat)
    ensures Decompress(Compress(n)) == n
  {
    if n > 0 {
      UnpackPack(Reduced(n, 0));
      ExpandReduced(n, 0);
    }
  }

  /** Compression undoes decompression: together the two are a bijection. */
  lemma CompressDecompress(x: nat)
    ensures Decompress(x) >= 0 && Compress(Decompress(x)) == x
  {
    if x > 0 {
      PackUnpack(x);
      ReducedExpand(Unpack(x), 0);
    }
  }

  lemma {:induction false} ReducedBelow(n: nat, e: nat)
    requires n > 0 && e <= 9
    ensures Reduced(n, e).m <= n && (Reduced(n, e).e > e ==> Reduced(n, e).m * 10 <= n)
    decreases 9 - e
  {
    if n % 10 == 0 && e < 9 { ReducedBelow(n / 10, e + 1); }
  }

  /** A compressed amount is at most nine times the amount. */
  lemma CompressBound(n: nat)
    ensures Compress(n) <= 9 * n
  {
    if n > 0 { ReducedBelow(n, 0); }
  }

  /** Nothing wraps for amounts up to MAX_MONEY. */
  lemma MoneyFits(n: nat)
    requires n <= MAX_MONEY
    ensures Compress(n) % TWO64 == Compress(n)
  {
    CompressBound(n);
  }

  method StripZeros(amount: nat) returns (n: nat, e: nat)
    requires amount > 0
    ensures Reduced(amount, 0) == Scaled(n, e)
  {
    n, e := amount, 0;
    while n % 10 == 0 && e < 9
      invariant 0 < n && e <= 9 && Reduced(n, e) == Reduced(amount, 0)
    {
      n, e := n / 10, e + 1;
    }
  }

  /** CompressAmount on 64-bit words. */
  method CompressAmount(amount: nat) returns (r: nat)
    requires amount < TWO64
    ensures r == Compress(amount) % TWO64
    ensures amount <= MAX_MONEY ==> r == Compress(amount)
  {
    if amount <= MAX_MONEY { MoneyFits(amount); }
    if amount == 0 {
      return 0;
    }
    var n, e := StripZeros(amount);
    if e < 9 {
      r := (1 + (n / 10 * 9 + n % 10 - 1) * 10 + e) % TWO64;
    } else {
      r := (1 + (n - 1) * 10 + 9) % TWO64;
    }
  }

  /** DecompressAmount on 64-bit words. */
  method DecompressAmount(x: nat) returns (n: nat)
    requires x < TWO64
    ensures n == Decompress(x) % TWO64
  {
    if x == 0 {
      return 0;
    }
    var e, y := (x - 1) % 10, (x - 1) / 10;
    if e < 9 {
      n := y / 9 * 10 + y % 9 + 1;
    } else {
      n := y + 1;
    }
    n := AppendZeros(n, e);
  }

  /** The loop of DecompressAmount. */
  method AppendZeros(m: nat, zeros: nat) returns (n: nat)
    ensures n == m * Pow(10, zeros) % TWO64
  {
    n := m % TWO64;
    for k := 0 to zeros
      invariant n == m * Pow(10, k) % TWO64
    {
      TenTimes(m, k);
      n := n * 10 % TWO64;
    }
  }

  lemma TenTimes(m: nat, k: nat)
    ensures m * Pow(10, k) % TWO64 * 10 % TWO64 == m * Pow(10, k + 1) % TWO64
  {
    var x := m * Pow(10, k);
    ModTimes(x, 10, TWO64);
    MulSwap(m, 10, Pow(10, k));
  }

  // ----- which amounts survive -----

  const TWO63 := 0x8000_0000_0000_0000

  /** An unsigned 64-bit word read as a signed one. */
  function AsInt64(x: int): int { if x < TWO63 then x else x - TWO64 }

  /** The word stored for an amount, which is converted to an unsigned one first. */
  function StoredAmount(v: int): nat { Compress(v % TWO64) % TWO64 }

  /** The amount that a stored word is read as. */
  function LoadedAmount(x: nat): int { AsInt64(Decompress(x) % TWO64) }

  predicate Survives(v: int) { LoadedAmount(StoredAmount(v)) == v }

  /** An amount whose code fits into 64 bits comes back. */
  lemma FittingSurvives(v: int)
    requires -TWO63 <= v < TWO63 && Compress(v % TWO64) < TWO64
    ensures Survives(v)
  {
    WordOf(v);
    DecompressCompress(v % TWO64);
    SmallWord(Compress(v % TWO64));
    SmallWord(v % TWO64);
  }

  lemma SmallWord(x: int)
    requires 0 <= x < TWO64
    ensures x % TWO64 == x
  {
    DivModUnique(x, TWO64, 0, x);
  }

  lemma WordOf(v: int)
    requires -TWO63 <= v < TWO63
    ensures 0 <= v % TWO64 < TWO64 && AsInt64(v % TWO64) == v && (v >= 0 ==> v % TWO64 == v)
  {
    if v >= 0 { SmallWord(v); } else { DivModUnique(v, TWO64, -1, v + TWO64); }
  }

  lemma MoneySurvives(v: int)
    requires 0 <= v <= MAX_MONEY
    ensures Survives(v)
  {
    WordOf(v);
    CompressBound(v);
    FittingSurvives(v);
  }

  /** Only numbers without a trailing zero have codes that are larger than the number. */
  lemma TensFit(n: nat)
    requires 0 < n < TWO64 && Reduced(n, 0).e > 0
    ensures Compress(n) < TWO64
  {
    ReducedBelow(n, 0);
  }

  /**
   * A code that has lost k * 2^64 is unpacked to the exponent 4 * k % 10 and a number m whose
   * distance from the amount n is known up to two values.
   */
  lemma CutCode(n: nat, y: nat, k: nat, x: int) returns (m: nat, e: nat, g: int)
    requires n % 10 != 0 && y == n / 10 * 9 + n % 10 - 1
    requires 1 <= k <= 8 && x == 1 + 10 * y - k * TWO64 && 0 <= x < TWO64
    ensures x > 0 && Unpack(x) == Scaled(m, e) && e == 4 * k % 10 && 9 * m <= TWO64 + 9
    ensures 9 * (n - m) == k * TWO64 + e - g && -8 <= g <= 8
  {
    CutExponent(y, k, x);
    m, e := Unpack(x).m, Unpack(x).e;
    g := n % 10 - 1 - (x - 1) / 10 % 9;
  }

  lemma CutExponent(y: nat, k: nat, x: int)
    requires 1 <= k <= 8 && x == 1 + 10 * y - k * TWO64 && 0 <= x
    ensures x > 0 && (x - 1) % 10 == 4 * k % 10
  {
    var q := y - 1844674407370955162 * k;
    assert x - 1 == 10 * q + 4 * k;
    DivMod(4 * k, 10);
    DivModUnique(x - 1, 10, q + 4 * k / 10, 4 * k % 10);
    EvenRest(4 * k);
  }

  lemma EvenRest(x: nat)
    requires x % 4 == 0
    ensures x % 10 != 9
  {
  }

  // The exponents 2, 4, 6 and 8 bring m back to n = m + d modulo 2^64 only after many turns.

  /** Modulo odd, where u is the inverse of 2^64, the number of turns is first. */
  lemma FirstReturn(turns: nat, d: int, m: int, odd: nat, u: int, t: int, first: nat)
    requires turns * TWO64 + d == odd * m && u * TWO64 == 1 + t * odd
    requires first < odd && (first + u * d) % odd == 0
    ensures turns >= first
  {
    var q, r := u * m - t * turns, (first + u * d) / odd;
    InverseTimes(turns, d, m, odd, u, t);
    DivMod(first + u * d, odd);
    MulDist(q, -r, odd);
    if q < r { MulMono(q - r, -1, odd); } else { MulMono(0, q - r, odd); }
  }

  lemma InverseTimes(turns: int, d: int, m: int, odd: int, u: int, t: int)
    requires turns * TWO64 + d == odd * m && u * TWO64 == 1 + t * odd
    ensures turns + u * d == (u * m - t * turns) * odd
  {
    MulDist(turns * TWO64, d, u);
    MulAssoc(turns, u, TWO64);
    MulAssoc(turns, TWO64, u);
    MulDist(1, t * odd, turns);
    MulAssoc(t, odd, turns);
    MulAssoc(t, turns, odd);
    MulAssoc(odd, m, u);
    MulAssoc(u, m, odd);
    MulDist(u * m, -(t * turns), odd);
    assert turns * (u * TWO64) == (1 + t * odd) * turns;
    assert odd * (m * u) == u * m * odd;
    assert -(t * turns) * odd == -(t * turns * odd);
  }

  /** Two values are possible for g. */
  lemma Gap(k: nat, e: nat, g: int, d: int)
    requires 9 * d == k * TWO64 + e - g && -8 <= g <= 8
    ensures g == (7 * k + e) % 9 || g == (7 * k + e) % 9 - 9
  {
    var q := d - 2049638230412172401 * k;
    assert 7 * k + e == 9 * q + g;
    if g >= 0 { DivModUnique(7 * k + e, 9, q, g); } else { DivModUnique(7 * k + e, 9, q - 1, g + 9); }
  }

  lemma First2(k: nat, g: int, d: int) returns (first: nat)
    requires k in {3, 8} && 9 * d == k * TWO64 + 2 - g && -8 <= g <= 8
    ensures 19 <= first < 99 && (first + 31 * d) % 99 == 0
  {
    Gap(k, 2, g, d);
    if k == 3 && g == -4 {
      assert d == 6148914691236517206;
      first := 45;
    } else if k == 3 && g == 5 {
      assert d == 6148914691236517205;
      first := 76;
    } else if k == 8 && g == -5 {
      assert d == 16397105843297379215;
      first := 19;
    } else {
      assert d == 16397105843297379214;
      first := 50;
    }
  }

  lemma Turns2(k: nat, g: int, d: int, m: int, turns: nat)
    requires k in {3, 8} && 9 * d == k * TWO64 + 2 - g && -8 <= g <= 8
    requires turns * TWO64 + d == 99 * m
    ensures turns >= 19
  {
    var first := First2(k, g, d);
    FirstReturn(turns, d, m, 99, 31, 5776253194797940405, first);
  }

  lemma First4(k: nat, g: int, d: int) returns (first: nat)
    requires k in {1, 6} && 9 * d == k * TWO64 + 4 - g && -8 <= g <= 8
    ensures 3060 <= first < 9999 && (first + 2704 * d) % 9999 == 0
  {
    Gap(k, 4, g, d);
    if k == 1 && g == -7 {
      assert d == 2049638230412172403;
      first := 4472;
    } else if k == 1 && g == 2 {
      assert d == 2049638230412172402;
      first := 7176;
    } else if k == 6 && g == -8 {
      assert d == 12297829382473034412;
      first := 3060;
    } else {
      assert d == 12297829382473034411;
      first := 5764;
    }
  }

  lemma Turns4(k: nat, g: int, d: int, m: int, turns: nat)
    requires k in {1, 6} && 9 * d == k * TWO64 + 4 - g && -8 <= g <= 8
    requires turns * TWO64 + d == 9999 * m
    ensures turns >= 3060
  {
    var first := First4(k, g, d);
    FirstReturn(turns, d, m, 9999, 2704, 4988498447375800337, first);
  }

  lemma First6(k: nat, g: int, d: int) returns (first: nat)
    requires k == 4 && 9 * d == k * TWO64 + 6 - g && -8 <= g <= 8
    ensures 323260 <= first < 999999 && (first + 909346 * d) % 999999 == 0
  {
    Gap(k, 6, g, d);
    if k == 4 && g == -2 {
      assert d == 8198552921648689608;
      first := 413913;
    } else {
      assert d == 8198552921648689607;
      first := 323260;
    }
  }

  lemma Turns6(k: nat, g: int, d: int, m: int, turns: nat)
    requires k == 4 && 9 * d == k * TWO64 + 6 - g && -8 <= g <= 8
    requires turns * TWO64 + d == 999999 * m
    ensures turns >= 323260
  {
    var first := First6(k, g, d);
    FirstReturn(turns, d, m, 999999, 909346, 16774489710941196865, first);
  }

  lemma First8(k: nat, g: int, d: int) returns (first: nat)
    requires k in {2, 7} && 9 * d == k * TWO64 + 8 - g && -8 <= g <= 8
    ensures 45348406 <= first < 99999999 && (first + 98372866 * d) % 99999999 == 0
  {
    Gap(k, 8, g, d);
    if k == 2 && g == -5 {
      assert d == 4099276460824344805;
      first := 57905858;
    } else if k == 2 && g == 4 {
      assert d == 4099276460824344804;
      first := 56278725;
    } else if k == 7 && g == -6 {
      assert d == 14347467612885206814;
      first := 46975539;
    } else {
      assert d == 14347467612885206813;
      first := 45348406;
    }
  }

  lemma Turns8(k: nat, g: int, d: int, m: int, turns: nat)
    requires k in {2, 7} && 9 * d == k * TWO64 + 8 - g && -8 <= g <= 8
    requires turns * TWO64 + d == 99999999 * m
    ensures turns >= 45348406
  {
    var first := First8(k, g, d);
    FirstReturn(turns, d, m, 99999999, 98372866, 18146591010459148545, first);
  }

  /** A number below 2^64 / 9 does not make that many turns. */
  lemma NoReturn(k: nat, g: int, n: nat, m: nat, e: nat, turns: int)
    requires 1 <= k <= 8 && e == 4 * k % 10 && 9 * (n - m) == k * TWO64 + e - g && -8 <= g <= 8
    requires 9 * m <= TWO64 + 9 && turns >= 0
    ensures m * Pow(10, e) != turns * TWO64 + n
  {
    Tens();
    if m * Pow(10, e) == turns * TWO64 + n {
      if e == 2 { Turns2(k, g, n - m, m, turns); }
      if e == 4 { Turns4(k, g, n - m, m, turns); }
      if e == 6 { Turns6(k, g, n - m, m, turns); }
      if e == 8 { Turns8(k, g, n - m, m, turns); }
    }
  }

  lemma Tens()
    ensures Pow(10, 0) == 1 && Pow(10, 2) == 100 && Pow(10, 4) == 10000 && Pow(10, 6) == 1000000 && Pow(10, 8) == 100000000
  {
    assert Pow(10, 3) == 1000 && Pow(10, 5) == 100000 && Pow(10, 7) == 10000000;
  }

  lemma LargeCode(n: nat)
    requires 0 < n < TWO64 && Compress(n) >= TWO64
    ensures Decompress(Compress(n) % TWO64) % TWO64 != n
  {
    var c, y := Compress(n), n / 10 * 9 + n % 10 - 1;
    CompressBound(n);
    if Reduced(n, 0).e > 0 { TensFit(n); }
    var k := Quotient(c);
    var x := c - k * TWO64;
    DivModUnique(c, TWO64, k, x);
    var m, e, g := CutCode(n, y, k, x);
    var turns := m * Pow(10, e) / TWO64;
    DivMod(m * Pow(10, e), TWO64);
    TurnsNonneg(m, e);
    NoReturn(k, g, n, m, e, turns);
  }

  lemma TurnsNonneg(m: nat, e: nat)
    ensures m * Pow(10, e) / TWO64 >= 0
  {
    MulMono(0, m, Pow(10, e));
  }

  lemma Quotient(c: nat) returns (k: nat)
    requires TWO64 <= c < 9 * TWO64
    ensures 1 <= k <= 8 && 0 <= c - k * TWO64 < TWO64
  {
    k := 1;
    while c - k * TWO64 >= TWO64
      invariant 1 <= k <= 8 && 0 <= c - k * TWO64
    {
      k := k + 1;
    }
  }

  /** The largest amount without a trailing zero whose code fits into 64 bits. */
  const LARGEST_CODED := 2049638230412172402

  /** The code of a 64-bit word fits into 64 bits exactly when the word ends in zero or is small enough. */
  lemma FitsIff(n: nat)
    requires n < TWO64
    ensures Compress(n) < TWO64 <==> n % 10 == 0 || n <= LARGEST_CODED
  {
    if n > 0 && n % 10 == 0 {
      assert Reduced(n, 0) == Reduced(n / 10, 1);
      TensFit(n);
    }
  }

  /** The amount is a 64-bit number whose word ends in zero or is small enough. */
  predicate CodeFits(v: int) { -TWO63 <= v < TWO63 && (v % TWO64 % 10 == 0 || v % TWO64 <= LARGEST_CODED) }

  /** An amount, also a negative one, comes back exactly when its code fits into 64 bits. */
  lemma SurvivesIff(v: int)
    ensures Survives(v) <==> CodeFits(v)
  {
    LoadedRange(StoredAmount(v));
    if -TWO63 <= v < TWO63 {
      WordOf(v);
      FitsIff(v % TWO64);
      if Compress(v % TWO64) < TWO64 { FittingSurvives(v); } else { LargeCode(v % TWO64); }
    }
  }

  lemma LoadedRange(x: nat)
    ensures -TWO63 <= LoadedAmount(x) < TWO63
  {}

  /** An amount of 64 bits that is lost. */
  lemma AmountLost()
    ensures !Survives(2_100_000_000_000_000_001)
  {
    SurvivesIff(2_100_000_000_000_000_001);
  }

  // ----- variable-length integers -----

  predicate Byte(x: int) { 0 <= x < 0x100 }

  /** The bytes of n, all marked as continued. */
  function Continued(n: int): (s: seq<int>) {
    if n <= 0x7F then [n % 0x80 + 0x80] else Continued(n / 0x80 - 1) + [n % 0x80 + 0x80]
  }

  /** WriteVarInt: base 128, most significant byte first, each byte but the last marked. */
  function WriteVarInt(n: int): (s: seq<int>) {
    if n <= 0x7F then [n % 0x80] else Continued(n / 0x80 - 1) + [n % 0x80]
  }

  /** What a stream of bytes spells, with n read so far: the number and the rest of the stream. */
  function ReadExact(s: seq<int>, n: int): Option<(int, seq<int>)> {
    if s == [] then None
    else
      var m := n * 0x80 + s[0] % 0x80;
      if s[0] >= 0x80 then ReadExact(s[1..], m + 1) else Some((m, s[1..]))
  }

  /** ReadVarInt in words of the given size, with n read so far: every step wraps around. */
  function ReadVarInt(s: seq<int>, n: nat, size: nat): (r: Option<(nat, seq<int>)>)
    requires size > 0
    ensures r.Some? ==> r.value.0 < size
  {
    if s == [] then None
    else
      var m := (n * 0x80 + s[0] % 0x80) % size;
      if s[0] >= 0x80 then ReadVarInt(s[1..], (m + 1) % size, size) else Some((m, s[1..]))
  }

  lemma WrapStep(n: int, d: int, size: nat)
    requires size > 0
    ensures (n % size * 0x80 + d) % size == (n * 0x80 + d) % size
  {
    ModTimes(n, 0x80, size);
    ModAdd(n % size * 0x80, d, size);
    ModAdd(n * 0x80, d, size);
  }

  /** Wrapping at every step is wrapping once at the end, also for a stream that no writer made. */
  lemma {:induction false} ReadWraps(s: seq<int>, n: int, size: nat)
    requires size > 0
    ensures var e, r := ReadExact(s, n), ReadVarInt(s, n % size, size);
            if e.None? then r.None? else r == Some((e.value.0 % size, e.value.1))
  {
    if s != [] {
      WrapStep(n, s[0] % 0x80, size);
      if s[0] >= 0x80 {
        var m := n * 0x80 + s[0] % 0x80;
        ModAdd(m, 1, size);
        ReadWraps(s[1..], m + 1, size);
      }
    }
  }

  lemma {:induction false} ReadContinued(n: nat, rest: seq<int>)
    ensures ReadExact(Continued(n) + rest, 0) == ReadExact(rest, n + 1)
  {
    var b := n % 0x80 + 0x80;
    if n <= 0x7F {
      ReadByte(b, rest, 0);
    } else {
      ReadContinued(n / 0x80 - 1, [b] + rest);
      assert Continued(n) + rest == Continued(n / 0x80 - 1) + ([b] + rest);
      ReadByte(b, rest, n / 0x80);
    }
  }

  lemma ReadByte(b: int, rest: seq<int>, n: int)
    requires 0x80 <= b < 0x100
    ensures ReadExact([b] + rest, n) == ReadExact(rest, n * 0x80 + b - 0x80 + 1)
  {
    assert ([b] + rest)[1..] == rest;
  }

  lemma ReadLast(b: int, rest: seq<int>, n: int)
    requires 0 <= b < 0x80
    ensures ReadExact([b] + rest, n) == Some((n * 0x80 + b, rest))
  {
    assert ([b] + rest)[1..] == rest;
  }

  /** What is left of a number that was written: the low seven bits if it was negative. */
  function Kept(n: int): (r: nat)
    ensures r == n <==> n >= 0
  {
    if n < 0 then n % 0x80 else n
  }

  lemma ExactRoundTrip(n: int, rest: seq<int>)
    ensures ReadExact(WriteVarInt(n) + rest, 0) == Some((Kept(n), rest))
  {
    var b := n % 0x80;
    if n <= 0x7F {
      ReadLast(b, rest, 0);
    } else {
      assert WriteVarInt(n) + rest == Continued(n / 0x80 - 1) + ([b] + rest);
      ReadContinued(n / 0x80 - 1, [b] + rest);
      ReadLast(b, rest, n / 0x80);
    }
  }

  lemma ReadModulo(s: seq<int>, v: nat, rest: seq<int>, size: nat)
    requires size > 0 && ReadExact(s, 0) == Some((v, rest))
    ensures ReadVarInt(s, 0, size) == Some((v % size, rest))
  {
    DivModUnique(0, size, 0, 0);
    ReadWraps(s, 0, size);
  }

  /** Reading consumes exactly what was written and gives it back when it is not negative and fits. */
  lemma VarIntRoundTrip(n: int, rest: seq<int>, size: nat)
    requires size > 0
    ensures ReadVarInt(WriteVarInt(n) + rest, 0, size) == Some((Kept(n) % size, rest))
  {
    ExactRoundTrip(n, rest);
    ReadModulo(WriteVarInt(n) + rest, Kept(n), rest, size);
  }

  function Mark(len: nat): int { if len == 1 then 0 else 0x80 }

  /** The bytes of n where len bytes end with its last. */
  function Digits(n: int, len: nat): seq<int> { if len == 1 then WriteVarInt(n) else Continued(n) }

  /** The loops of WriteVarInt: the digits are found last one first. */
  method VarIntBytes(n: int) returns (s: seq<int>)
    ensures s == WriteVarInt(n)
  {
    s := [n % 0x80];
    var m := n;
    while m > 0x7F
      invariant |s| > 0 && s[0] == m % 0x80 + Mark(|s|) && (|s| == 1 ==> m == n)
      invariant WriteVarInt(n) == Digits(m, |s|) + s[1..]
    {
      assert Digits(m, |s|) + s[1..] == Continued(m / 0x80 - 1) + s;
      m := m / 0x80 - 1;
      s := [m % 0x80 + 0x80] + s;
    }
  }

  /** The loop of ReadVarInt. */
  method VarIntRead(s: seq<int>, size: nat) returns (r: Option<(nat, seq<int>)>)
    requires size > 0
    ensures r == ReadVarInt(s, 0, size)
  {
    var n: nat, i := 0, 0;
    assert s[0..] == s;
    while i < |s|
      invariant 0 <= i <= |s| && ReadVarInt(s, 0, size) == ReadVarInt(s[i..], n, size)
    {
      assert s[i..][1..] == s[i + 1..];
      n := (n * 0x80 + s[i] % 0x80) % size;
      if s[i] < 0x80 { return Some((n, s[i + 1..])); }
      n := (n + 1) % size;
      i := i + 1;
    }
    return None;
  }

  /** The size that GetSerializeSize adds up for a variable-length integer. */
  method SizeOfVarInt(n: int) returns (nRet: nat)
    ensures nRet == |WriteVarInt(n)|
  {
    nRet := 1;
    var m := n;
    VarIntLength(n);
    while m > 0x7F
      invariant nRet + |Continued(m)| == |WriteVarInt(n)| + 1
    {
      m := m / 0x80 - 1;
      nRet := nRet + 1;
    }
  }

  lemma VarIntLength(n: int)
    ensures |WriteVarInt(n)| == |Continued(n)|
  {}
}
