/**
 * Base58 text: EncodeBase58 and DecodeBase58 of src/base58.cpp.  Both directions keep a
 * big-endian number in a buffer whose size is estimated from the length of the input.
 */
module Base58 {
  import opened Arithmetic

  /** pszBase58: the alphanumeric characters except 0, I, O and l, in ASCII order. */
  function Symbol(d: int): char
    requires 0 <= d < 58
  {
    (if d < 9 then '1' as int + d
     else if d < 17 then 'A' as int + d - 9
     else if d < 22 then 'J' as int + d - 17
     else if d < 33 then 'P' as int + d - 22
     else if d < 44 then 'a' as int + d - 33
     else 'm' as int + d - 44) as char
  }

  // ----- numbers as digit strings -----

  predicate Digits(s: seq<int>, b: nat) { forall i | 0 <= i < |s| :: 0 <= s[i] < b }

  /** The number that s denotes in base b, most significant digit first. */
  ghost function Value(s: seq<int>, b: nat): int
    requires b > 0
  {
    if s == [] then 0 else s[0] * Pow(b, |s| - 1) + Value(s[1..], b)
  }

  ghost function Zeros(s: seq<int>): (n: nat)
    ensures n <= |s| && (n < |s| ==> s[n] != 0) && forall i | 0 <= i < n :: s[i] == 0
  {
    if s != [] && s[0] == 0 then 1 + Zeros(s[1..]) else 0
  }

  /** Two digit strings, in possibly different bases, for the same number and leading zeros. */
  ghost predicate Same(s: seq<int>, b: nat, t: seq<int>, c: nat)
    requires b > 0 && c > 0
  {
    Zeros(s) == Zeros(t) && Value(s, b) == Value(t, c)
  }

  lemma {:induction false} ValueSnoc(s: seq<int>, d: int, b: nat)
    requires b > 0
    ensures Value(s + [d], b) == Value(s, b) * b + d
  {
    if s == [] {
      assert [d][1..] == [];
    } else {
      assert (s + [d])[1..] == s[1..] + [d];
      ValueSnoc(s[1..], d, b);
      var p := Pow(b, |s| - 1);
      MulDist(s[0] * p, Value(s[1..], b), b);
      MulAssoc(s[0], p, b);
      assert p * b == Pow(b, |s|);
    }
  }

  lemma {:induction false} ValueBound(s: seq<int>, b: nat)
    requires b > 0 && Digits(s, b)
    ensures 0 <= Value(s, b) < Pow(b, |s|)
  {
    if s != [] {
      ValueBound(s[1..], b);
      var p := Pow(b, |s| - 1);
      MulMono(0, s[0], p);
      MulMono(s[0] + 1, b, p);
      MulDist(s[0], 1, p);
    }
  }

  lemma {:induction false} ValueDropZeros(s: seq<int>, b: nat, k: nat)
    requires b > 0 && k <= |s| && forall i | 0 <= i < k :: s[i] == 0
    ensures Value(s, b) == Value(s[k..], b)
  {
    if k > 0 {
      ValueDropZeros(s[1..], b, k - 1);
      assert s[1..][k - 1..] == s[k..];
    }
  }

  lemma ValuePositive(s: seq<int>, b: nat)
    requires b > 0 && Digits(s, b) && s != [] && s[0] != 0
    ensures Value(s, b) > 0
  {
    ValueBound(s[1..], b);
    MulMono(1, s[0], Pow(b, |s| - 1));
  }

  /** Without leading zeros a number has one digit string. */
  lemma {:induction false} UniqueStripped(s: seq<int>, t: seq<int>, b: nat)
    requires b > 0 && Digits(s, b) && Digits(t, b) && Value(s, b) == Value(t, b)
    requires (s == [] || s[0] != 0) && (t == [] || t[0] != 0)
    ensures s == t
  {
    if s == [] {
      if t != [] { ValuePositive(t, b); }
    } else if t == [] {
      ValuePositive(s, b);
    } else {
      LastDigit(s, b);
      LastDigit(t, b);
      UniqueStripped(s[..|s| - 1], t[..|t| - 1], b);
    }
  }

  lemma LastDigit(s: seq<int>, b: nat)
    requires b > 0 && Digits(s, b) && s != []
    ensures Value(s, b) % b == s[|s| - 1] && Value(s, b) / b == Value(s[..|s| - 1], b)
  {
    var n := |s| - 1;
    assert s == s[..n] + [s[n]];
    ValueSnoc(s[..n], s[n], b);
    DivModUnique(Value(s, b), b, Value(s[..n], b), s[n]);
  }

  /** Number and leading zeros together determine the digit string. */
  lemma Unique(s: seq<int>, t: seq<int>, b: nat)
    requires b > 0 && Digits(s, b) && Digits(t, b) && Same(s, b, t, b)
    ensures s == t
  {
    var k := Zeros(s);
    ValueDropZeros(s, b, k);
    ValueDropZeros(t, b, k);
    UniqueStripped(s[k..], t[k..], b);
    assert s[..k] == t[..k];
    assert s == s[..k] + s[k..] && t == t[..k] + t[k..];
  }

  lemma {:induction false} ZerosThen(k: nat, s: seq<int>)
    requires s == [] || s[0] != 0
    ensures Zeros(seq(k, i => 0) + s) == k
  {
    var t := seq(k, i => 0) + s;
    if k > 0 {
      assert t[1..] == seq(k - 1, i => 0) + s;
      ZerosThen(k - 1, s);
    }
  }

  /** Any number of zeros before the digits of a number. */
  lemma Padded(k: nat, s: seq<int>, t: seq<int>, b: nat, c: nat)
    requires b > 0 && c > 0 && (s == [] || s[0] != 0) && Zeros(t) == k && Value(s, b) == Value(t, c)
    ensures Same(seq(k, i => 0) + s, b, t, c)
  {
    ZerosThen(k, s);
    var z := seq(k, i => 0) + s;
    ValueDropZeros(z, b, k);
    assert z[k..] == s;
  }

  // ----- the buffer estimates -----

  lemma {:induction false} PowMul(b: nat, x: nat, y: nat)
    requires b > 0
    ensures Pow(Pow(b, x), y) == Pow(b, x * y)
  {
    if y > 0 {
      PowMul(b, x, y - 1);
      MulDist(y - 1, 1, x);
      PowAdd(b, x, x * (y - 1));
    }
  }

  lemma {:induction false} PowBase(a: nat, b: nat, n: nat)
    requires 0 < a <= b
    ensures Pow(a, n) <= Pow(b, n)
  {
    if n > 0 {
      PowBase(a, b, n - 1);
      MulMono(a, b, Pow(a, n - 1));
      MulMono(Pow(a, n - 1), Pow(b, n - 1), b);
    }
  }

  lemma PowBaseStrict(a: nat, b: nat, n: nat)
    requires 0 < a < b && n > 0
    ensures Pow(a, n) < Pow(b, n)
  {
    PowBase(a, b, n - 1);
    MulStrict(a, b, Pow(a, n - 1));
    MulMono(Pow(a, n - 1), Pow(b, n - 1), b);
  }

  lemma {:induction false} PowMono(b: nat, i: nat, j: nat)
    requires b > 0 && i <= j
    ensures Pow(b, i) <= Pow(b, j)
  {
    if i < j {
      PowMono(b, i, j - 1);
      MulMono(1, b, Pow(b, j - 1));
    }
  }

  lemma PowMulSwapped(b: nat, x: nat, y: nat)
    requires b > 0
    ensures Pow(Pow(b, x), y) == Pow(b, y * x)
  {
    PowMul(b, x, y);
    assert x * y == y * x;
  }

  lemma RaisedFits(b: nat, p: nat, c: nat, q: nat, m: nat)
    requires b > 0 && c > 0 && Pow(b, p) <= Pow(c, q)
    ensures Pow(b, m * p) <= Pow(c, q * m)
  {
    PowBase(Pow(b, p), Pow(c, q), m);
    PowMulSwapped(b, p, m);
    PowMul(c, q, m);
  }

  lemma RootFits(b: nat, c: nat, p: nat, m: nat, k: nat)
    requires b > 0 && c > 0 && p > 0 && Pow(b, m * p) <= Pow(c, k * p)
    ensures Pow(b, m) <= Pow(c, k)
  {
    if Pow(b, m) > Pow(c, k) {
      PowBaseStrict(Pow(c, k), Pow(b, m), p);
      PowMul(b, m, p);
      PowMul(c, k, p);
      assert false;
    }
  }

  /** From b^p <= c^q: m digits in base b fit in k digits in base c as soon as q m <= p k. */
  lemma Fits(b: nat, p: nat, c: nat, q: nat, m: nat, k: nat)
    requires b > 0 && c > 0 && p > 0 && Pow(b, p) <= Pow(c, q) && q * m <= k * p
    ensures Pow(b, m) <= Pow(c, k)
  {
    RaisedMono(b, p, c, q, m, q * m, k * p);
    RootFits(b, c, p, m, k);
  }

  lemma RaisedMono(b: nat, p: nat, c: nat, q: nat, m: nat, x: nat, y: nat)
    requires b > 0 && c > 0 && Pow(b, p) <= Pow(c, q) && x == q * m && x <= y
    ensures Pow(b, m * p) <= Pow(c, y)
  {
    RaisedFits(b, p, c, q, m);
    PowMono(c, x, y);
  }

  /** The 138/100 estimate of EncodeBase58: 256^8 <= 58^11. */
  lemma EncodeBufferSuffices(n: nat)
    ensures Pow(256, n) <= Pow(58, n * 138 / 100 + 1)
  {
    assert Pow(256, 8) <= Pow(58, 11);
    Fits(256, 8, 58, 11, n, n * 138 / 100 + 1);
  }

  lemma PowersOf58()
    ensures Pow(58, 35) == 0x20a8469deca6b5a6d367cbc0907d07e6a5584778de2800000000
  {
    assert Pow(58, 8) == 0x7479027ea100;
    PowAdd(58, 8, 9);
    assert Pow(58, 17) == 0xc018588c2b6cc46cf08ba0000;
    PowAdd(58, 17, 18);
  }

  lemma PowersOf256()
    ensures Pow(256, 26) == 0x10000000000000000000000000000000000000000000000000000
  {
    assert Pow(256, 6) == 0x1000000000000;
    PowAdd(256, 6, 7);
    PowAdd(256, 13, 13);
  }

  lemma BasesCompared()
    ensures Pow(58, 71) <= Pow(256, 52)
  {
    PowersOf58();
    PowAdd(58, 35, 36);
    PowersOf256();
    PowAdd(256, 26, 26);
  }

  lemma DecodeRatio(n: nat)
    ensures 52 * n <= (n * 733 / 1000 + 1) * 71
  {}

  /** The 733/1000 estimate of DecodeBase58: 58^71 <= 256^52. */
  lemma DecodeBufferSuffices(n: nat)
    ensures Pow(58, n) <= Pow(256, n * 733 / 1000 + 1)
  {
    BasesCompared();
    DecodeRatio(n);
    Fits(58, 71, 256, 52, n, n * 733 / 1000 + 1);
  }

  // ----- the alphabet -----

  /** strchr on the alphabet, from position i: the first position of c, or -1. */
  function Find(c: char, i: nat): (r: int)
    requires i <= 58
    ensures r == -1 || (i <= r < 58 && Symbol(r) == c)
    ensures r == -1 ==> forall j | i <= j < 58 :: Symbol(j) != c
    decreases 58 - i
  {
    if i == 58 then -1 else if Symbol(i) == c then i else Find(c, i + 1)
  }

  lemma SymbolInjective(i: nat, j: nat)
    requires i < 58 && j < 58 && Symbol(i) == Symbol(j)
    ensures i == j
  {}

  lemma FindSymbol(d: nat)
    requires d < 58
    ensures Find(Symbol(d), 0) == d
  {
    var r := Find(Symbol(d), 0);
    if r != -1 { SymbolInjective(r, d); }
  }

  predicate IsWord(str: string) { forall i | 0 <= i < |str| :: Find(str[i], 0) >= 0 }

  /** The digits that a base58 word spells. */
  function DigitsOf(str: string): (s: seq<int>)
    requires IsWord(str)
    ensures Digits(s, 58) && |s| == |str|
  {
    seq(|str|, i requires 0 <= i < |str| => Find(str[i], 0))
  }

  /** A word is determined by its digits. */
  lemma WordUnique(str: string, str': string)
    requires IsWord(str) && IsWord(str') && DigitsOf(str) == DigitsOf(str')
    ensures str == str'
  {
    forall i | 0 <= i < |str| ensures str[i] == str'[i] {
      assert DigitsOf(str)[i] == Find(str[i], 0) && DigitsOf(str')[i] == Find(str'[i], 0);
    }
  }

  // ----- multiply and add in place -----

  /** Positions pos.. hold the low digits of old * factor + add, up to a carry. */
  ghost predicate Multiplied(r: seq<int>, prior: seq<int>, b: nat, factor: nat, add: nat, pos: nat, carry: int)
    requires b > 0 && |r| == |prior| && pos <= |r|
  {
    && Digits(r, b)
    && (forall i | 0 <= i < pos :: r[i] == prior[i])
    && Value(r[pos..], b) + carry * Pow(b, |r| - pos) == Value(prior[pos..], b) * factor + add
  }

  lemma DigitStep(low: int, oldLow: int, x: int, n: int, carry: int, b: nat, factor: nat, add: nat, p: int)
    requires b > 0 && n == carry + factor * x && low + carry * p == oldLow * factor + add
    ensures n % b * p + low + n / b * (b * p) == (x * p + oldLow) * factor + add
  {
    DivMod(n, b);
    MulDist(n % b, n / b * b, p);
    MulAssoc(n / b, b, p);
    MulDist(carry, factor * x, p);
    MulDist(x * p, oldLow, factor);
    assert factor * x * p == x * p * factor by { MulAssoc(factor, x, p); }
  }

  lemma MultiplyStep(r: seq<int>, prior: seq<int>, b: nat, factor: nat, add: nat, pos: nat, carry: int)
    requires b > 0 && |r| == |prior| && 0 < pos <= |r| && Multiplied(r, prior, b, factor, add, pos, carry)
    ensures var n := carry + factor * r[pos - 1];
            Multiplied(r[pos - 1 := n % b], prior, b, factor, add, pos - 1, n / b)
  {
    var q, x := pos - 1, r[pos - 1];
    var n := carry + factor * x;
    var r' := r[q := n % b];
    assert r'[q..][1..] == r[pos..] && prior[q..][1..] == prior[pos..];
    DigitStep(Value(r[pos..], b), Value(prior[pos..], b), x, n, carry, b, factor, add, Pow(b, |r| - pos));
  }

  /** When the new value fits the buffer nothing is carried out of it. */
  lemma MultiplyStarts(r: seq<int>, b: nat, factor: nat, add: nat)
    requires b > 0 && Digits(r, b)
    ensures Multiplied(r, r, b, factor, add, |r|, add)
  {
    assert r[|r|..] == [];
  }

  lemma MultiplyDone(r: seq<int>, prior: seq<int>, b: nat, factor: nat, add: nat, carry: nat)
    requires b > 0 && |r| == |prior| && Multiplied(r, prior, b, factor, add, 0, carry)
    requires Value(prior, b) * factor + add < Pow(b, |r|)
    ensures carry == 0 && Value(r, b) == Value(prior, b) * factor + add
  {
    assert r[0..] == r && prior[0..] == prior;
    ValueBound(r, b);
    NoCarry(Value(r, b), carry, Pow(b, |r|));
  }

  lemma NoCarry(v: int, carry: nat, p: int)
    requires 0 <= v && p > 0 && v + carry * p < p
    ensures carry == 0
  {
    if carry > 0 { MulMono(1, carry, p); }
  }

  /** One step of either carry loop, at position it. */
  method MultiplyDigit(buffer: array<int>, it: nat, b: nat, factor: nat, carry: nat, ghost prior: seq<int>, ghost add: nat)
    returns (carry': nat)
    requires b > 0 && it < buffer.Length == |prior| && Multiplied(buffer[..], prior, b, factor, add, it + 1, carry)
    modifies buffer
    ensures Multiplied(buffer[..], prior, b, factor, add, it, carry')
  {
    ghost var now := buffer[..];
    MultiplyStep(now, prior, b, factor, add, it + 1, carry);
    CarryNonneg(carry, factor, buffer[it], b);
    var n := carry + factor * buffer[it];
    buffer[it] := n % b;
    assert buffer[..] == now[it := n % b];
    carry' := n / b;
  }

  lemma CarryNonneg(carry: nat, factor: nat, digit: nat, b: nat)
    requires b > 0
    ensures (carry + factor * digit) / b >= 0
  {
    MulMono(0, factor, digit);
    DivMod(carry + factor * digit, b);
    if (carry + factor * digit) / b < 0 { MulMono((carry + factor * digit) / b, -1, b); assert false; }
  }

  /** The carry loop of DecodeBase58: b256 = b256 * 58 + digit. */
  method MultiplyBy58(b256: array<int>, digit: nat)
    requires Digits(b256[..], 256) && digit < 58
    requires Value(b256[..], 256) * 58 + digit < Pow(256, b256.Length)
    modifies b256
    ensures Digits(b256[..], 256) && Value(b256[..], 256) == old(Value(b256[..], 256)) * 58 + digit
  {
    ghost var before := b256[..];
    var carry := digit;
    var it := b256.Length;
    MultiplyStarts(before, 256, 58, digit);
    while it > 0
      invariant 0 <= it <= b256.Length && carry >= 0
      invariant Multiplied(b256[..], before, 256, 58, digit, it, carry)
    {
      it := it - 1;
      carry := MultiplyDigit(b256, it, 256, 58, carry, before, digit);
    }
    MultiplyDone(b256[..], before, 256, 58, digit, carry);
    assert carry == 0;
  }

  /** The carry loop of EncodeBase58: b58 = b58 * 256 + byte, over the digits in use only. */
  method MultiplyBy256(b58: array<int>, byte: nat, length: nat) returns (length': nat)
    requires Digits(b58[..], 58) && byte < 256 && length <= b58.Length
    requires forall i | 0 <= i < b58.Length - length :: b58[i] == 0
    requires Value(b58[..], 58) * 256 + byte < Pow(58, b58.Length)
    modifies b58
    ensures Digits(b58[..], 58) && Value(b58[..], 58) == old(Value(b58[..], 58)) * 256 + byte
    ensures length' <= b58.Length && forall i | 0 <= i < b58.Length - length' :: b58[i] == 0
  {
    ghost var before := b58[..];
    var carry, i := byte, 0;
    MultiplyStarts(before, 58, 256, byte);
    while (carry != 0 || i < length) && i < b58.Length
      invariant 0 <= i <= b58.Length && carry >= 0
      invariant Multiplied(b58[..], before, 58, 256, byte, b58.Length - i, carry)
    {
      carry := MultiplyDigit(b58, b58.Length - 1 - i, 58, 256, carry, before, byte);
      i := i + 1;
    }
    StoppedEarly(b58[..], before, 58, 256, byte, b58.Length - i, carry);
    assert carry == 0;
    return i;
  }

  /** Above the stopping point there were only zeros, so nothing is missed. */
  lemma StoppedEarly(r: seq<int>, prior: seq<int>, b: nat, factor: nat, add: nat, pos: nat, carry: nat)
    requires b > 0 && |r| == |prior| && pos <= |r| && Multiplied(r, prior, b, factor, add, pos, carry)
    requires pos > 0 ==> carry == 0 && forall i | 0 <= i < pos :: prior[i] == 0
    requires Value(prior, b) * factor + add < Pow(b, |r|)
    ensures carry == 0 && Value(r, b) == Value(prior, b) * factor + add
  {
    if pos == 0 {
      MultiplyDone(r, prior, b, factor, add, carry);
    } else {
      StoppedInside(r, prior, b, factor, add, pos);
    }
  }

  lemma StoppedInside(r: seq<int>, prior: seq<int>, b: nat, factor: nat, add: nat, pos: nat)
    requires b > 0 && |r| == |prior| && pos <= |r| && Multiplied(r, prior, b, factor, add, pos, 0)
    requires forall i | 0 <= i < pos :: prior[i] == 0
    ensures Value(r, b) == Value(prior, b) * factor + add
  {
    ValueDropZeros(r, b, pos);
    ValueDropZeros(prior, b, pos);
    assert 0 * Pow(b, |r| - pos) == 0;
  }

  // ----- the codecs -----

  /** isspace in the C locale. */
  predicate IsSpace(c: char) { c == ' ' || 9 <= c as int <= 13 }

  /** Buffer and digits consumed so far stand for the same number, which fits. */
  lemma RoomForNext(s: seq<int>, b: nat, j: nat, value: int, c: nat, n: nat, size: nat)
    requires b > 0 && c > 0 && Digits(s, b) && j < |s| <= n && Pow(b, n) <= Pow(c, size) && value == Value(s[..j], b)
    ensures value * b + s[j] == Value(s[..j + 1], b) < Pow(c, size)
  {
    ValueSnoc(s[..j], s[j], b);
    assert s[..j + 1] == s[..j] + [s[j]];
    ValueBound(s[..j + 1], b);
    PowMono(b, j + 1, n);
  }

  lemma {:induction false} ZerosIs(s: seq<int>, k: nat)
    requires k <= |s| && (k < |s| ==> s[k] != 0) && forall i | 0 <= i < k :: s[i] == 0
    ensures Zeros(s) == k
  {
    if k > 0 { ZerosIs(s[1..], k - 1); }
  }

  lemma {:induction false} AllZero(s: seq<int>, b: nat)
    requires b > 0 && forall i | 0 <= i < |s| :: s[i] == 0
    ensures Value(s, b) == 0
  {
    ValueDropZeros(s, b, |s|);
  }

  /** The number in base 58, digits in use on the right. */
  method ToBase58(bytes: seq<int>) returns (b58: array<int>, length: nat)
    requires Digits(bytes, 256)
    ensures fresh(b58) && Digits(b58[..], 58) && Value(b58[..], 58) == Value(bytes, 256)
    ensures length <= b58.Length && forall i | 0 <= i < b58.Length - length :: b58[i] == 0
  {
    var size := |bytes| * 138 / 100 + 1;
    EncodeBufferSuffices(|bytes|);
    b58 := new int[size](i => 0);
    AllZero(b58[..], 58);
    length := 0;
    for j := 0 to |bytes|
      invariant Digits(b58[..], 58) && Value(b58[..], 58) == Value(bytes[..j], 256)
      invariant length <= b58.Length && forall i | 0 <= i < b58.Length - length :: b58[i] == 0
    {
      RoomForNext(bytes, 256, j, Value(b58[..], 58), 58, |bytes|, size);
      length := MultiplyBy256(b58, bytes[j], length);
    }
    assert bytes[..|bytes|] == bytes;
  }

  /** EncodeBase58: a word with the same number and as many leading ones as there were zero bytes. */
  method EncodeBase58(vch: seq<int>) returns (str: string)
    requires Digits(vch, 256)
    ensures IsWord(str) && Same(DigitsOf(str), 58, vch, 256)
  {
    var zeroes := 0;
    while zeroes < |vch| && vch[zeroes] == 0
      invariant zeroes <= |vch| && forall i | 0 <= i < zeroes :: vch[i] == 0
    {
      zeroes := zeroes + 1;
    }
    ZerosIs(vch, zeroes);
    ValueDropZeros(vch, 256, zeroes);
    var b58, length := ToBase58(vch[zeroes..]);
    var it := b58.Length - length;
    while it < b58.Length && b58[it] == 0
      invariant it <= b58.Length && forall i | 0 <= i < it :: b58[i] == 0
    {
      it := it + 1;
    }
    ValueDropZeros(b58[..], 58, it);
    str := Spell(zeroes, b58[it..]);
    Padded(zeroes, b58[it..], vch, 58, 256);
  }

  /** The last lines of EncodeBase58. */
  method Spell(zeroes: nat, digits: seq<int>) returns (str: string)
    requires Digits(digits, 58)
    ensures IsWord(str) && DigitsOf(str) == seq(zeroes, i => 0) + digits
  {
    FindSymbol(0);
    str := seq(zeroes, i => '1');
    for j := 0 to |digits|
      invariant IsWord(str) && DigitsOf(str) == seq(zeroes, i => 0) + digits[..j]
    {
      FindSymbol(digits[j]);
      ghost var before := str;
      str := str + [Symbol(digits[j])];
      DigitsOfSnoc(before, Symbol(digits[j]));
    }
  }

  lemma DigitsOfSnoc(str: string, c: char)
    requires IsWord(str) && Find(c, 0) >= 0
    ensures IsWord(str + [c]) && DigitsOf(str + [c]) == DigitsOf(str) + [Find(c, 0)]
  {}

  function FirstNonSpace(s: string, i: nat): (r: nat)
    requires i <= |s|
    ensures i <= r <= |s|
    decreases |s| - i
  {
    if i < |s| && IsSpace(s[i]) then FirstNonSpace(s, i + 1) else i
  }

  function FirstSpace(s: string, i: nat): (r: nat)
    requires i <= |s|
    ensures i <= r <= |s|
    decreases |s| - i
  {
    if i < |s| && !IsSpace(s[i]) then FirstSpace(s, i + 1) else i
  }

  /** The text between the leading spaces and the next space. */
  function Core(s: string): string {
    var from := FirstNonSpace(s, 0);
    s[from..FirstSpace(s, from)]
  }

  /** One word of base58, surrounded by nothing but spaces. */
  predicate Decodable(s: string) {
    IsWord(Core(s)) && FirstNonSpace(s, FirstSpace(s, FirstNonSpace(s, 0))) == |s|
  }

  method SkipSpaces(psz: string, i: nat) returns (r: nat)
    requires i <= |psz|
    ensures r == FirstNonSpace(psz, i)
  {
    r := i;
    while r < |psz| && IsSpace(psz[r])
      invariant i <= r <= |psz| && FirstNonSpace(psz, i) == FirstNonSpace(psz, r)
    {
      r := r + 1;
    }
  }

  /** One character of the word goes into the buffer. */
  method ReadDigit(psz: string, q: nat, p: nat, b256: array<int>, d: nat)
    requires q <= p < |psz| && !IsSpace(psz[p]) && Find(psz[p], 0) == d && Reading(psz, q, p, b256[..])
    requires Pow(58, |psz| - q) <= Pow(256, b256.Length)
    modifies b256
    ensures Reading(psz, q, p + 1, b256[..])
  {
    NextCharacter(psz, q, p, Value(b256[..], 256), b256.Length);
    MultiplyBy58(b256, d);
  }

  /** The loop of DecodeBase58 over the characters from q on. */
  method FromBase58(psz: string, q: nat) returns (ok: bool, b256: array<int>)
    requires q <= |psz|
    ensures ok <==> IsWord(psz[q..FirstSpace(psz, q)])
    ensures ok ==> Digits(b256[..], 256) && Value(b256[..], 256) == Value(DigitsOf(psz[q..FirstSpace(psz, q)]), 58)
  {
    var size := (|psz| - q) * 733 / 1000 + 1;
    DecodeBufferSuffices(|psz| - q);
    b256 := new int[size](i => 0);
    AllZero(b256[..], 256);
    ok := ReadWord(psz, q, b256);
  }

  /** The loop itself, with a buffer of zeros that is large enough. */
  method ReadWord(psz: string, q: nat, b256: array<int>) returns (ok: bool)
    requires q <= |psz| && Pow(58, |psz| - q) <= Pow(256, b256.Length)
    requires Digits(b256[..], 256) && Value(b256[..], 256) == 0
    modifies b256
    ensures ok <==> IsWord(psz[q..FirstSpace(psz, q)])
    ensures ok ==> Digits(b256[..], 256) && Value(b256[..], 256) == Value(DigitsOf(psz[q..FirstSpace(psz, q)]), 58)
  {
    var p := q;
    while p < |psz| && !IsSpace(psz[p])
      invariant q <= p <= |psz| && Reading(psz, q, p, b256[..])
    {
      var d := Find(psz[p], 0);
      if d == -1 {
        NotAWord(psz, q, p);
        return false;
      }
      ReadDigit(psz, q, p, b256, d);
      p := p + 1;
    }
    ReadAll(psz, q, p);
    return true;
  }

  lemma ReadAll(psz: string, q: nat, p: nat)
    requires q <= p <= |psz| && (p < |psz| ==> IsSpace(psz[p]))
    ensures FirstSpace(psz, p) == p
  {}

  /** The characters from q to p have been turned into the number in the buffer. */
  ghost predicate Reading(psz: string, q: nat, p: nat, buffer: seq<int>)
    requires q <= p <= |psz|
  {
    && FirstSpace(psz, q) == FirstSpace(psz, p) && IsWord(psz[q..p])
    && Digits(buffer, 256) && Value(buffer, 256) == Value(DigitsOf(psz[q..p]), 58)
  }

  lemma NotAWord(psz: string, q: nat, p: nat)
    requires q <= p < |psz| && !IsSpace(psz[p]) && Find(psz[p], 0) == -1 && FirstSpace(psz, q) == FirstSpace(psz, p)
    ensures !IsWord(psz[q..FirstSpace(psz, q)])
  {
    assert psz[q..FirstSpace(psz, q)][p - q] == psz[p];
  }

  lemma NextCharacter(psz: string, q: nat, p: nat, value: int, size: nat)
    requires q <= p < |psz| && IsWord(psz[q..p]) && Find(psz[p], 0) >= 0
    requires value == Value(DigitsOf(psz[q..p]), 58) && Pow(58, |psz| - q) <= Pow(256, size)
    ensures IsWord(psz[q..p + 1])
    ensures value * 58 + Find(psz[p], 0) == Value(DigitsOf(psz[q..p + 1]), 58) < Pow(256, size)
  {
    assert psz[q..p + 1] == psz[q..p] + [psz[p]];
    DigitsOfSnoc(psz[q..p], psz[p]);
    var s := DigitsOf(psz[q..p + 1]);
    assert s[..p - q] == DigitsOf(psz[q..p]) && s[..p - q + 1] == s;
    RoomForNext(s, 58, p - q, value, 256, |psz| - q, size);
  }

  /** DecodeBase58, on the characters of a C string. */
  method DecodeBase58(psz: string) returns (ok: bool, vch: seq<int>)
    requires forall i | 0 <= i < |psz| :: psz[i] != '\0'
    ensures ok <==> Decodable(psz)
    ensures ok ==> Digits(vch, 256) && Same(vch, 256, DigitsOf(Core(psz)), 58)
  {
    var from := SkipSpaces(psz, 0);
    var zeroes := 0;
    while from + zeroes < |psz| && psz[from + zeroes] == '1'
      invariant from + zeroes <= |psz| && forall i | from <= i < from + zeroes :: psz[i] == '1'
    {
      zeroes := zeroes + 1;
    }
    var q := from + zeroes;
    LeadingOnes(psz, from, q);
    var b256;
    ok, b256 := FromBase58(psz, q);
    if !ok {
      return false, [];
    }
    var rest := SkipSpaces(psz, FirstSpace(psz, q));
    if rest != |psz| {
      return false, [];
    }
    vch := Collect(zeroes, b256, DigitsOf(Core(psz)));
  }

  /** The last lines of DecodeBase58: leading zeroes of the buffer are dropped, those of the text kept. */
  method Collect(zeroes: nat, b256: array<int>, ghost d: seq<int>) returns (vch: seq<int>)
    requires Digits(b256[..], 256) && Zeros(d) == zeroes && Value(b256[..], 256) == Value(d, 58)
    ensures Digits(vch, 256) && Same(vch, 256, d, 58)
  {
    var it := 0;
    while it < b256.Length && b256[it] == 0
      invariant it <= b256.Length && forall i | 0 <= i < it :: b256[i] == 0
    {
      it := it + 1;
    }
    ValueDropZeros(b256[..], 256, it);
    vch := seq(zeroes, i => 0) + b256[it..];
    Padded(zeroes, b256[it..], d, 256, 58);
  }

  lemma {:induction false} SpaceAfter(s: string, i: nat, j: nat)
    requires i <= j <= |s| && forall k | i <= k < j :: !IsSpace(s[k])
    ensures FirstSpace(s, i) == FirstSpace(s, j)
    decreases j - i
  {
    if i < j { SpaceAfter(s, i + 1, j); }
  }

  lemma FindOne()
    ensures Find('1', 0) == 0
  {
    FindSymbol(0);
  }

  /** Leading ones are the leading zero digits of the word. */
  lemma LeadingOnes(psz: string, from: nat, q: nat)
    requires from == FirstNonSpace(psz, 0) && from <= q <= |psz|
    requires (forall i | from <= i < q :: psz[i] == '1') && (q < |psz| ==> psz[q] != '1')
    ensures FirstSpace(psz, from) == FirstSpace(psz, q)
    ensures IsWord(psz[q..FirstSpace(psz, q)]) <==> IsWord(Core(psz))
    ensures IsWord(Core(psz)) ==> var d := DigitsOf(Core(psz));
      Zeros(d) == q - from && Value(d, 58) == Value(DigitsOf(psz[q..FirstSpace(psz, q)]), 58)
  {
    SpaceAfter(psz, from, q);
    var to := FirstSpace(psz, q);
    var w := psz[from..to];
    assert w[q - from..] == psz[q..to];
    OnesAndRest(w, q - from);
  }

  /** A word of k ones and a rest that does not start with one. */
  lemma OnesAndRest(w: string, k: nat)
    requires k <= |w| && (forall i | 0 <= i < k :: w[i] == '1') && (k < |w| ==> w[k] != '1')
    ensures IsWord(w[k..]) <==> IsWord(w)
    ensures IsWord(w) ==> Zeros(DigitsOf(w)) == k && Value(DigitsOf(w), 58) == Value(DigitsOf(w[k..]), 58)
  {
    OnesAreWord(w, k);
    if IsWord(w) { DigitsAfterOnes(w, k); }
  }

  lemma OnesAreWord(w: string, k: nat)
    requires k <= |w| && forall i | 0 <= i < k :: w[i] == '1'
    ensures IsWord(w[k..]) <==> IsWord(w)
  {
    FindOne();
    if IsWord(w[k..]) {
      forall i | 0 <= i < |w| ensures Find(w[i], 0) >= 0 {
        if i >= k { assert w[i] == w[k..][i - k]; }
      }
    }
    if IsWord(w) {
      forall i | 0 <= i < |w[k..]| ensures Find(w[k..][i], 0) >= 0 { assert w[k..][i] == w[k + i]; }
    }
  }

  lemma DigitsAfterOnes(w: string, k: nat)
    requires IsWord(w) && k <= |w| && IsWord(w[k..]) && (forall i | 0 <= i < k :: w[i] == '1') && (k < |w| ==> w[k] != '1')
    ensures Zeros(DigitsOf(w)) == k && Value(DigitsOf(w), 58) == Value(DigitsOf(w[k..]), 58)
  {
    var d := DigitsOf(w);
    FindOne();
    assert k < |w| ==> Symbol(d[k]) == w[k] != Symbol(0);
    assert d[k..] == DigitsOf(w[k..]);
    ZerosIs(d, k);
    ValueDropZeros(d, 58, k);
  }

  // ----- the two directions undo each other -----

  method EncodeThenDecode(vch: seq<int>) returns (str: string, ok: bool, r: seq<int>)
    requires Digits(vch, 256)
    ensures ok && r == vch
  {
    str := EncodeBase58(vch);
    WordIsCore(str);
    ok, r := DecodeBase58(str);
    Unique(r, vch, 256);
  }

  method DecodeThenEncode(psz: string) returns (ok: bool, str: string)
    requires forall i | 0 <= i < |psz| :: psz[i] != '\0'
    ensures ok <==> Decodable(psz)
    ensures ok ==> str == Core(psz)
    ensures ok && IsWord(psz) ==> str == psz
  {
    var vch;
    ok, vch := DecodeBase58(psz);
    str := "";
    if ok {
      str := EncodeBase58(vch);
      Unique(DigitsOf(str), DigitsOf(Core(psz)), 58);
      WordUnique(str, Core(psz));
      if IsWord(psz) { WordIsCore(psz); }
    }
  }

  lemma SymbolNotSpace(c: char)
    requires Find(c, 0) >= 0
    ensures !IsSpace(c) && c != '\0'
  {}

  lemma WordIsCore(str: string)
    requires IsWord(str)
    ensures Core(str) == str && Decodable(str) && forall i | 0 <= i < |str| :: str[i] != '\0'
  {
    forall i | 0 <= i < |str| ensures !IsSpace(str[i]) && str[i] != '\0' { SymbolNotSpace(str[i]); }
    SpaceAfter(str, 0, |str|);
  }
}
