/**
 * Powers, and the few facts about products and quotients that the other modules use.
 */
module Arithmetic {

  function Max(a: int, b: int): int { if a < b then b else a }

  function Min(a: int, b: int): int { if a < b then a else b }

  function Pow(b: nat, e: nat): (r: nat)
    requires b > 0
    ensures r > 0
  {
    if e == 0 then 1 else b * Pow(b, e - 1)
  }

  function Pow2(e: nat): (r: nat)
    ensures r > 0
  {
    if e == 0 then 1 else 2 * Pow2(e - 1)
  }

  lemma {:induction false} PowAdd(b: nat, i: nat, j: nat)
    requires b > 0
    ensures Pow(b, i + j) == Pow(b, i) * Pow(b, j)
  {
    if i > 0 {
      PowAdd(b, i - 1, j);
      MulAssoc(b, Pow(b, i - 1), Pow(b, j));
    }
  }

  lemma {:induction false} Pow2Add(i: nat, j: nat)
    ensures Pow2(i + j) == Pow2(i) * Pow2(j)
  {
    if i > 0 {
      Pow2Add(i - 1, j);
      MulAssoc(2, Pow2(i - 1), Pow2(j));
    }
  }

  lemma {:induction false} Pow2Mono(i: nat, j: nat)
    requires i <= j
    ensures Pow2(i) <= Pow2(j)
  {
    if i < j { Pow2Mono(i, j - 1); }
  }

  lemma MulAssoc(a: int, b: int, c: int)
    ensures a * b * c == a * (b * c)
  {}

  lemma MulDist(a: int, b: int, c: int)
    ensures (a + b) * c == a * c + b * c
  {}

  lemma MulMono(a: int, b: int, c: int)
    requires a <= b && 0 <= c
    ensures a * c <= b * c
  {}

  lemma MulStrict(a: int, b: int, c: int)
    requires a < b && 0 < c
    ensures a * c < b * c
  {}

  lemma DivMod(x: int, d: int)
    requires d > 0
    ensures x == x / d * d + x % d && 0 <= x % d < d
  {}

  /** Quotient and remainder are determined by their defining equation. */
  lemma DivModUnique(x: int, d: int, q: int, r: int)
    requires d > 0 && x == q * d + r && 0 <= r < d
    ensures x / d == q && x % d == r
  {
    var q', r' := x / d, x % d;
    assert x == q' * d + r';
    MulDist(q, -q', d);
    if q < q' {
      MulMono(q + 1, q', d);
      MulDist(q, 1, d);
    } else if q > q' {
      MulMono(q' + 1, q, d);
      MulDist(q', 1, d);
    }
  }

  lemma DivLe(a: nat, b: nat)
    requires b > 0
    ensures a / b <= a
  {
    var q, r := a / b, a % b;
    assert a == b * q + r;
    if q > a {
      MulMono(1, b, q);
      assert false;
    }
  }

  /** pos is below the rounded-up quotient exactly when its multiple is below n. */
  lemma DivCeil(n: nat, d: nat, pos: nat)
    requires d > 0
    ensures pos < (n + d - 1) / d <==> pos * d < n
  {
    var q, r := (n + d - 1) / d, (n + d - 1) % d;
    assert n + d - 1 == q * d + r;
    if pos < q {
      MulMono(pos + 1, q, d);
      MulDist(pos, 1, d);
    } else {
      MulMono(q, pos, d);
    }
  }

  /** Dividing twice is dividing by the product. */
  lemma DivDiv(x: nat, p: nat, e: nat)
    requires p > 0 && e > 0
    ensures p * e > 0 && x / p / e == x / (p * e)
  {
    var q, r := x / p, x % p;
    var q', r' := q / e, q % e;
    assert x == q * p + r;
    assert q == q' * e + r';
    MulStrict(0, p, e);
    assert x == q' * (p * e) + (r' * p + r) by {
      MulDist(q' * e, r', p);
      MulAssoc(q', e, p);
      assert e * p == p * e;
    }
    assert r' * p + r < p * e by {
      MulMono(r' + 1, e, p);
      MulDist(r', 1, p);
    }
    MulMono(0, r', p);
    DivModUnique(x, p * e, q', r' * p + r);
  }

  lemma ModShift(x: int, k: int, m: int)
    requires m > 0
    ensures (x + k * m) % m == x % m
  {
    var q, r := x / m, x % m;
    assert x == q * m + r;
    MulDist(q, k, m);
    DivModUnique(x + k * m, m, q + k, r);
  }

  /** The bitwise or of two natural numbers. */
  function BitOr(x: nat, y: nat): nat
    decreases x + y
  {
    if x == 0 && y == 0 then 0
    else (if x % 2 == 1 || y % 2 == 1 then 1 else 0) + 2 * BitOr(x / 2, y / 2)
  }

  lemma {:induction false} BitOrZero(x: nat)
    ensures BitOr(x, 0) == x
  {
    if x > 0 { BitOrZero(x / 2); }
  }

  /** Numbers without a common bit: or is addition. */
  lemma {:induction false} BitOrDisjoint(k: nat, s: nat, y: nat)
    requires y < Pow2(s)
    ensures BitOr(k * Pow2(s), y) == k * Pow2(s) + y
  {
    if s == 0 {
      BitOrZero(k);
    } else {
      var h := k * Pow2(s - 1);
      assert k * Pow2(s) == 2 * h;
      if h != 0 || y != 0 { BitOrDisjoint(k, s - 1, y / 2); }
    }
  }

  lemma {:induction false} BitOrComm(x: nat, y: nat)
    ensures BitOr(x, y) == BitOr(y, x)
    decreases x + y
  {
    if x != 0 || y != 0 { BitOrComm(x / 2, y / 2); }
  }

  lemma ModAdd(x: int, y: int, m: int)
    requires m > 0
    ensures (x % m + y) % m == (x + y) % m
  {
    DivMod(x, m);
    assert x + y == x % m + y + x / m * m;
    ModShift(x % m + y, x / m, m);
  }

  lemma ModTimes(x: int, c: int, m: int)
    requires m > 0
    ensures x % m * c % m == x * c % m
  {
    var q, r := x / m, x % m;
    DivMod(x, m);
    MulDist(q * m, r, c);
    MulAssoc(q, m, c);
    MulAssoc(q, c, m);
    assert m * c == c * m;
    ModShift(r * c, q * c, m);
  }
}
