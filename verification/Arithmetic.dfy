/** Quotients, remainders and powers of two. */
module Arithmetic {
  function Pow2(n: nat): (p: nat)
    ensures p > 0
  {
    if n == 0 then 1 else 2 * Pow2(n - 1)
  }

  lemma MulMono(a: nat, b: nat, p: nat)
    requires a <= b
    ensures a * p <= b * p
  {
    assert b * p == a * p + (b - a) * p;
  }

  lemma QuotientUnique(v: nat, p: nat, q: nat, r: nat)
    requires p > 0 && v == q * p + r && r < p
    ensures v / p == q && v % p == r
  {
    var d := v / p;
    assert v == d * p + v % p;
    assert (d + 1) * p == d * p + p && (q + 1) * p == q * p + p;
    if q > d { MulMono(d + 1, q, p); }
    if q < d { MulMono(q + 1, d, p); }
  }

  /** Halving before dividing. */
  lemma DivHalf(v: nat, p: nat)
    requires p > 0
    ensures v / 2 / p == v / (2 * p) && v / 2 % p == v % (2 * p) / 2 && v % (2 * p) % 2 == v % 2
  {
    var half, bit := v / 2, v % 2;
    var q, h := half / p, half % p;
    var r, pp := 2 * h + bit, 2 * p;
    assert half == q * p + h;
    assert q * pp == 2 * (q * p);
    QuotientUnique(v, pp, q, r);
    assert r / 2 == h && r % 2 == bit;
  }

  /** Dividing before halving. */
  lemma HalfQuotient(v: nat, p: nat)
    requires p > 0
    ensures v / (2 * p) == v / p / 2
  {
    HalfQuotientOf(v, p, v / p, v % p);
  }

  lemma HalfQuotientOf(v: nat, p: nat, a: nat, h: nat)
    requires p > 0 && v == a * p + h && h < p
    ensures v / (2 * p) == a / 2
  {
    var q := a / 2;
    if a % 2 == 0 {
      Doubled(q, p);
      QuotientUnique(v, 2 * p, q, h);
    } else {
      Doubled(q, p);
      OneMore(2 * q, p);
      QuotientUnique(v, 2 * p, q, p + h);
    }
  }

  lemma Doubled(q: nat, p: nat)
    ensures q * (2 * p) == 2 * q * p
  {
  }

  lemma OneMore(a: nat, p: nat)
    ensures (a + 1) * p == a * p + p
  {
  }

  /** `x` lies in the block of size `p` that starts at `q * p`. */
  predicate InBlock(x: nat, q: nat, p: nat) {
    q * p <= x < (q + 1) * p
  }

  lemma BlockIsQuotient(x: nat, q: nat, p: nat)
    requires p > 0
    ensures InBlock(x, q, p) <==> x / p == q
  {
    assert x == x / p * p + x % p && (q + 1) * p == q * p + p;
    if InBlock(x, q, p) { QuotientUnique(x, p, q, x - q * p); }
  }

  ghost predicate ShareBlock(x: nat, y: nat, p: nat) {
    exists q: nat :: InBlock(x, q, p) && InBlock(y, q, p)
  }

  lemma SameQuotientShares(x: nat, y: nat, p: nat)
    requires p > 0 && x / p == y / p
    ensures ShareBlock(x, y, p)
  {
    var q := x / p;
    BlockIsQuotient(x, q, p);
    BlockIsQuotient(y, q, p);
  }

  lemma SharersHaveSameQuotient(x: nat, y: nat, p: nat)
    requires p > 0 && ShareBlock(x, y, p)
    ensures x / p == y / p
  {
    var q: nat :| InBlock(x, q, p) && InBlock(y, q, p);
    BlockIsQuotient(x, q, p);
    BlockIsQuotient(y, q, p);
  }
}
