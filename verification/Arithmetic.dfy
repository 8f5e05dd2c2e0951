/** Facts about products and remainders that several modules need. */
module Arithmetic {

  function Min(a: int, b: int): int { if a < b then a else b }

  lemma Commute(a: nat, b: nat)
    ensures a * b == b * a
  {
  }

  // Multiples of t are at least t apart.
  lemma {:induction false} ProductGap(a: nat, b: nat, t: nat)
    ensures a < b ==> a * t + t <= b * t
    decreases b
  {
    if a < b {
      ProductGap(a, b - 1, t);
      assert b * t == (b - 1) * t + t;
    }
  }

  lemma ProductLe(a: nat, b: nat, n: nat)
    ensures a <= b ==> a * n <= b * n && n * a <= n * b
  {
    ProductGap(a, b, n);
    Commute(a, n);
    Commute(b, n);
  }

  lemma ProductLess(a: nat, b: nat, n: nat)
    ensures n > 0 && a < b ==> a * n < b * n && n * a < n * b
  {
    ProductGap(a, b, n);
    Commute(a, n);
    Commute(b, n);
  }

  // The quotient by p lies between the bounds that the number has in multiples of p.
  lemma QuotientBetween(a: nat, b: nat, p: nat, x: nat)
    requires p > 0 && a * p <= x < b * p
    ensures a <= x / p < b
    ensures x / p * p <= x < (x / p + 1) * p
  {
    var q := x / p;
    assert x == q * p + x % p && (q + 1) * p == q * p + p;
    ProductLe(q + 1, a, p);
    ProductLe(b, q, p);
  }

  lemma DivModUnique(x: nat, q: nat, r: nat, n: nat)
    requires r < n && x == q * n + r
    ensures x / n == q && x % n == r
  {
    var d, s := x / n, x % n;
    assert x == d * n + s;
    ProductGap(d, q, n);
    ProductGap(q, d, n);
  }
}
