/**
 * Integer facts shared by the batching and checkpoint arithmetic: the
 * smaller of two naturals, and the uniqueness of quotient and remainder.
 */
module Arith {

  /** `min(a, b)` on naturals. */
  function MinNat(a: nat, b: nat): (r: nat)
    ensures r <= a && r <= b && (r == a || r == b)
  {
    if a < b then a else b
  }

  lemma MulAtLeast(k: int, m: int)
    requires k >= 1 && m > 0
    ensures k * m >= m
  {
  }

  /** Quotient and remainder are determined by any decomposition `a · m + b` with `0 <= b < m`. */
  lemma DivUnique(n: int, m: int, a: int, b: int)
    requires m > 0 && 0 <= b < m && n == a * m + b
    ensures n / m == a && n % m == b
  {
    var q, r := n / m, n % m;
    assert n == q * m + r && 0 <= r < m;
    assert (a - q) * m == r - b;
    if a > q { MulAtLeast(a - q, m); }
    if a < q { MulAtLeast(q - a, m); }
  }
}
