/**
 Extremes of two numbers, quotients and powers of two, for the modules that compare ratios, sizes
 and bounds.
 */
module Arithmetic {
  function Max(x: int, y: int): int { if x < y then y else x }
  function Min(x: int, y: int): int { if y < x then y else x }

  lemma ProductMonotone(x: nat, y: nat, d: nat)
    requires x <= y
    ensures x * d <= y * d
  {
  }

  /** Comparing a rounded-down quotient with a threshold is exact. */
  lemma QuotientAtLeast(x: nat, d: nat, t: nat)
    requires d > 0
    ensures x / d >= t <==> x >= t * d
  {
    var q, rest := x / d, x % d;
    assert x == q * d + rest;
    if q >= t {
      ProductMonotone(t, q, d);
    } else {
      ProductMonotone(q + 1, t, d);
    }
  }

  function Pow2(n: nat): (p: nat)
    ensures p >= 1
  {
    if n == 0 then 1 else 2 * Pow2(n - 1)
  }

  lemma {:induction false} Pow2Monotone(i: nat, j: nat)
    requires i <= j
    ensures Pow2(i) <= Pow2(j)
  {
    if i < j { Pow2Monotone(i, j - 1); }
  }
}
