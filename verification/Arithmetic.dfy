/** Nonlinear facts the other modules lean on. */
module Arithmetic {

  function Min(a: nat, b: nat): nat {
    if a <= b then a else b
  }

  function Max(a: nat, b: nat): nat {
    if a >= b then a else b
  }

  function Pow2(k: nat): (p: nat)
    ensures p > 0
  {
    if k == 0 then 1 else 2 * Pow2(k - 1)
  }

  lemma MulMono(a: int, b: int, c: int)
    requires a <= b && c >= 0
    ensures a * c <= b * c
  {
  }

  lemma MulLess(a: int, b: int, c: int)
    requires a * c < b * c && c >= 0
    ensures a < b
  {
  }

  lemma QuotientBounds(x: int, d: int)
    requires d > 0
    ensures x / d * d <= x < x / d * d + d
  {
    assert x == d * (x / d) + x % d;
  }

  /** The quotient is the only number whose multiple comes within a divisor below. */
  lemma QuotientIs(x: int, d: int, q: int)
    requires d > 0 && q * d <= x < q * d + d
    ensures x / d == q && x % d == x - q * d
  {
    var r := x / d;
    QuotientBounds(x, d);
    assert (r + 1) * d == r * d + d && (q + 1) * d == q * d + d;
    if r < q {
      MulMono(r + 1, q, d);
    } else if q < r {
      MulMono(q + 1, r, d);
    }
    assert x == d * r + x % d;
  }
}
