/** The few facts about products and quotients of variables that the timing proofs need. */
module Arithmetic {
  lemma Scaled(a: int, b: int, d: nat)
    requires a <= b
    ensures a * d <= b * d
  {
  }

  lemma QuotientAtLeast(a: nat, k: nat, d: nat)
    requires d > 0 && a >= k * d
    ensures k <= a / d
  {
    assert a < (a / d + 1) * d;
    if k >= a / d + 1 {
      Scaled(a / d + 1, k, d);
    }
  }

  /** A quotient is the only number that fits. */
  lemma QuotientUnique(a: int, d: nat, q: int)
    requires d > 0 && d * q <= a < d * q + d
    ensures a / d == q
  {
    var r := a / d;
    assert a == d * r + a % d;
    if r < q {
      Scaled(r + 1, q, d);
    } else if r > q {
      Scaled(q + 1, r, d);
    }
  }

  /** Rounding up: the least n with n * d >= x. */
  lemma CeilingIs(x: nat, d: nat, n: nat)
    requires d > 0
    ensures n * d >= x <==> n >= (x + d - 1) / d
  {
    Quotients(x, d, n, (x + d - 1) / d, (x + d - 1) % d);
  }

  lemma Quotients(x: nat, d: nat, n: nat, q: nat, m: nat)
    requires x + d - 1 == q * d + m && m < d
    ensures n * d >= x <==> n >= q
  {
    if n >= q {
      Scaled(q, n, d);
    } else {
      Scaled(n + 1, q, d);
      assert (n + 1) * d == n * d + d;
    }
  }

  lemma QuotientGrows(x: int, y: int, d: nat)
    requires x <= y && d > 0
    ensures x / d <= y / d
  {
    var q, r := x / d, y / d;
    assert d * q <= x < d * q + d && d * r <= y < d * r + d;
    if q > r {
      Scaled(r + 1, q, d);
    }
  }
}
