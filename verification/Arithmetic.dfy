/** Quotients and remainders by a positive number that is not a constant. */
module Arithmetic {

  lemma Times(d: nat, p: int, q: int)
    requires d > 0
    ensures p < q ==> d * p + d <= d * q
  {
    if p < q {
      assert d * q == d * p + d + d * (q - p - 1);
      assert d * (q - p - 1) >= 0;
    }
  }

  /** Quotient and remainder are unique. */
  lemma Unique(d: nat, q: int, r: int, p: int, m: int)
    requires 0 <= r < d && 0 <= m < d && d * q + r == d * p + m
    ensures q == p && r == m
  {
    Times(d, p, q);
    Times(d, q, p);
  }

  lemma DivMod(q: int, r: int, d: int)
    requires 0 <= r < d
    ensures (q * d + r) / d == q && (q * d + r) % d == r
  {
    var n := q * d + r;
    assert q * d == d * q;
    Divided(n, d);
    Unique(d, q, r, n / d, n % d);
  }

  lemma Divided(n: int, d: int)
    requires d > 0
    ensures n == d * (n / d) + n % d && 0 <= n % d < d
  {
  }

  /** Adding or taking away the divisor does not change the remainder. */
  lemma ModShift(n: int, d: int)
    requires d > 0
    ensures (n + d) % d == n % d && (n - d) % d == n % d
  {
    Divided(n, d);
    assert (n / d + 1) * d + n % d == n + d && (n / d - 1) * d + n % d == n - d;
    DivMod(n / d + 1, n % d, d);
    DivMod(n / d - 1, n % d, d);
  }
}
