/** Facts about Euclidean division that the solver does not find by itself. */
module Arith {

  lemma MulAtLeast(k: int, n: int)
    requires k >= 1 && n > 0
    ensures k * n >= n
  {
    assert k * n == (k - 1) * n + n;
    assert (k - 1) * n >= 0;
  }

  /** Quotient and remainder are unique. */
  lemma DivMod(a: int, n: int, q: int, r: int)
    requires n > 0 && a == q * n + r && 0 <= r < n
    ensures a / n == q && a % n == r
  {
    var q2, r2 := a / n, a % n;
    assert a == q2 * n + r2;
    assert (q - q2) * n == r2 - r by {
      assert (q - q2) * n == q * n - q2 * n;
    }
    if q > q2 { MulAtLeast(q - q2, n); }
    if q < q2 { MulAtLeast(q2 - q, n); }
  }

  /** Moving from y - 1 to y adds one to the quotient exactly when n divides y. */
  lemma QuotientStep(y: int, n: int)
    requires n > 0
    ensures y / n == (y - 1) / n + (if y % n == 0 then 1 else 0)
  {
    var q, r := (y - 1) / n, (y - 1) % n;
    DivMod(y - 1, n, q, r);
    if r == n - 1 {
      assert y == (q + 1) * n + 0;
      DivMod(y, n, q + 1, 0);
    } else {
      assert y == q * n + (r + 1);
      DivMod(y, n, q, r + 1);
    }
  }
}
