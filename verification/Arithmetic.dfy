/** Products and remainders that the solver does not work out by itself. */
module Arithmetic {

  lemma ProductAtLeast(d: int, n: int)
    requires n > 0
    ensures d >= 1 ==> d * n >= n
    ensures d <= -1 ==> d * n <= -n
  {
  }

  /** Quotient and remainder are unique. */
  lemma ProductRemainder(q: int, n: int, r: int)
    requires 0 <= r < n
    ensures (q * n + r) % n == r
  {
    var v := q * n + r;
    assert v == (v / n) * n + v % n;
    var d := v / n - q;
    assert d * n == r - v % n;
    ProductAtLeast(d, n);
  }

  lemma QuotientFits(n: nat, d: nat)
    requires d > 0
    ensures 0 <= n / d <= n
  {
    var q := n / d;
    assert n == q * d + n % d;
    ProductAtLeast(q, d);
    NonNegativeProduct(q, d - 1);
  }

  lemma NonNegativeProduct(q: int, d: nat)
    ensures q >= 0 ==> q * d >= 0 && q * (d + 1) >= q
  {
  }

  lemma ScaledRemainder(v: int, n: int, k: int)
    requires n > 0 && k > 0
    ensures n * k > 0 && (v * k) % (n * k) == (v % n) * k
  {
    var q, r := v / n, v % n;
    assert v == q * n + r;
    Scaled(q, n, r, k);
    ProductRemainder(q, n * k, r * k);
  }

  lemma Scaled(q: int, n: int, r: int, k: int)
    requires 0 <= r < n && k > 0
    ensures 0 <= r * k < n * k && (q * n + r) * k == q * (n * k) + r * k
  {
    assert (n - r) * k >= k by {
      ProductAtLeast(n - r, k);
    }
    assert r > 0 ==> r * k >= k by {
      ProductAtLeast(r, k);
    }
  }
}
