/** Division with a remainder, for divisors that are not constants. */
module Arith {

  lemma DivMod(x: nat, n: nat, q: nat, r: nat)
    requires 0 < n && x == q * n + r && r < n
    ensures x / n == q && x % n == r
  {
    assert x == x / n * n + x % n;
    OneQuotient(n, x / n, x % n, q, r);
  }

  lemma OneQuotient(n: nat, p: nat, a: nat, q: nat, b: nat)
    requires p * n + a == q * n + b && a < n && b < n
    ensures p == q && a == b
  {
    assert p < q ==> (p + 1) * n <= q * n;
    assert q < p ==> (q + 1) * n <= p * n;
  }
}
