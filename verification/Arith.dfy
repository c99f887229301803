/** Facts about quotients and remainders that several components share. */
module Arith {

  lemma SmallMultiple(n: int, k: int)
    requires n > 0 && -n < n * k < n
    ensures k == 0
  {
    if k >= 1 {
      ScaledBelow(n, k);
    } else if k <= -1 {
      ScaledBelow(n, -k);
    }
  }

  lemma ScaledBelow(n: int, k: int)
    requires n > 0 && k >= 1
    ensures n <= n * k
  {
  }

  /** A decomposition with a small remainder is the quotient and the remainder. */
  lemma DivModUnique(x: int, n: nat, q: int, r: int)
    requires n > 0 && x == n * q + r && 0 <= r < n
    ensures x / n == q && x % n == r
  {
    var q', r' := x / n, x % n;
    assert x == n * q' + r';
    assert n * (q - q') == r' - r;
    SmallMultiple(n, q - q');
  }

  lemma ModStep(x: int, n: nat)
    requires n > 0
    ensures (x + n) % n == x % n && (x + n) / n == x / n + 1
  {
    var q, r := x / n, x % n;
    assert x == n * q + r;
    assert x + n == n * (q + 1) + r;
    DivModUnique(x + n, n, q + 1, r);
  }
}
