/** Division facts. */
module Arithmetic {
  lemma LargeMultiple(e: int, n: int)
    ensures e > 0 && n > 0 ==> n * e >= n
    ensures e < 0 && n > 0 ==> n * e <= -n
  {
    if n > 0 && e > 0 { assert n * (e - 1) >= 0; }
    if n > 0 && e < 0 { assert n * (-e - 1) >= 0; }
  }

  /** A quotient is the one that leaves a remainder in range. */
  lemma Quotient(a: int, n: int, q: int, r: int)
    requires n > 0 && a == n * q + r && 0 <= r < n
    ensures a / n == q
  {
    var e := a / n - q;
    assert a == n * (a / n) + a % n;
    assert n * e == n * (a / n) - n * q;
    LargeMultiple(e, n);
  }

  lemma SameRemainder(r: int, n: int, k: int)
    requires n > 0
    ensures (r + n * k) % n == r % n
  {
    assert r + n * k == n * (r / n + k) + r % n;
    Quotient(r + n * k, n, r / n + k, r % n);
  }
}
