/** Bytes and the integer division facts shared by the other modules. */
module Arithmetic {
  type byte = x: int | 0 <= x < 256

  lemma {:induction false} QuotientUnique(x: int, n: int, q: int, r: int)
    requires 0 < n && 0 <= r < n && x == n * q + r
    ensures x / n == q && x % n == r
  {
    var q' := x / n;
    assert x == n * q' + x % n;
    if q > q' {
      MultiplesApart(n, q, q');
    } else if q < q' {
      MultiplesApart(n, q', q);
    }
  }

  lemma {:induction false} MultiplesApart(n: int, a: int, b: int)
    requires 0 < n && b < a
    ensures n * b + n <= n * a
  {
    assert n * a == n * b + n + n * (a - b - 1);
  }

  function Power2(k: nat): (p: nat)
    ensures 1 <= p
  {
    if k == 0 then 1 else 2 * Power2(k - 1)
  }

  lemma {:induction false} Power2Sum(a: nat, b: nat)
    ensures Power2(a + b) == Power2(a) * Power2(b)
  {
    if a > 0 {
      Power2Sum(a - 1, b);
    }
  }
}
