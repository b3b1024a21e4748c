/** Division with remainder, where the solver needs help. */
module Arithmetic {
  lemma Product(d: int, n: int)
    requires n > 0
    ensures d >= 1 ==> d * n >= n
    ensures d == 0 ==> d * n == 0
    ensures d <= -1 ==> d * n <= 0 - n
  {
  }

  lemma Remainder(x: nat, n: nat, q: nat, r: nat)
    requires n > 0 && x == q * n + r && r < n
    ensures x % n == r
  {
    var d := x / n - q;
    assert x == (x / n) * n + x % n;
    assert (x / n) * n == q * n + d * n;
    Product(d, n);
  }

  lemma LessOneDivisor(x: nat, n: nat)
    requires 0 < n <= x
    ensures x % n == (x - n) % n
  {
    var q, r := x / n, x % n;
    assert x == q * n + r;
    Product(q, n);
    assert (q - 1) * n == q * n - n;
    Remainder(x - n, n, q - 1, r);
  }
}
