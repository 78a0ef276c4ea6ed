module Arithmetic {
  lemma DivideBounds(a: int, b: int)
    requires b > 0
    ensures a - b + 1 <= b * (a / b) <= a
  {
  }

  lemma CancelFactor(k: int, x: int)
    requires k > 0 && k * x > -k
    ensures x >= 0
  {
    assert k * x > k * -1;
  }

  lemma DivideProduct(q: int, n: int)
    requires n > 0
    ensures q * n / n == q
  {
    var r := q * n / n;
    DivideBounds(q * n, n);
    assert n * (q - r) == q * n - n * r;
    assert n * (r - q) == n * r - q * n;
    CancelFactor(n, q - r);
    CancelFactor(n, r - q);
  }
}
