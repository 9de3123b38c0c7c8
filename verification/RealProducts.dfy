/** Products and quotients of reals. Each fact names its sums and products, so that uses of it stay
    linear in those names. */
module RealProducts {

  // A product by name.
  function Product(a: real, b: real): real {
    a * b
  }

  lemma Distribute(b: real, s: real, u: real, v: real)
    requires s == u + v
    ensures b * s == b * u + b * v
  {
  }

  lemma Regroup(b: real, p: real, p': real, x: real, q: real)
    requires p' == b * p && q == p * x
    ensures p' * x == b * q
  {
  }

  lemma ProductNonNegative(a: real, b: real)
    requires a >= 0.0 && b >= 0.0
    ensures a * b >= 0.0
  {
  }

  lemma ProductPositive(a: real, b: real)
    requires a > 0.0 && b > 0.0
    ensures a * b > 0.0
  {
  }

  lemma ProductOrder(k: real, a: real, b: real)
    requires k >= 0.0 && a <= b
    ensures k * a <= k * b
  {
    ProductNonNegative(k, b - a);
  }

  lemma QuotientBelow(a: real, b: real, k: real)
    requires b > 0.0 && a < k * b
    ensures a / b < k
  {
    var q := a / b;
    assert q * b == a;
    assert q >= k ==> q * b >= k * b;
  }

  lemma QuotientAtLeast(a: real, b: real, k: real)
    requires b > 0.0 && a >= k * b
    ensures a / b >= k
  {
    var q := a / b;
    assert q * b == a;
    assert q < k ==> q * b < k * b;
  }

  lemma QuotientTimes(a: real, b: real)
    requires b > 0.0
    ensures a / b * b == a
  {
  }

  lemma QuotientReaches(a: real, b: real, k: real)
    requires b > 0.0 && a / b >= k
    ensures a >= k * b
  {
    var q := a / b;
    assert q * b == a;
    ProductOrder(b, k, q);
  }
}
