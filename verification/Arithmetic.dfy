/** The one fact about division that the models need. */
module Arithmetic {
  /** Quotient and remainder are determined by what they add up to. */
  lemma DivModUnique(n: int, d: int, q: int, r: int)
    requires d > 0 && 0 <= r < d && n == d * q + r
    ensures n / d == q && n % d == r
  {
    var k := n / d - q;
    assert n == d * (n / d) + n % d;
    assert d * k == r - n % d by {
      assert d * k == d * (n / d) - d * q;
    }
    assert k == 0;
  }
}
