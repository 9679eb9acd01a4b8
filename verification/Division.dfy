/** Quotients and remainders from the equation that defines them. */
module Division {
  lemma MultiplesApart(d: int, a: int, b: int)
    requires d > 0
    ensures a < b ==> d * a + d <= d * b
  {
    if a < b {
      var e := b - a - 1;
      assert d * b == d * a + d + d * e;
      assert d * e >= 0;
    }
  }

  lemma QuotientIs(x: int, d: int, q: int)
    requires d > 0 && 0 <= x - d * q < d
    ensures x / d == q && x % d == x - d * q
  {
    MultiplesApart(d, x / d, q);
    MultiplesApart(d, q, x / d);
  }
}
