/** Facts about floor division, stated so that no proof has to search for a product. */
module Rounding {

  function Min(a: int, b: int): int {
    if a <= b then a else b
  }

  function Max(a: int, b: int): int {
    if a <= b then b else a
  }

  lemma MulLe(a: int, b: int, c: int)
    requires a <= b && 0 <= c
    ensures a * c <= b * c && c * a <= c * b
  {
  }

  lemma MulCommutes(a: int, b: int)
    ensures a * b == b * a
  {
  }

  lemma MulAssociates(a: int, b: int, c: int)
    ensures a * (b * c) == (a * b) * c
  {
  }

  lemma MulPositive(a: int, b: int)
    requires 0 < a && 0 < b
    ensures 0 < a * b
  {
  }

  lemma DivBounds(a: int, d: int)
    requires 0 < d
    ensures (a / d) * d <= a < (a / d) * d + d
  {
  }

  lemma DivAtLeast(a: int, d: int, q: int)
    requires 0 < d && q * d <= a
    ensures q <= a / d
  {
    DivBounds(a, d);
    if a / d < q { MulLe(a / d + 1, q, d); }
  }

  lemma DivBelow(a: int, d: int, q: int)
    requires 0 < d && a < q * d
    ensures a / d < q
  {
    DivBounds(a, d);
    if q <= a / d { MulLe(q, a / d, d); }
  }

  lemma DivIs(a: int, d: int, q: int)
    requires 0 < d && q * d <= a < q * d + d
    ensures a / d == q
  {
    DivAtLeast(a, d, q);
    assert (q + 1) * d == q * d + d;
    DivBelow(a, d, q + 1);
  }

  lemma DivMono(a: int, b: int, d: int)
    requires a <= b && 0 < d
    ensures a / d <= b / d
  {
    DivBounds(a, d);
    DivAtLeast(b, d, a / d);
  }

  lemma DivNonNegative(a: int, d: int)
    requires 0 <= a && 0 < d
    ensures 0 <= a / d <= a
  {
    DivAtLeast(a, d, 0);
    DivBounds(a, d);
    MulLe(1, d, a / d);
  }

  /** A common factor of numerator and denominator cancels. */
  lemma DivCancel(a: int, d: int, k: int)
    requires 0 < d && 0 < k
    ensures 0 < d * k && (a * k) / (d * k) == a / d
  {
    MulPositive(d, k);
    var q := a / d;
    DivBounds(a, d);
    MulLe(q * d, a, k);
    MulLe(a + 1, q * d + d, k);
    assert q * d * k == q * (d * k);
    assert (q * d + d) * k == q * (d * k) + d * k;
    assert (a + 1) * k == a * k + k;
    DivIs(a * k, d * k, q);
  }
}
