/** Facts about products and quotients of variables. */
module Arithmetic {
  lemma MultiplesGrow(y: int, x: int, d: int)
    requires d > 0 && y <= x
    ensures y * d <= x * d
  {
    assert x * d - y * d == (x - y) * d;
  }

  lemma DivBounds(a: int, d: int)
    requires d > 0
    ensures a - d < a / d * d <= a
  {}

  lemma MultiplesAreOrdered(x: int, y: int, d: int)
    requires d > 0
    ensures x * d < y * d + d ==> x <= y
  {
    if x > y {
      MultiplesGrow(y + 1, x, d);
    }
  }

  lemma DivMonotone(a: int, b: int, d: int)
    requires d > 0 && a <= b
    ensures a / d <= b / d
  {
    DivBounds(a, d);
    DivBounds(b, d);
    MultiplesAreOrdered(a / d, b / d, d);
  }

  /** Quotient and remainder are determined by the division identity. */
  lemma ModUnique(v: int, m: int, q: int, r: int)
    requires m > 0 && v == q * m + r && 0 <= r < m
    ensures v % m == r && v / m == q
  {
    DivBounds(v, m);
    MultiplesAreOrdered(v / m, q, m);
    MultiplesAreOrdered(q, v / m, m);
  }
}
