/** Quotients of integers, by their bounds. */
module Division {

  lemma Multiples(a: int, b: int, d: int)
    requires a < b && d > 0
    ensures a * d + d <= b * d
  {
    Distribute(b - a - 1, a + 1, d);
    Distribute(a, 1, d);
    Product(b - a - 1, d);
  }

  lemma Product(a: int, d: int)
    requires a >= 0 && d >= 0
    ensures a * d >= 0
  {
  }

  lemma Distribute(a: int, b: int, d: int)
    ensures (a + b) * d == a * d + b * d && (a - b) * d == a * d - b * d
  {
  }

  lemma QuotientBounds(x: int, d: int)
    requires x >= 0 && d > 0
    ensures (x / d) * d <= x < (x / d) * d + d && x / d >= 0
  {
  }

  /** The quotient is the only number whose multiple is within one divisor below. */
  lemma QuotientIs(x: int, d: int, q: int)
    requires x >= 0 && d > 0 && q * d <= x < q * d + d
    ensures x / d == q
  {
    QuotientBounds(x, d);
    if x / d < q {
      Multiples(x / d, q, d);
    } else if x / d > q {
      Multiples(q, x / d, d);
    }
  }

  lemma Products(a: int, b: int, c: int, d: int)
    requires 0 <= a <= c && 0 <= b <= d
    ensures 0 <= a * b <= c * d
  {
    Product(a, b);
    Distribute(c - a, a, b);
    Product(c - a, b);
    Product(c, d - b);
    Distribute(d - b, b, c);
  }
}
