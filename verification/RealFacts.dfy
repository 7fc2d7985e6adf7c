/** Steps of real arithmetic that the solver needs spelled out. */
module RealFacts {

  lemma QuotientTimes(x: real, y: real)
    requires y != 0.0
    ensures x / y * y == x
  {
  }

  lemma QuotientIs(x: real, y: real, q: real)
    requires y != 0.0 && q * y == x
    ensures x / y == q
  {
  }

  lemma ProductMonotone(a: real, b: real, c: real)
    requires a <= b && c >= 0.0
    ensures a * c <= b * c
  {
  }

  lemma ProductPositive(a: real, b: real)
    requires a > 0.0 && b > 0.0
    ensures a * b > 0.0
  {
  }

  lemma QuotientPositive(x: real, y: real)
    requires x > 0.0 && y > 0.0
    ensures x / y > 0.0
  {
    QuotientTimes(x, y);
  }

  lemma QuotientMonotone(x: real, y: real, d: real)
    requires x <= y && d > 0.0
    ensures x / d <= y / d
  {
    QuotientTimes(x, d);
    QuotientTimes(y, d);
  }

  /** A larger positive divisor makes a positive quotient smaller. */
  lemma QuotientAntitone(x: real, low: real, high: real)
    requires x >= 0.0 && 0.0 < low <= high
    ensures x / high <= x / low
  {
    QuotientTimes(x, low);
    var q := x / low;
    ProductMonotone(low, high, q);
    assert q * high >= x;
    QuotientTimes(q * high, high);
    QuotientIs(q * high, high, q);
    QuotientMonotone(x, q * high, high);
  }

  lemma OneMinusQuotient(x: real, y: real)
    requires y != 0.0
    ensures (y - x) / y == 1.0 - x / y
  {
    QuotientTimes(x, y);
    QuotientIs(y - x, y, 1.0 - x / y);
  }

  lemma ProductMonotoneRight(c: real, a: real, b: real)
    requires a <= b && c >= 0.0
    ensures c * a <= c * b
  {
  }

  /** A share of a gain, and a share of a loss. */
  lemma ShareOf(g: real, d: real)
    requires 0.0 <= g <= 1.0
    ensures d >= 0.0 ==> 0.0 <= g * d <= d
    ensures d <= 0.0 ==> d <= g * d <= 0.0
  {
  }

  lemma Complement(x: real, g: real)
    ensures x * (1.0 - g) == x - x * g
    ensures (1.0 - g) * x == x - g * x
    ensures x * g == g * x
  {
  }

  lemma Distribute(a: real, b: real, c: real)
    ensures a * (b - c) == a * b - a * c
    ensures a * (b + c) == a * b + a * c
    ensures (b + c) * a == b * a + c * a
    ensures (b - c) * a == b * a - c * a
  {
  }

  lemma Associate(a: real, b: real, c: real)
    ensures a * b * c == a * (b * c)
  {
  }
}
