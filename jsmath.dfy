/** The two Math functions the dashboard uses, on exact integers. */
module JsMath {

  /**
   * Math.round(a / b) for b > 0: the integer nearest to a / b, halves rounded
   * up (towards +infinity), which is what Math.round does.
   */
  function Round(a: int, b: int): (r: int)
    requires b > 0
    ensures 2 * b * r <= 2 * a + b < 2 * b * r + 2 * b
  {
    var q := (2 * a + b) / (2 * b);
    assert 2 * a + b == 2 * b * q + (2 * a + b) % (2 * b);
    q
  }

  /** Rounding is monotone in the numerator. */
  lemma RoundMonotone(a: int, a': int, b: int)
    requires b > 0 && a <= a'
    ensures Round(a, b) <= Round(a', b)
  {
    var r, r' := Round(a, b), Round(a', b);
    assert 2 * b * (r' + 1) == 2 * b * r' + 2 * b;
    MulCancel(2 * b, r, r' + 1);
  }

  /** A non-negative quotient rounds to a non-negative integer. */
  lemma RoundNonNegative(a: int, b: int)
    requires b > 0 && a >= 0
    ensures Round(a, b) >= 0
  {
  }

  /** A whole multiple of the divisor rounds to itself. */
  lemma RoundExact(k: int, b: int)
    requires b > 0
    ensures Round(k * b, b) == k
  {
    var r := Round(k * b, b);
    assert 2 * b * (k + 1) == 2 * (k * b) + 2 * b;
    assert 2 * b * (r + 1) == 2 * b * r + 2 * b;
    assert 2 * b * k == 2 * (k * b);
    MulCancel(2 * b, r, k + 1);
    MulCancel(2 * b, k, r + 1);
  }

  /** Multiplying by a non-negative number keeps an order. */
  lemma MulMonotone(c: int, x: int, y: int)
    requires c >= 0 && x <= y
    ensures c * x <= c * y
  {
    assert c * y - c * x == c * (y - x);
  }

  /** A positive factor can be cancelled from a strict order. */
  lemma MulCancel(c: int, x: int, y: int)
    requires c > 0
    ensures c * x < c * y ==> x < y
  {
    if x >= y {
      MulMonotone(c, y, x);
    }
  }

  /** Math.min of two numbers. */
  function Min(a: int, b: int): (r: int)
    ensures r <= a && r <= b
    ensures r == a || r == b
  {
    if a <= b then a else b
  }
}
