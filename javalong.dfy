/** Java's 64-bit `long`: the range, wrap-around subtraction, division that
    truncates toward zero, and `Math.max`. */
module JavaLong {

  const MIN_LONG: int := -0x8000_0000_0000_0000
  const MAX_LONG: int := 0x7FFF_FFFF_FFFF_FFFF
  const TWO_TO_64: int := 0x1_0000_0000_0000_0000

  type Long = x: int | MIN_LONG <= x <= MAX_LONG

  /** Reduces an exact integer to the `long` it becomes in two's complement. */
  function Wrap(x: int): (r: Long)
    ensures MIN_LONG <= x <= MAX_LONG ==> r == x
    ensures (x - r) % TWO_TO_64 == 0
  {
    (x - MIN_LONG) % TWO_TO_64 + MIN_LONG
  }

  /** `a - b` on `long` operands. */
  function Sub(a: Long, b: Long): (r: Long)
    ensures MIN_LONG <= a - b <= MAX_LONG ==> r == a - b
    ensures (a - b - r) % TWO_TO_64 == 0
  {
    Wrap(a - b)
  }

  /** `a / d` on `long` operands for a positive divisor: the quotient is
      rounded toward zero, unlike Dafny's Euclidean `/`. */
  function Div(a: Long, d: Long): (q: Long)
    requires d > 0
    ensures a >= 0 ==> q == a / d
    ensures a < 0 ==> a <= q <= 0
  {
    var n: int := a;
    if n >= 0 then DivBounds(n, d); n / d else DivBounds(-n, d); -((-n) / d)
  }

  lemma DivBounds(n: int, d: int)
    requires n >= 0 && d > 0
    ensures 0 <= n / d <= n
  {
    var q, r := n / d, n % d;
    assert d * q + r == n && 0 <= r < d;
    assert d * q >= q by { MulMonotone(q, d, 1); }
  }

  lemma MulMonotone(a: int, b: int, c: int)
    requires a >= 0 && b >= c
    ensures a * b >= a * c
  {
    assert a * b - a * c == a * (b - c);
  }

  /** `Math.max` on `long` operands: the larger of the two. */
  function Max(a: Long, b: Long): (r: Long)
    ensures r >= a && r >= b
    ensures r == a || r == b
  {
    if a >= b then a else b
  }

  /** A truncating and a Euclidean quotient differ only for a negative
      dividend, and there both are at most zero, so flooring either at 1
      gives the same result. */
  lemma MaxOneOfQuotients(a: Long, d: Long)
    requires d > 0
    ensures Max(1, Div(a, d)) == if a / d >= 1 then a / d else 1
  {
    if a < 0 {
      assert a / d < 0 by {
        assert d * (a / d) + a % d == a;
        assert 0 <= a % d < d;
      }
    }
  }
}
