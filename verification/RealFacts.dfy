/** Facts of real arithmetic that the solver does not find inside larger proofs. */
module RealFacts {

  function Abs(x: real): (r: real)
    ensures r >= 0.0 && (r == x || r == -x)
  {
    if x < 0.0 then -x else x
  }

  lemma ProductPositive(x: real, y: real)
    requires x > 0.0 && y > 0.0
    ensures x * y > 0.0
  {
  }

  lemma ProductNonNegative(x: real, y: real)
    requires x >= 0.0 && y >= 0.0
    ensures x * y >= 0.0
  {
  }

  /** Multiplying by a non-negative factor keeps the order. */
  lemma ProductMonotone(x: real, y: real, z: real)
    requires x <= y && z >= 0.0
    ensures x * z <= y * z
  {
    ProductNonNegative(y - x, z);
    assert (y - x) * z == y * z - x * z;
  }

  lemma ProductStrict(x: real, y: real, z: real)
    requires x < y && z > 0.0
    ensures x * z < y * z
  {
    ProductPositive(y - x, z);
    assert (y - x) * z == y * z - x * z;
  }

  /** A common positive factor cancels from a strict inequality. */
  lemma CancelStrict(x: real, y: real, z: real)
    requires x * z < y * z && z >= 0.0
    ensures x < y
  {
    if x >= y {
      ProductMonotone(y, x, z);
    }
  }

  function Square(x: real): real {
    x * x
  }

  lemma DifferenceOfSquares(a: real, b: real)
    ensures Square(a - b) == Square(b - a)
    ensures Square(a + b) - Square(a - b) == 4.0 * (a * b)
  {
  }

  /** The product as a function of two names; the solver handles it better than x * x. */
  function Times(x: real, y: real): real {
    x * y
  }

  lemma TimesPositive(x: real, y: real)
    requires x > 0.0 && y > 0.0
    ensures Times(x, y) > 0.0
  {
  }

  lemma TimesAdds(c: real, x: real, y: real)
    ensures Times(c, x + y) == Times(c, x) + Times(c, y)
  {
  }

  lemma TimesUnits(c: real)
    ensures Times(c, 0.0) == 0.0 && Times(c, 1.0) == c
  {
  }

  lemma SquareIsTimes(x: real)
    ensures Square(x) == Times(x, x) == Square(-x)
  {
  }

  lemma PositiveSquare(x: real)
    requires x > 0.0
    ensures Square(x) > 0.0
  {
    hide Square, Times;
    SquareIsTimes(x);
    TimesPositive(x, x);
  }

  lemma SquareNonNegative(x: real)
    ensures Square(x) >= 0.0
    ensures Square(x) == 0.0 <==> x == 0.0
  {
    hide Square;
    ZeroSquare();
    SquareIsTimes(x);
    if x > 0.0 {
      PositiveSquare(x);
    } else if x < 0.0 {
      PositiveSquare(-x);
    }
  }

  lemma ZeroSquare()
    ensures Square(0.0) == 0.0
  {
  }

  lemma Associate(x: real, y: real, z: real)
    ensures (x * y) * z == x * (y * z)
  {
  }

  lemma Distribute(x: real, y: real, z: real)
    ensures (x + y) * z == x * z + y * z
    ensures z * (x + y) == z * x + z * y
    ensures (x - y) * z == x * z - y * z
    ensures z * (x - y) == z * x - z * y
  {
  }

  lemma QuotientTimes(x: real, y: real)
    requires y != 0.0
    ensures (x / y) * y == x
  {
  }

  /** A quotient is the one number that gives back the dividend. */
  lemma QuotientIs(x: real, y: real, q: real)
    requires y != 0.0 && q * y == x
    ensures x / y == q
  {
  }

  lemma QuotientNonNegative(x: real, y: real)
    requires x >= 0.0 && y > 0.0
    ensures x / y >= 0.0
  {
  }

  lemma OrderOfSquares(a: real, b: real)
    requires 0.0 <= b < a
    ensures Square(b) < Square(a)
  {
    ProductPositive(a - b, a + b);
    assert (a - b) * (a + b) == a * a - b * b;
  }

  lemma AbsSquare(x: real)
    ensures Square(Abs(x)) == Square(x)
  {
    if x < 0.0 {
      assert (-x) * (-x) == x * x;
    }
  }

  lemma AbsOfProduct(c: real, x: real)
    requires c > 0.0
    ensures Abs(c * x) == c * Abs(x)
  {
    if x > 0.0 {
      ProductPositive(c, x);
    } else if x < 0.0 {
      ProductPositive(c, -x);
      assert c * -x == -(c * x);
    }
  }

  /** A common positive factor cancels from a ratio. */
  lemma RatioCancels(c: real, x: real, y: real)
    requires c > 0.0 && y > 0.0
    ensures c * y > 0.0 && (c * x) / (c * y) == x / y
  {
    ProductPositive(c, y);
    QuotientTimes(x, y);
    Associate(x / y, c, y);
    Associate(c, x / y, y);
    QuotientIs(c * x, c * y, x / y);
  }

  lemma ProductOfSquares(c: real, x: real)
    ensures Square(c * x) == Square(c) * Square(x)
  {
  }

  lemma ScaledQuotient(s: real, x: real, y: real)
    requires y != 0.0
    ensures (s * x) / y == s * (x / y)
  {
    QuotientTimes(x, y);
    Associate(s, x / y, y);
    QuotientIs(s * x, y, s * (x / y));
  }

  function Ratio(x: real, d: real): real
    requires d != 0.0
  {
    x / d
  }

  lemma SumOfRatios(x: real, y: real, d: real)
    requires d != 0.0
    ensures Ratio(x, d) + Ratio(y, d) == Ratio(x + y, d)
  {
    QuotientTimes(x, d);
    QuotientTimes(y, d);
    Distribute(x / d, y / d, d);
    QuotientIs(x + y, d, x / d + y / d);
  }
}
