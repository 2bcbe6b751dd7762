/**
 Exact real arithmetic shared by the geometric models. The square root is a parameter with its
 defining property: the non-negative root.
 */
module Reals {

  function Abs(x: real): (r: real)
    ensures r >= 0.0 && r >= x && r >= -x && (r == x || r == -x)
  {
    if x < 0.0 then -x else x
  }

  function Max(x: real, y: real): real {
    if x < y then y else x
  }

  function Min(x: real, y: real): real {
    if y < x then y else x
  }

  function Square(x: real): (r: real)
    ensures r >= 0.0
  {
    SquareNonNegative(x);
    x * x
  }

  lemma SquareNonNegative(x: real)
    ensures x * x >= 0.0
  {
    if x < 0.0 {
      assert x * x == (-x) * (-x);
    }
  }

  ghost predicate IsSqrt(sqrt: real -> real) {
    forall x: real :: x >= 0.0 ==> sqrt(x) >= 0.0 && sqrt(x) * sqrt(x) == x
  }

  function Product(x: real, y: real): real {
    x * y
  }

  /** Equals for equals in a product. */
  lemma Replace(a: real, c: real, p: real)
    requires c == p
    ensures a * c == a * p
  {
    assert Product(a, c) == Product(a, p);
  }

  lemma DistributeMinus(a: real, x: real, y: real)
    ensures a * (x - y) == a * x - a * y
  {
  }

  lemma DistributePlus(a: real, x: real, y: real)
    ensures a * (x + y) == a * x + a * y
  {
  }

  lemma DistributeThree(a: real, x: real, y: real, z: real)
    ensures a * (x + y + z) == a * x + a * y + a * z
  {
    DistributePlus(a, x + y, z);
    DistributePlus(a, x, y);
  }

  lemma PositiveProduct(x: real, y: real)
    requires x > 0.0 && y > 0.0
    ensures x * y > 0.0
  {
  }

  lemma SquarePositive(x: real)
    requires x != 0.0
    ensures Square(x) > 0.0
  {
    var s := SquareValue(x);
    assert Square(x) == s;
  }

  /** A product by another name: the solver would simplify a square's sign away. */
  lemma ProductValue(x: real, y: real) returns (s: real)
    requires x > 0.0 && y > 0.0
    ensures s == x * y && s > 0.0
  {
    s := x * y;
  }

  lemma SquareValue(x: real) returns (s: real)
    requires x != 0.0
    ensures s == x * x && s > 0.0
  {
    if x > 0.0 {
      s := ProductValue(x, x);
    } else {
      s := ProductValue(-x, -x);
    }
  }

  lemma SquareOrder(a: real, b: real)
    requires a >= 0.0 && b >= 0.0 && a * a <= b * b
    ensures a <= b
  {
    if a > b {
      assert (a - b) * (a + b) == a * a - b * b;
      PositiveProduct(a - b, a + b);
    }
  }

  lemma QuotientTimes(x: real, y: real)
    requires y != 0.0
    ensures (x / y) * y == x
  {
  }

  lemma NonNegativeFactor(x: real, y: real)
    requires y > 0.0 && x * y >= 0.0
    ensures x >= 0.0
  {
    CancelFactor(0.0, x, y);
  }

  lemma CancelFactor(x: real, y: real, a: real)
    requires a > 0.0
    ensures x * a == y * a ==> x == y
    ensures x * a <= y * a ==> x <= y
    ensures x * a < y * a ==> x < y
  {
    assert (y - x) * a == y * a - x * a;
    if x > y {
      PositiveProduct(x - y, a);
      assert (x - y) * a == x * a - y * a;
    }
  }

  lemma ProductMonotone(x: real, y: real, a: real)
    requires a >= 0.0 && x <= y
    ensures x * a <= y * a
  {
    assert (y - x) * a >= 0.0;
    assert (y - x) * a == y * a - x * a;
  }

  lemma PositiveFactor(x: real, y: real)
    requires y > 0.0 && x * y > 0.0
    ensures x > 0.0
  {
    NonNegativeFactor(x, y);
    assert x != 0.0;
  }

  lemma SquareStrict(a: real, b: real)
    requires 0.0 <= a < b
    ensures a * a < b * b
  {
    if a * a >= b * b {
      SquareOrder(b, a);
    }
  }

  lemma SqrtMonotone(sqrt: real -> real, x: real, y: real)
    requires IsSqrt(sqrt) && 0.0 <= x <= y
    ensures sqrt(x) <= sqrt(y)
  {
    SquareOrder(sqrt(x), sqrt(y));
  }

  /** A side is no longer than the root of a sum that contains its square. */
  lemma AbsBelowSqrt(sqrt: real -> real, d: real, sum: real)
    requires IsSqrt(sqrt) && Square(d) <= sum
    ensures Abs(d) <= sqrt(sum)
  {
    assert Abs(d) * Abs(d) == d * d;
    SquareOrder(Abs(d), sqrt(sum));
  }

  lemma SqrtOfSquare(sqrt: real -> real, d: real)
    requires IsSqrt(sqrt) && d >= 0.0
    ensures sqrt(d * d) == d
  {
    SquareNonNegative(d);
    SquareOrder(d, sqrt(d * d));
    SquareOrder(sqrt(d * d), d);
  }
}
