/** Real-number stand-ins for the f64 primitives the renderer calls.

    `f64::sqrt` is not definable over Dafny's reals, so every member that
    needs it receives it as a parameter `sqrt` together with the hypothesis
    `IsSqrt(sqrt)`: on non-negative arguments it returns the exact,
    non-negative square root.  Nothing is assumed about negative arguments
    (where f64 returns NaN); callers never rely on them. */
module Floats {

  /** `sqrt` is an exact square root on the non-negative reals. */
  ghost predicate IsSqrt(sqrt: real -> real)
  {
    forall x: real :: x >= 0.0 ==> sqrt(x) >= 0.0 && sqrt(x) * sqrt(x) == x
  }

  /** `f64::abs`. */
  function Abs(x: real): (r: real)
    ensures r >= 0.0 && (r == x || r == -x)
  {
    if x < 0.0 then -x else x
  }

  /** `x.powf(5.0)`: with an integral exponent this is repeated multiplication. */
  function Pow5(x: real): (r: real)
    ensures x >= 0.0 ==> r >= 0.0
    ensures 0.0 <= x <= 1.0 ==> r <= 1.0
    ensures x > 0.0 ==> r > 0.0
  {
    PowBounds(x);
    x * x * x * x * x
  }

  lemma PowBounds(x: real)
    ensures x >= 0.0 ==> x * x * x * x * x >= 0.0
    ensures 0.0 <= x <= 1.0 ==> x * x * x * x * x <= 1.0
    ensures x > 0.0 ==> x * x * x * x * x > 0.0
  {
    if x >= 0.0 {
      var x2 := x * x;
      var x4 := x2 * x2;
      assert x * x * x * x * x == x4 * x;
      ProductBounds(x, x);
      ProductBounds(x2, x2);
      ProductBounds(x4, x);
    }
  }

  /** Sign and unit-interval facts about a product of two non-negative reals. */
  lemma ProductBounds(a: real, b: real)
    requires a >= 0.0 && b >= 0.0
    ensures a * b >= 0.0
    ensures a <= 1.0 && b <= 1.0 ==> a * b <= 1.0
    ensures a > 0.0 && b > 0.0 ==> a * b > 0.0
  {
    if a <= 1.0 && b <= 1.0 {
      assert a * b <= 1.0 * b;
    }
  }

  /** The product of two positive reals is positive. */
  lemma PositiveProduct(a: real, b: real)
    requires a > 0.0 && b > 0.0
    ensures a * b > 0.0
  {
    ProductBounds(a, b);
  }

  /** A draw `u` in `[0, 1)` scales a positive width `d` to a product
      `p = d u` in `[0, d)`. */
  lemma ScaledDraw(d: real, u: real, p: real)
    requires d > 0.0 && 0.0 <= u < 1.0 && p == d * u
    ensures 0.0 <= p < d
  {
    PositiveProduct(d, 1.0 - u);
    assert d * (1.0 - u) == d - d * u;
    if u > 0.0 {
      PositiveProduct(d, u);
    }
  }

  /** The root of a perfect square is determined: `sqrt(y * y) == y` for `y >= 0`. */
  lemma SqrtOfSquare(sqrt: real -> real, y: real)
    requires IsSqrt(sqrt)
    requires y >= 0.0
    ensures sqrt(y * y) == y
  {
    var s := sqrt(y * y);
    assert s >= 0.0 && s * s == y * y;
    assert (s - y) * (s + y) == 0.0;
    if s != y {
      assert s - y != 0.0;
      ZeroProduct(s - y, s + y);
    }
  }

  /** `(p + k n)^2 = p^2 + 2 k p n + k^2 n^2`, one lane of a squared length. */
  lemma LaneExpand(p: real, n: real, k: real, q: real)
    requires q == p + k * n
    ensures q * q == p * p + 2.0 * k * (p * n) + k * k * (n * n)
  {
  }

  /** `k (a + b + c) = k a + k b + k c`, for a sum given by name. */
  lemma DistributeSum(k: real, a: real, b: real, c: real, s: real)
    requires s == a + b + c
    ensures k * s == k * a + k * b + k * c
  {
  }

  /** A positive factor keeps the sign of the other. */
  lemma SignOfProduct(k: real, x: real)
    requires k > 0.0
    ensures k * x < 0.0 <==> x < 0.0
  {
    if x < 0.0 {
      ProductBounds(k, -x);
    } else {
      ProductBounds(k, x);
    }
  }

  lemma ZeroProduct(a: real, b: real)
    requires a * b == 0.0
    ensures a == 0.0 || b == 0.0
  {
    if a != 0.0 {
      assert b == (a * b) / a;
    }
  }

  /** A square root, given by name, squares back to its argument. */
  lemma SqrtSquares(sqrt: real -> real, x: real, s: real)
    requires IsSqrt(sqrt)
    requires x >= 0.0 && s == sqrt(x)
    ensures s >= 0.0 && s * s == x
  {
  }

  /** The square root is zero exactly at zero. */
  lemma SqrtPositive(sqrt: real -> real, x: real)
    requires IsSqrt(sqrt)
    requires x >= 0.0
    ensures sqrt(x) == 0.0 <==> x == 0.0
  {
    if x == 0.0 {
      SqrtOfSquare(sqrt, 0.0);
    }
  }

  /** The square root is monotone: `sqrt(x) <= 1` exactly when `x <= 1`. */
  lemma SqrtAtMostOne(sqrt: real -> real, x: real)
    requires IsSqrt(sqrt)
    requires x >= 0.0
    ensures sqrt(x) <= 1.0 <==> x <= 1.0
  {
    var s := sqrt(x);
    assert s * s == x;
    if s <= 1.0 {
      assert s * s <= s;
    } else {
      assert s * s > s;
    }
  }
}
