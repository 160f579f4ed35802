/**
 Real-number helpers shared by every score formula: the square root (taken as a
 parameter constrained by `IsSqrt`), JavaScript's `Math.round`, `Math.max`/`Math.min`
 clamping and the cube used by the nonlinear cosine policy.
 */
module Numerics {

  /** `sqrt` is the square root on the non-negative reals: it maps 0 to 0 and every
      positive x to the positive number whose square is x. Exactly one function on the
      non-negative reals satisfies this, so a formula written with it denotes what
      `Math.sqrt` denotes on exact reals. */
  ghost predicate IsSqrt(sqrt: real -> real) {
    && sqrt(0.0) == 0.0
    && forall x :: 0.0 < x ==> 0.0 < sqrt(x) && sqrt(x) * sqrt(x) == x
  }

  lemma MulPositive(a: real, b: real)
    requires 0.0 < a && 0.0 < b
    ensures 0.0 < a * b
  {
  }

  lemma MulNonNegative(a: real, b: real)
    requires 0.0 <= a && 0.0 <= b
    ensures 0.0 <= a * b
  {
  }

  lemma MulLeft(a: real, b: real, c: real)
    requires 0.0 <= c && a <= b
    ensures a * c <= b * c
  {
  }

  lemma MulLeftStrict(a: real, b: real, c: real)
    requires 0.0 < c && a < b
    ensures a * c < b * c
  {
  }

  lemma SquareNonNegative(x: real)
    ensures 0.0 <= x * x
  {
    if x < 0.0 {
      MulNonNegative(-x, -x);
      assert (-x) * (-x) == x * x;
    } else {
      MulNonNegative(x, x);
    }
  }

  lemma SquarePositive(x: real)
    requires x != 0.0
    ensures 0.0 < x * x
  {
    if x < 0.0 {
      MulPositive(-x, -x);
      assert (-x) * (-x) == x * x;
    } else {
      MulPositive(x, x);
    }
  }

  /** Squaring is strictly monotone on the positive reals. */
  lemma SquareStrict(a: real, b: real)
    requires 0.0 < a < b
    ensures a * a < b * b
  {
    MulLeftStrict(a, b, a);
    MulLeftStrict(a, b, b);
    assert a * b == b * a;
  }

  lemma SqrtNonNegative(sqrt: real -> real, x: real)
    requires IsSqrt(sqrt)
    requires 0.0 <= x
    ensures 0.0 <= sqrt(x) && sqrt(x) * sqrt(x) == x
  {
    if x == 0.0 {
      assert sqrt(0.0) * sqrt(0.0) == 0.0 * 0.0;
    }
  }

  /** The square root is monotone on the non-negative reals. */
  lemma SqrtMonotone(sqrt: real -> real, x: real, y: real)
    requires IsSqrt(sqrt)
    requires 0.0 <= x <= y
    ensures sqrt(x) <= sqrt(y)
  {
    if 0.0 < x {
      var sx, sy := sqrt(x), sqrt(y);
      if sy < sx {
        SquareStrict(sy, sx);
      }
    } else {
      SqrtNonNegative(sqrt, y);
    }
  }

  /** The square root is strictly monotone on the non-negative reals. */
  lemma SqrtStrict(sqrt: real -> real, x: real, y: real)
    requires IsSqrt(sqrt)
    requires 0.0 <= x < y
    ensures sqrt(x) < sqrt(y)
  {
    SqrtMonotone(sqrt, x, y);
    SqrtNonNegative(sqrt, x);
    SqrtNonNegative(sqrt, y);
  }

  /** The square root of a square is the (non-negative) base. */
  lemma SqrtOfSquare(sqrt: real -> real, y: real)
    requires IsSqrt(sqrt)
    requires 0.0 <= y
    ensures sqrt(y * y) == y
  {
    if 0.0 < y {
      MulPositive(y, y);
      var s := sqrt(y * y);
      if s < y {
        SquareStrict(s, y);
      } else if y < s {
        SquareStrict(y, s);
      }
    }
  }

  lemma SqrtOne(sqrt: real -> real)
    requires IsSqrt(sqrt)
    ensures sqrt(1.0) == 1.0
  {
    SqrtOfSquare(sqrt, 1.0);
  }

  lemma SqrtAtMostOne(sqrt: real -> real, x: real)
    requires IsSqrt(sqrt)
    requires 0.0 <= x <= 1.0
    ensures 0.0 <= sqrt(x) <= 1.0
  {
    SqrtNonNegative(sqrt, x);
    SqrtMonotone(sqrt, x, 1.0);
    SqrtOne(sqrt);
  }

  /** Dividing by a positive number keeps the sign and the comparison with 1. */
  lemma DivByPositive(x: real, p: real)
    requires 0.0 < p
    ensures 0.0 <= x ==> 0.0 <= x / p
    ensures x < p ==> x / p < 1.0
    ensures p <= x ==> 1.0 <= x / p
  {
    var q := x / p;
    assert q * p == x;
    if 0.0 <= x && q < 0.0 {
      MulLeftStrict(q, 0.0, p);
    }
    if x < p && 1.0 <= q {
      MulLeft(1.0, q, p);
    }
    if p <= x && q < 1.0 {
      MulLeftStrict(q, 1.0, p);
    }
  }

  /** Dividing by a positive number is monotone. */
  lemma DivMonotone(x: real, y: real, p: real)
    requires 0.0 < p && x <= y
    ensures x / p <= y / p
  {
    var qx, qy := x / p, y / p;
    assert qx * p == x && qy * p == y;
    if qy < qx {
      MulLeftStrict(qy, qx, p);
    }
  }

  /** Dividing by a larger positive number gives a smaller quotient. */
  lemma DivAntitone(x: real, p: real, r: real)
    requires 0.0 <= x && 0.0 < p <= r
    ensures x / r <= x / p
  {
    var qp, qr := x / p, x / r;
    assert qp * p == x && qr * r == x;
    DivByPositive(x, r);
    if qp < qr {
      MulLeftStrict(qp, qr, p);
      MulLeft(p, r, qr);
    }
  }

  /** JavaScript's `Math.round`: the nearest integer, halves rounded up. */
  function Round(x: real): (r: int)
    ensures x - 0.5 < r as real <= x + 0.5
  {
    (x + 0.5).Floor
  }

  lemma RoundMonotone(x: real, y: real)
    requires x <= y
    ensures Round(x) <= Round(y)
  {
  }

  lemma RoundOfInt(n: int)
    ensures Round(n as real) == n
  {
  }

  /** Rounding a value between two integers stays between them. */
  lemma RoundWithin(x: real, lo: int, hi: int)
    requires lo as real <= x <= hi as real
    ensures lo <= Round(x) <= hi
  {
    RoundMonotone(lo as real, x);
    RoundMonotone(x, hi as real);
    RoundOfInt(lo);
    RoundOfInt(hi);
  }

  function Max(a: real, b: real): (r: real)
    ensures r >= a && r >= b && (r == a || r == b)
  {
    if a >= b then a else b
  }

  function Min(a: real, b: real): (r: real)
    ensures r <= a && r <= b && (r == a || r == b)
  {
    if a <= b then a else b
  }

  /** `Math.max(lo, Math.min(hi, x))`. */
  function Clamp(x: real, lo: real, hi: real): (r: real)
    requires lo <= hi
    ensures lo <= r <= hi
    ensures lo <= x <= hi ==> r == x
    ensures x <= lo ==> r == lo
    ensures hi <= x ==> r == hi
  {
    Max(lo, Min(hi, x))
  }

  lemma ClampMonotone(x: real, y: real, lo: real, hi: real)
    requires lo <= hi
    requires x <= y
    ensures Clamp(x, lo, hi) <= Clamp(y, lo, hi)
  {
  }

  /** `Math.pow(x, 3)`. */
  function Cube(x: real): real {
    x * x * x
  }

  lemma CubeMonotone(x: real, y: real)
    requires 0.0 <= x <= y
    ensures Cube(x) <= Cube(y)
  {
    assert x * x <= y * y by {
      assert x * x <= x * y;
      assert x * y <= y * y;
    }
    assert x * x * x <= y * y * x;
    assert y * y * x <= y * y * y;
  }

  lemma CubeUnit(x: real)
    requires 0.0 <= x <= 1.0
    ensures 0.0 <= Cube(x) <= 1.0
  {
    CubeMonotone(0.0, x);
    CubeMonotone(x, 1.0);
  }
}
