/**
 The vector metrics the score formulas are built from. Each sum is defined the way
 the source loops accumulate it, index 0 first, so the last index is peeled off.
 */
module Vectors {
  import opened Numerics

  /** A face descriptor: MediaPipe landmark geometry or a face-api.js embedding. */
  type Vector = seq<real>

  /** Σ (a[i] − b[i])², the `distance` accumulated by the Euclidean loops. */
  function SquaredDistance(a: Vector, b: Vector): (d: real)
    requires |a| == |b|
    ensures 0.0 <= d
  {
    if |a| == 0 then 0.0
    else
      var n := |a| - 1;
      var diff := a[n] - b[n];
      SquareNonNegative(diff);
      SquaredDistance(a[..n], b[..n]) + diff * diff
  }

  /** Σ a[i]·b[i], the `dotProduct` of the cosine loops. */
  function Dot(a: Vector, b: Vector): real
    requires |a| == |b|
  {
    if |a| == 0 then 0.0
    else
      var n := |a| - 1;
      Dot(a[..n], b[..n]) + a[n] * b[n]
  }

  /** Σ a[i]², the `norm1`/`norm2` of the cosine loops. */
  function NormSquared(a: Vector): (s: real)
    ensures 0.0 <= s
  {
    if |a| == 0 then 0.0
    else
      var n := |a| - 1;
      SquareNonNegative(a[n]);
      NormSquared(a[..n]) + a[n] * a[n]
  }

  lemma {:induction false} SquaredDistanceSymmetric(a: Vector, b: Vector)
    requires |a| == |b|
    ensures SquaredDistance(a, b) == SquaredDistance(b, a)
  {
    if |a| > 0 {
      var n := |a| - 1;
      SquaredDistanceSymmetric(a[..n], b[..n]);
      assert (a[n] - b[n]) * (a[n] - b[n]) == (b[n] - a[n]) * (b[n] - a[n]);
    }
  }

  lemma {:induction false} SquaredDistanceSelf(a: Vector)
    ensures SquaredDistance(a, a) == 0.0
  {
    if |a| > 0 {
      SquaredDistanceSelf(a[..|a| - 1]);
    }
  }

  lemma {:induction false} DotSymmetric(a: Vector, b: Vector)
    requires |a| == |b|
    ensures Dot(a, b) == Dot(b, a)
  {
    if |a| > 0 {
      DotSymmetric(a[..|a| - 1], b[..|b| - 1]);
    }
  }

  lemma {:induction false} DotSelf(a: Vector)
    ensures Dot(a, a) == NormSquared(a)
  {
    if |a| > 0 {
      DotSelf(a[..|a| - 1]);
    }
  }

  /** The inductive step of Cauchy–Schwarz: appending one coordinate to each vector
      keeps D² ≤ A·B. */
  lemma CauchySchwarzStep(d: real, a: real, b: real, x: real, y: real)
    requires 0.0 <= a && 0.0 <= b && d * d <= a * b
    ensures (d + x * y) * (d + x * y) <= (a + x * x) * (b + y * y)
  {
    var gap := a * (y * y) + b * (x * x) - 2.0 * d * x * y;
    if 0.0 < a {
      GapWithPositiveWeight(d, a, b, x, y);
    } else if 0.0 < b {
      GapWithPositiveWeight(d, b, a, y, x);
    } else if d != 0.0 {
      SquarePositive(d);
    }
    assert (a + x * x) * (b + y * y) - (d + x * y) * (d + x * y) == a * b - d * d + gap;
  }

  /** With a > 0: a·(a·y² + b·x² − 2·d·x·y) = (a·y − d·x)² + (a·b − d²)·x² >= 0. */
  lemma GapWithPositiveWeight(d: real, a: real, b: real, x: real, y: real)
    requires 0.0 < a && 0.0 <= b && d * d <= a * b
    ensures 0.0 <= a * (y * y) + b * (x * x) - 2.0 * d * x * y
  {
    var gap := a * (y * y) + b * (x * x) - 2.0 * d * x * y;
    var u := a * y - d * x;
    assert a * gap == u * u + (a * b - d * d) * (x * x);
    SquareNonNegative(u);
    SquareNonNegative(x);
    MulNonNegative(a * b - d * d, x * x);
    if gap < 0.0 {
      MulLeftStrict(gap, 0.0, a);
    }
  }

  /** Cauchy–Schwarz: (a·b)² ≤ ‖a‖²·‖b‖². */
  lemma {:induction false} CauchySchwarz(a: Vector, b: Vector)
    requires |a| == |b|
    ensures Dot(a, b) * Dot(a, b) <= NormSquared(a) * NormSquared(b)
  {
    if |a| > 0 {
      var n := |a| - 1;
      CauchySchwarz(a[..n], b[..n]);
      CauchySchwarzStep(Dot(a[..n], b[..n]), NormSquared(a[..n]), NormSquared(b[..n]), a[n], b[n]);
    }
  }

  /** A value whose square is at most p² lies in [−p, p]. */
  lemma AbsBoundBySquare(x: real, p: real)
    requires 0.0 < p && x * x <= p * p
    ensures -p <= x <= p
  {
    if p < x {
      SquareStrict(p, x);
    } else if x < -p {
      SquareStrict(p, -x);
    }
  }

  lemma ProductOfSquares(sa: real, sb: real, na: real, nb: real)
    requires sa * sa == na && sb * sb == nb
    ensures (sa * sb) * (sa * sb) == na * nb
  {
    calc {
      (sa * sb) * (sa * sb);
      (sa * sa) * (sb * sb);
      na * nb;
    }
  }

  lemma DivWithinUnit(x: real, p: real)
    requires 0.0 < p && -p <= x <= p
    ensures -1.0 <= x / p <= 1.0
  {
    var q := x / p;
    assert q * p == x;
    if 1.0 < q {
      MulLeftStrict(1.0, q, p);
    } else if q < -1.0 {
      MulLeftStrict(q, -1.0, p);
    }
  }

  /** x / (√na·√nb) lies in [−1, 1] when x² ≤ na·nb. */
  lemma RatioWithinUnit(x: real, sa: real, sb: real, na: real, nb: real)
    requires 0.0 < sa && 0.0 < sb && sa * sa == na && sb * sb == nb
    requires x * x <= na * nb
    ensures 0.0 < sa * sb
    ensures -1.0 <= x / (sa * sb) <= 1.0
  {
    MulPositive(sa, sb);
    ProductOfSquares(sa, sb, na, nb);
    AbsBoundBySquare(x, sa * sb);
    DivWithinUnit(x, sa * sb);
  }

  /** The cosine of the angle between a and b: (a·b) / (‖a‖·‖b‖). Cauchy–Schwarz is
      why it needs no clamping on exact reals. */
  function Cosine(sqrt: real -> real, a: Vector, b: Vector): (c: real)
    requires IsSqrt(sqrt)
    requires |a| == |b| && 0.0 < NormSquared(a) && 0.0 < NormSquared(b)
    ensures -1.0 <= c <= 1.0
  {
    var x, na, nb := Dot(a, b), NormSquared(a), NormSquared(b);
    var sa, sb := sqrt(na), sqrt(nb);
    CauchySchwarz(a, b);
    RatioWithinUnit(x, sa, sb, na, nb);
    x / (sa * sb)
  }

  lemma CosineSelf(sqrt: real -> real, a: Vector)
    requires IsSqrt(sqrt)
    requires 0.0 < NormSquared(a)
    ensures Cosine(sqrt, a, a) == 1.0
  {
    DotSelf(a);
    var s := sqrt(NormSquared(a));
    assert s * s == NormSquared(a);
  }

  lemma CosineSymmetric(sqrt: real -> real, a: Vector, b: Vector)
    requires IsSqrt(sqrt)
    requires |a| == |b| && 0.0 < NormSquared(a) && 0.0 < NormSquared(b)
    ensures Cosine(sqrt, a, b) == Cosine(sqrt, b, a)
  {
    DotSymmetric(a, b);
    var sa, sb := sqrt(NormSquared(a)), sqrt(NormSquared(b));
    assert sa * sb == sb * sa;
  }
}
