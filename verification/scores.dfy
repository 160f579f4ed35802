/**
 The per-method score policies that turn a raw vector comparison into a percentage,
 and the weighted blend that fuses two of them. Each policy is stated on the raw
 quantity the source computes (a squared distance, a cosine) so that the modules for
 the individual source files only have to supply that quantity.
 */
module Scores {
  import opened Numerics

  /** Linear Euclidean policy: `max(0, 100·(1 − √d/√n))`, where d is the squared
      distance and n the descriptor length used as the maximum distance. */
  function LinearDistanceScore(sqrt: real -> real, d: real, n: real): (s: real)
    requires IsSqrt(sqrt)
    requires 0.0 <= d && 0.0 < n
    ensures 0.0 <= s <= 100.0
    ensures d == 0.0 ==> s == 100.0
  {
    SqrtNonNegative(sqrt, d);
    DivByPositive(sqrt(d), sqrt(n));
    Max(0.0, 100.0 * (1.0 - sqrt(d) / sqrt(n)))
  }

  /** The linear policy bottoms out exactly when the squared distance reaches n. */
  lemma LinearDistanceScoreZero(sqrt: real -> real, d: real, n: real)
    requires IsSqrt(sqrt)
    requires 0.0 <= d && 0.0 < n
    ensures LinearDistanceScore(sqrt, d, n) == 0.0 <==> n <= d
  {
    SqrtNonNegative(sqrt, d);
    DivByPositive(sqrt(d), sqrt(n));
    if n <= d {
      SqrtMonotone(sqrt, n, d);
    } else {
      SqrtStrict(sqrt, d, n);
    }
  }

  /** A smaller squared distance never scores lower under the linear policy. */
  lemma LinearDistanceScoreMonotone(sqrt: real -> real, d1: real, d2: real, n: real)
    requires IsSqrt(sqrt)
    requires 0.0 <= d1 <= d2 && 0.0 < n
    ensures LinearDistanceScore(sqrt, d2, n) <= LinearDistanceScore(sqrt, d1, n)
  {
    SqrtMonotone(sqrt, d1, d2);
    DivMonotone(sqrt(d1), sqrt(d2), sqrt(n));
  }

  /** Square-root-scaled Euclidean policy: `max(0, (1 − (√d/√m)^0.5)·100)` with m the
      maximum distance. When m is 0 and d is positive the quotient is +∞ in floating
      point and the score is 0; d = m = 0 is NaN and excluded. */
  function RootScaledDistanceScore(sqrt: real -> real, d: real, m: real): (s: real)
    requires IsSqrt(sqrt)
    requires 0.0 <= d && 0.0 <= m && (0.0 < d || 0.0 < m)
    ensures 0.0 <= s <= 100.0
    ensures d == 0.0 ==> s == 100.0
    ensures m == 0.0 ==> s == 0.0
  {
    if m == 0.0 then 0.0
    else
      SqrtNonNegative(sqrt, d);
      DivByPositive(sqrt(d), sqrt(m));
      var q := sqrt(d) / sqrt(m);
      SqrtNonNegative(sqrt, q);
      Max(0.0, (1.0 - sqrt(q)) * 100.0)
  }

  /** The square-root-scaled policy bottoms out exactly when d reaches m. */
  lemma RootScaledDistanceScoreZero(sqrt: real -> real, d: real, m: real)
    requires IsSqrt(sqrt)
    requires 0.0 <= d && 0.0 <= m && (0.0 < d || 0.0 < m)
    ensures RootScaledDistanceScore(sqrt, d, m) == 0.0 <==> m <= d
  {
    if 0.0 < m {
      SqrtNonNegative(sqrt, d);
      DivByPositive(sqrt(d), sqrt(m));
      var q := sqrt(d) / sqrt(m);
      SqrtOne(sqrt);
      if m <= d {
        SqrtMonotone(sqrt, m, d);
        SqrtMonotone(sqrt, 1.0, q);
      } else {
        SqrtStrict(sqrt, d, m);
        SqrtStrict(sqrt, q, 1.0);
      }
    }
  }

  /** A smaller squared distance never scores lower under the square-root-scaled policy. */
  lemma RootScaledDistanceScoreMonotone(sqrt: real -> real, d1: real, d2: real, m: real)
    requires IsSqrt(sqrt)
    requires 0.0 <= d1 <= d2 && 0.0 < m
    ensures RootScaledDistanceScore(sqrt, d2, m) <= RootScaledDistanceScore(sqrt, d1, m)
  {
    SqrtNonNegative(sqrt, d1);
    SqrtMonotone(sqrt, d1, d2);
    DivByPositive(sqrt(d1), sqrt(m));
    DivMonotone(sqrt(d1), sqrt(d2), sqrt(m));
    SqrtMonotone(sqrt, sqrt(d1) / sqrt(m), sqrt(d2) / sqrt(m));
  }

  /** Linear cosine policy: `round(((c + 1) / 2)·100)` for a cosine c in [−1, 1]. */
  function LinearCosineScore(c: real): (r: int)
    requires -1.0 <= c <= 1.0
    ensures 0 <= r <= 100
    ensures c == 1.0 ==> r == 100
    ensures c == -1.0 ==> r == 0
  {
    RoundWithin(((c + 1.0) / 2.0) * 100.0, 0, 100);
    Round(((c + 1.0) / 2.0) * 100.0)
  }

  lemma LinearCosineScoreMonotone(c1: real, c2: real)
    requires -1.0 <= c1 <= c2 <= 1.0
    ensures LinearCosineScore(c1) <= LinearCosineScore(c2)
  {
    RoundMonotone(((c1 + 1.0) / 2.0) * 100.0, ((c2 + 1.0) / 2.0) * 100.0);
  }

  /** Cubed cosine policy: the raw quotient x is clamped to [−1, 1], then the score is
      `round(((c + 1) / 2)^3·100)`. */
  function CubedCosineScore(x: real): (r: int)
    ensures 0 <= r <= 100
    ensures 1.0 <= x ==> r == 100
    ensures x <= -1.0 ==> r == 0
  {
    var c := Clamp(x, -1.0, 1.0);
    CubeUnit((c + 1.0) / 2.0);
    RoundWithin(Cube((c + 1.0) / 2.0) * 100.0, 0, 100);
    Round(Cube((c + 1.0) / 2.0) * 100.0)
  }

  /** The cubed policy is monotone in the quotient, clamping included. */
  lemma CubedCosineScoreMonotone(x: real, y: real)
    requires x <= y
    ensures CubedCosineScore(x) <= CubedCosineScore(y)
  {
    var cx, cy := Clamp(x, -1.0, 1.0), Clamp(y, -1.0, 1.0);
    ClampMonotone(x, y, -1.0, 1.0);
    CubeMonotone((cx + 1.0) / 2.0, (cy + 1.0) / 2.0);
    RoundMonotone(Cube((cx + 1.0) / 2.0) * 100.0, Cube((cy + 1.0) / 2.0) * 100.0);
  }

  /** Inside [−1, 1] the cubed policy never scores above the linear one: the cube of a
      number in [0, 1] is at most the number itself. */
  lemma CubedBelowLinear(c: real)
    requires -1.0 <= c <= 1.0
    ensures CubedCosineScore(c) <= LinearCosineScore(c)
  {
    var h := (c + 1.0) / 2.0;
    assert Clamp(c, -1.0, 1.0) == c;
    assert h * h <= h by {
      MulLeft(h, 1.0, h);
    }
    assert Cube(h) <= h by {
      MulLeft(h * h, h, h);
      MulLeft(h, 1.0, h);
    }
    RoundMonotone(Cube(h) * 100.0, h * 100.0);
  }

  /** The weighted, rounded blend of two method scores. With non-negative weights
      summing to 1 it lies between the rounded lower and the rounded higher score. */
  function Blend(mp: real, fa: real, wm: real, wf: real): (r: int)
    requires 0.0 <= wm && 0.0 <= wf && wm + wf == 1.0
    ensures Round(Min(mp, fa)) <= r <= Round(Max(mp, fa))
    ensures 0.0 <= mp <= 100.0 && 0.0 <= fa <= 100.0 ==> 0 <= r <= 100
  {
    BlendBetween(mp, fa, wm, wf);
    RoundMonotone(Min(mp, fa), mp * wm + fa * wf);
    RoundMonotone(mp * wm + fa * wf, Max(mp, fa));
    RoundPercent(Min(mp, fa));
    RoundPercent(Max(mp, fa));
    Round(mp * wm + fa * wf)
  }

  /** A convex combination lies between its two points. */
  lemma BlendBetween(mp: real, fa: real, wm: real, wf: real)
    requires 0.0 <= wm && 0.0 <= wf && wm + wf == 1.0
    ensures Min(mp, fa) <= mp * wm + fa * wf <= Max(mp, fa)
  {
    var lo, hi := Min(mp, fa), Max(mp, fa);
    WeightedSumMonotone(lo, lo, mp, fa, wm, wf);
    WeightedSumMonotone(mp, fa, hi, hi, wm, wf);
    WeightedSumOfEqual(lo, wm, wf);
    WeightedSumOfEqual(hi, wm, wf);
  }

  /** Weights summing to 1 leave a single point where it is. */
  lemma WeightedSumOfEqual(x: real, wm: real, wf: real)
    requires wm + wf == 1.0
    ensures x * wm + x * wf == x
  {
    assert x * wm + x * wf == x * (wm + wf);
  }

  lemma RoundPercent(x: real)
    ensures 0.0 <= x <= 100.0 ==> 0 <= Round(x) <= 100
  {
    if 0.0 <= x <= 100.0 {
      RoundWithin(x, 0, 100);
    }
  }

  /** The blend is monotone in each score. */
  lemma BlendMonotone(mp1: real, fa1: real, mp2: real, fa2: real, wm: real, wf: real)
    requires 0.0 <= wm && 0.0 <= wf && wm + wf == 1.0
    requires mp1 <= mp2 && fa1 <= fa2
    ensures Blend(mp1, fa1, wm, wf) <= Blend(mp2, fa2, wm, wf)
  {
    WeightedSumMonotone(mp1, fa1, mp2, fa2, wm, wf);
    RoundMonotone(mp1 * wm + fa1 * wf, mp2 * wm + fa2 * wf);
  }

  lemma WeightedSumMonotone(mp1: real, fa1: real, mp2: real, fa2: real, wm: real, wf: real)
    requires 0.0 <= wm && 0.0 <= wf
    requires mp1 <= mp2 && fa1 <= fa2
    ensures mp1 * wm + fa1 * wf <= mp2 * wm + fa2 * wf
  {
    MulLeft(mp1, mp2, wm);
    MulLeft(fa1, fa2, wf);
  }

  /** Two equal integer scores blend to themselves. */
  lemma BlendOfEqual(k: int, wm: real, wf: real)
    requires 0.0 <= wm && 0.0 <= wf && wm + wf == 1.0
    ensures Blend(k as real, k as real, wm, wf) == k
  {
    assert (k as real) * wm + (k as real) * wf == (k as real) * (wm + wf);
    RoundOfInt(k);
  }
}
