/**
 The MediaPipe-only similarity of `faceUtils.ts`: the linear Euclidean policy on two
 landmark descriptors, rounded to an integer percentage, with 0 for descriptors of
 different lengths.
 */
module FaceUtils {
  import opened Numerics
  import opened Vectors
  import opened Scores

  /** Two empty descriptors give 0/0 in floating point; every other pair is scored. */
  predicate Scorable(d1: Vector, d2: Vector) {
    |d1| != |d2| || 0 < |d1|
  }

  /** `calculateSimilarity(desc1, desc2)`. */
  function Similarity(sqrt: real -> real, d1: Vector, d2: Vector): (r: int)
    requires IsSqrt(sqrt)
    requires Scorable(d1, d2)
    ensures 0 <= r <= 100
    ensures |d1| != |d2| ==> r == 0
    ensures d1 == d2 ==> r == 100
  {
    if |d1| != |d2| then 0
    else
      var score := LinearDistanceScore(sqrt, SquaredDistance(d1, d2), |d1| as real);
      RoundWithin(score, 0, 100);
      if d1 == d2 then
        SquaredDistanceSelf(d1);
        RoundOfInt(100);
        Round(score)
      else
        Round(score)
  }

  /** The score does not depend on the argument order. */
  lemma SimilaritySymmetric(sqrt: real -> real, d1: Vector, d2: Vector)
    requires IsSqrt(sqrt)
    requires Scorable(d1, d2)
    ensures Similarity(sqrt, d1, d2) == Similarity(sqrt, d2, d1)
  {
    if |d1| == |d2| {
      SquaredDistanceSymmetric(d1, d2);
    }
  }

  /** Of two candidates of the query's length, the one at the smaller squared distance
      never scores lower. */
  lemma SimilarityMonotone(sqrt: real -> real, q: Vector, a: Vector, b: Vector)
    requires IsSqrt(sqrt)
    requires 0 < |q| && |q| == |a| == |b|
    requires SquaredDistance(q, a) <= SquaredDistance(q, b)
    ensures Similarity(sqrt, q, b) <= Similarity(sqrt, q, a)
  {
    var n := |q| as real;
    LinearDistanceScoreMonotone(sqrt, SquaredDistance(q, a), SquaredDistance(q, b), n);
    RoundMonotone(LinearDistanceScore(sqrt, SquaredDistance(q, b), n),
                  LinearDistanceScore(sqrt, SquaredDistance(q, a), n));
  }

  /** Descriptors at squared distance n or more apart score 0. */
  lemma SimilarityFloor(sqrt: real -> real, d1: Vector, d2: Vector)
    requires IsSqrt(sqrt)
    requires 0 < |d1| == |d2|
    requires |d1| as real <= SquaredDistance(d1, d2)
    ensures Similarity(sqrt, d1, d2) == 0
  {
    LinearDistanceScoreZero(sqrt, SquaredDistance(d1, d2), |d1| as real);
    RoundOfInt(0);
  }
}
