/**
 The two-model scoring of `multiModelUtils.ts`: a square-root-scaled Euclidean score
 on MediaPipe descriptors, a clamped and cubed cosine score on face-api.js
 descriptors, and their weighted, rounded blend.

 Both loops run over the first descriptor's length and read the second descriptor
 at the same positions, so the second one is used only up to that length; a shorter
 second descriptor would read undefined entries and is excluded.
 */
module MultiModel {
  import opened Numerics
  import opened Vectors
  import opened Scores

  const MediapipeRate: real := 0.5
  const FaceApiRate: real := 0.5

  /** `Math.max(...s)` of a non-empty list. */
  function MaxElement(s: seq<real>): (m: real)
    requires |s| > 0
    ensures m in s
    ensures forall i :: 0 <= i < |s| ==> s[i] <= m
  {
    if |s| == 1 then s[0]
    else
      var rest := MaxElement(s[1..]);
      assert forall i :: 1 <= i < |s| ==> s[i] == s[1..][i - 1];
      if s[0] >= rest then s[0] else rest
  }

  /** `desc1.length · Math.max(...desc1, ...desc2)²`. */
  function MaxDistance(d1: Vector, d2: Vector): (m: real)
    requires |d1| > 0
    ensures 0.0 <= m
  {
    var top := MaxElement(d1 + d2);
    SquareNonNegative(top);
    MulNonNegative(|d1| as real, top * top);
    |d1| as real * (top * top)
  }

  /** The part of desc2 the loops read. */
  function Overlap(d1: Vector, d2: Vector): (o: Vector)
    requires |d1| <= |d2|
    ensures |o| == |d1|
  {
    d2[..|d1|]
  }

  /** The inputs on which `calculateMediapipeSimilarity` is a number: a non-empty first
      descriptor, a second one at least as long, and not both the distance and the
      maximum distance zero. */
  predicate MediapipeScorable(d1: Vector, d2: Vector) {
    0 < |d1| <= |d2| && (0.0 < MaxDistance(d1, d2) || 0.0 < SquaredDistance(d1, Overlap(d1, d2)))
  }

  /** `calculateMediapipeSimilarity(desc1, desc2)`. */
  function MediapipeSimilarity(sqrt: real -> real, d1: Vector, d2: Vector): (s: real)
    requires IsSqrt(sqrt)
    requires MediapipeScorable(d1, d2)
    ensures 0.0 <= s <= 100.0
    ensures d1 == Overlap(d1, d2) ==> s == 100.0
  {
    if d1 == Overlap(d1, d2) then
      SquaredDistanceSelf(d1);
      RootScaledDistanceScore(sqrt, SquaredDistance(d1, Overlap(d1, d2)), MaxDistance(d1, d2))
    else
      RootScaledDistanceScore(sqrt, SquaredDistance(d1, Overlap(d1, d2)), MaxDistance(d1, d2))
  }

  /** The MediaPipe score is 0 exactly when the squared distance reaches the maximum
      distance. */
  lemma MediapipeSimilarityZero(sqrt: real -> real, d1: Vector, d2: Vector)
    requires IsSqrt(sqrt)
    requires MediapipeScorable(d1, d2)
    ensures MediapipeSimilarity(sqrt, d1, d2) == 0.0 <==> MaxDistance(d1, d2) <= SquaredDistance(d1, Overlap(d1, d2))
  {
    RootScaledDistanceScoreZero(sqrt, SquaredDistance(d1, Overlap(d1, d2)), MaxDistance(d1, d2));
  }

  /** The inputs on which `calculateFaceApiSimilarity` is a number: neither norm is
      zero (which also makes the first descriptor non-empty). */
  predicate FaceApiScorable(d1: Vector, d2: Vector) {
    |d1| <= |d2| && 0.0 < NormSquared(d1) && 0.0 < NormSquared(Overlap(d1, d2))
  }

  /** `calculateFaceApiSimilarity(desc1, desc2)`: the cosine, clamped to [−1, 1]
      (which changes nothing on exact reals), through the cubed policy. */
  function FaceApiSimilarity(sqrt: real -> real, d1: Vector, d2: Vector): (r: int)
    requires IsSqrt(sqrt)
    requires FaceApiScorable(d1, d2)
    ensures 0 <= r <= 100
    ensures d1 == Overlap(d1, d2) ==> r == 100
  {
    var c := Cosine(sqrt, d1, Overlap(d1, d2));
    if d1 == Overlap(d1, d2) then
      CosineSelf(sqrt, d1);
      CubedCosineScore(c)
    else
      CubedCosineScore(c)
  }

  /** Of two candidates, the one at the larger cosine never scores lower. */
  lemma FaceApiSimilarityMonotone(sqrt: real -> real, q: Vector, a: Vector, b: Vector)
    requires IsSqrt(sqrt)
    requires FaceApiScorable(q, a) && FaceApiScorable(q, b)
    requires Cosine(sqrt, q, Overlap(q, a)) <= Cosine(sqrt, q, Overlap(q, b))
    ensures FaceApiSimilarity(sqrt, q, a) <= FaceApiSimilarity(sqrt, q, b)
  {
    CubedCosineScoreMonotone(Cosine(sqrt, q, Overlap(q, a)), Cosine(sqrt, q, Overlap(q, b)));
  }

  /** On descriptors of equal length the face-api score is symmetric. */
  lemma FaceApiSimilaritySymmetric(sqrt: real -> real, d1: Vector, d2: Vector)
    requires IsSqrt(sqrt)
    requires |d1| == |d2| && FaceApiScorable(d1, d2) && FaceApiScorable(d2, d1)
    ensures FaceApiSimilarity(sqrt, d1, d2) == FaceApiSimilarity(sqrt, d2, d1)
  {
    assert Overlap(d1, d2) == d2 && Overlap(d2, d1) == d1;
    CosineSymmetric(sqrt, d1, d2);
  }

  /** `calculateCombinedSimilarity`: the two scores blended with the method rates and
      rounded. */
  function CombinedSimilarity(sqrt: real -> real, mp1: Vector, fa1: Vector, mp2: Vector, fa2: Vector): (r: int)
    requires IsSqrt(sqrt)
    requires MediapipeScorable(mp1, mp2) && FaceApiScorable(fa1, fa2)
    ensures 0 <= r <= 100
    ensures mp1 == Overlap(mp1, mp2) && fa1 == Overlap(fa1, fa2) ==> r == 100
  {
    var mp := MediapipeSimilarity(sqrt, mp1, mp2);
    var fa := FaceApiSimilarity(sqrt, fa1, fa2);
    if mp == 100.0 && fa == 100 then
      BlendOfEqual(100, MediapipeRate, FaceApiRate);
      Blend(mp, fa as real, MediapipeRate, FaceApiRate)
    else
      Blend(mp, fa as real, MediapipeRate, FaceApiRate)
  }

  /** The combined score is monotone in each method's score. */
  lemma CombinedSimilarityMonotone(sqrt: real -> real, mp1: Vector, fa1: Vector,
                                   mpA: Vector, faA: Vector, mpB: Vector, faB: Vector)
    requires IsSqrt(sqrt)
    requires MediapipeScorable(mp1, mpA) && FaceApiScorable(fa1, faA)
    requires MediapipeScorable(mp1, mpB) && FaceApiScorable(fa1, faB)
    requires MediapipeSimilarity(sqrt, mp1, mpA) <= MediapipeSimilarity(sqrt, mp1, mpB)
    requires FaceApiSimilarity(sqrt, fa1, faA) <= FaceApiSimilarity(sqrt, fa1, faB)
    ensures CombinedSimilarity(sqrt, mp1, fa1, mpA, faA) <= CombinedSimilarity(sqrt, mp1, fa1, mpB, faB)
  {
    BlendMonotone(MediapipeSimilarity(sqrt, mp1, mpA), FaceApiSimilarity(sqrt, fa1, faA) as real,
                  MediapipeSimilarity(sqrt, mp1, mpB), FaceApiSimilarity(sqrt, fa1, faB) as real,
                  MediapipeRate, FaceApiRate);
  }
}
