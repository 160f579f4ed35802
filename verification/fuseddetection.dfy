/**
 The live matching screen (`components/FaceDetection/index.tsx`). Two catalogs are
 kept side by side, one with MediaPipe descriptors and one with face-api.js
 descriptors, matched by position. Each catalog position gets a fused score: an
 unrounded linear Euclidean MediaPipe component and a rounded linear cosine face-api
 component, blended half and half and rounded. The MediaPipe catalog is then ranked.
 */
module FusedDetection {
  import opened Numerics
  import opened Vectors
  import opened Scores
  import opened Players
  import opened Ranking
  import opened FaceUtils

  /** The weight of each component in the fused score. */
  const ComponentWeight: real := 0.5

  /** The MediaPipe component: 0 on a length mismatch, otherwise the linear Euclidean
      policy, not rounded. */
  function MediapipeComponent(sqrt: real -> real, input: Vector, desc: Vector): (s: real)
    requires IsSqrt(sqrt)
    requires Scorable(input, desc)
    ensures 0.0 <= s <= 100.0
    ensures |input| != |desc| ==> s == 0.0
    ensures input == desc ==> s == 100.0
  {
    if |input| != |desc| then 0.0
    else
      if input == desc then
        SquaredDistanceSelf(input);
        LinearDistanceScore(sqrt, SquaredDistance(input, desc), |input| as real)
      else
        LinearDistanceScore(sqrt, SquaredDistance(input, desc), |input| as real)
  }

  /** The face-api component: 0 on a length mismatch or when the product of the norms
      is 0, otherwise the linear cosine policy. */
  function FaceApiComponent(sqrt: real -> real, input: Vector, desc: Vector): (r: int)
    requires IsSqrt(sqrt)
    ensures 0 <= r <= 100
    ensures |input| != |desc| ==> r == 0
    ensures NormSquared(input) == 0.0 || NormSquared(desc) == 0.0 ==> r == 0
    ensures input == desc && 0.0 < NormSquared(input) ==> r == 100
  {
    if |input| != |desc| then 0
    else
      var denominator := sqrt(NormSquared(input)) * sqrt(NormSquared(desc));
      if denominator == 0.0 then 0
      else
        SqrtNonNegative(sqrt, NormSquared(input));
        SqrtNonNegative(sqrt, NormSquared(desc));
        if input == desc then
          CosineSelf(sqrt, input);
          LinearCosineScore(Cosine(sqrt, input, desc))
        else
          LinearCosineScore(Cosine(sqrt, input, desc))
  }

  /** The denominator vanishes exactly when one of the norms does. */
  lemma FaceApiDenominatorZero(sqrt: real -> real, input: Vector, desc: Vector)
    requires IsSqrt(sqrt)
    ensures sqrt(NormSquared(input)) * sqrt(NormSquared(desc)) == 0.0
            <==> NormSquared(input) == 0.0 || NormSquared(desc) == 0.0
  {
    var a, b := NormSquared(input), NormSquared(desc);
    if 0.0 < a && 0.0 < b {
      MulPositive(sqrt(a), sqrt(b));
    }
  }

  /** The fused score is defined (no 0/0) for this MediaPipe descriptor. */
  predicate Defined(mpInput: Vector, p: Player) {
    p.descriptor.Some? ==> Scorable(mpInput, p.descriptor.value)
  }

  /** `calculateSimilarity(inputMediapipe, inputFaceApi, playerIndex)`: 0 when either
      catalog has no descriptor at the index (the face-api catalog may be shorter),
      otherwise the rounded half-and-half blend of the two components. */
  function Similarity(sqrt: real -> real, mpInput: Vector, faInput: Vector,
                      mpPlayers: seq<Player>, faPlayers: seq<Player>, index: nat): (r: int)
    requires IsSqrt(sqrt)
    requires index < |mpPlayers| && Defined(mpInput, mpPlayers[index])
    ensures 0 <= r <= 100
    ensures mpPlayers[index].descriptor.None? || index >= |faPlayers| || faPlayers[index].descriptor.None?
            ==> r == 0
  {
    if mpPlayers[index].descriptor.None? || index >= |faPlayers| || faPlayers[index].descriptor.None? then 0
    else
      var mp := MediapipeComponent(sqrt, mpInput, mpPlayers[index].descriptor.value);
      var fa := FaceApiComponent(sqrt, faInput, faPlayers[index].descriptor.value);
      Blend(mp, fa as real, ComponentWeight, ComponentWeight)
  }

  /** A length mismatch zeroes only its own component: the entry keeps the rounded
      half of the other component, and is not dropped. */
  lemma MismatchZeroesOneComponent(sqrt: real -> real, mpInput: Vector, faInput: Vector,
                                   mpPlayers: seq<Player>, faPlayers: seq<Player>, index: nat)
    requires IsSqrt(sqrt)
    requires index < |mpPlayers| && index < |faPlayers|
    requires mpPlayers[index].descriptor.Some? && faPlayers[index].descriptor.Some?
    requires Defined(mpInput, mpPlayers[index])
    ensures |mpInput| != |mpPlayers[index].descriptor.value| ==>
              Similarity(sqrt, mpInput, faInput, mpPlayers, faPlayers, index)
              == Round(0.5 * FaceApiComponent(sqrt, faInput, faPlayers[index].descriptor.value) as real)
    ensures |faInput| != |faPlayers[index].descriptor.value| ==>
              Similarity(sqrt, mpInput, faInput, mpPlayers, faPlayers, index)
              == Round(0.5 * MediapipeComponent(sqrt, mpInput, mpPlayers[index].descriptor.value))
  {
  }

  /** Identical descriptors in both catalogs score 100. */
  lemma SimilarityOfIdentical(sqrt: real -> real, mpInput: Vector, faInput: Vector,
                              mpPlayers: seq<Player>, faPlayers: seq<Player>, index: nat)
    requires IsSqrt(sqrt)
    requires index < |mpPlayers| && index < |faPlayers|
    requires mpPlayers[index].descriptor == Some(mpInput) && 0 < |mpInput|
    requires faPlayers[index].descriptor == Some(faInput) && 0.0 < NormSquared(faInput)
    ensures Similarity(sqrt, mpInput, faInput, mpPlayers, faPlayers, index) == 100
  {
    BlendOfEqual(100, ComponentWeight, ComponentWeight);
  }

  /** The fused scores of the whole MediaPipe catalog, by position. */
  function FusedScores(sqrt: real -> real, mpInput: Vector, faInput: Vector,
                  mpPlayers: seq<Player>, faPlayers: seq<Player>): (scores: seq<real>)
    requires IsSqrt(sqrt)
    requires forall i :: 0 <= i < |mpPlayers| ==> Defined(mpInput, mpPlayers[i])
    ensures |scores| == |mpPlayers|
    ensures forall i :: 0 <= i < |scores| ==>
              scores[i] == Similarity(sqrt, mpInput, faInput, mpPlayers, faPlayers, i) as real
  {
    seq(|mpPlayers|, i requires 0 <= i < |mpPlayers| =>
      Similarity(sqrt, mpInput, faInput, mpPlayers, faPlayers, i) as real)
  }

  /** The `map` step: each MediaPipe player paired with the fused score of its
      position. */
  function Candidates(sqrt: real -> real, mpInput: Vector, faInput: Vector,
                      mpPlayers: seq<Player>, faPlayers: seq<Player>): (ms: seq<Match<Player>>)
    requires IsSqrt(sqrt)
    requires forall i :: 0 <= i < |mpPlayers| ==> Defined(mpInput, mpPlayers[i])
    ensures |ms| == |mpPlayers|
    ensures forall i :: 0 <= i < |ms| ==>
              ms[i] == Match(mpPlayers[i], Similarity(sqrt, mpInput, faInput, mpPlayers, faPlayers, i) as real)
  {
    Pair(mpPlayers, FusedScores(sqrt, mpInput, faInput, mpPlayers, faPlayers))
  }

  /** The matches `handleImageProcess` shows: the candidates ranked. As many as there
      are candidates above 40, but at most three, sorted, each a MediaPipe player with
      the fused score of its position. */
  function FindMatches(sqrt: real -> real, mpInput: Vector, faInput: Vector,
                       mpPlayers: seq<Player>, faPlayers: seq<Player>): (r: seq<Match<Player>>)
    requires IsSqrt(sqrt)
    requires forall i :: 0 <= i < |mpPlayers| ==> Defined(mpInput, mpPlayers[i])
    ensures var n := |Survivors(Candidates(sqrt, mpInput, faInput, mpPlayers, faPlayers))|;
            |r| == if n < Limit then n else Limit
    ensures forall k :: 0 <= k < |r| ==> Survives(r[k])
    ensures Sorted(r)
    ensures forall k :: 0 <= k < |r| ==>
              (exists i :: 0 <= i < |mpPlayers| &&
                 r[k] == Match(mpPlayers[i], Similarity(sqrt, mpInput, faInput, mpPlayers, faPlayers, i) as real))
  {
    var ms := Candidates(sqrt, mpInput, faInput, mpPlayers, faPlayers);
    var r := Rank(ms);
    forall k | 0 <= k < |r|
      ensures exists i :: 0 <= i < |mpPlayers| &&
                r[k] == Match(mpPlayers[i], Similarity(sqrt, mpInput, faInput, mpPlayers, faPlayers, i) as real)
    {
      assert r[k] in multiset(ms);
      var i :| 0 <= i < |ms| && ms[i] == r[k];
    }
    r
  }

  /** Nothing is shown exactly when no position's fused score is above 40. */
  lemma FindMatchesEmpty(sqrt: real -> real, mpInput: Vector, faInput: Vector,
                         mpPlayers: seq<Player>, faPlayers: seq<Player>)
    requires IsSqrt(sqrt)
    requires forall i :: 0 <= i < |mpPlayers| ==> Defined(mpInput, mpPlayers[i])
    ensures FindMatches(sqrt, mpInput, faInput, mpPlayers, faPlayers) == []
            <==> forall i :: 0 <= i < |mpPlayers| ==>
                   Similarity(sqrt, mpInput, faInput, mpPlayers, faPlayers, i) as real <= Threshold
  {
    RankEmpty(Candidates(sqrt, mpInput, faInput, mpPlayers, faPlayers));
  }

  /** Players with equal fused scores are shown in catalog order. */
  lemma FindMatchesStable(sqrt: real -> real, mpInput: Vector, faInput: Vector,
                          mpPlayers: seq<Player>, faPlayers: seq<Player>, v: real)
    requires IsSqrt(sqrt)
    requires forall i :: 0 <= i < |mpPlayers| ==> Defined(mpInput, mpPlayers[i])
    ensures Tied(FindMatches(sqrt, mpInput, faInput, mpPlayers, faPlayers), v)
            <= Tied(Candidates(sqrt, mpInput, faInput, mpPlayers, faPlayers), v)
  {
    RankStable(Candidates(sqrt, mpInput, faInput, mpPlayers, faPlayers), v);
  }

  /** A position scoring above 40 is left out only when three matches are shown, each
      scoring at least as high. */
  lemma FindMatchesKeepBest(sqrt: real -> real, mpInput: Vector, faInput: Vector,
                            mpPlayers: seq<Player>, faPlayers: seq<Player>, i: nat)
    requires IsSqrt(sqrt)
    requires forall i :: 0 <= i < |mpPlayers| ==> Defined(mpInput, mpPlayers[i])
    requires i < |mpPlayers|
    requires Threshold < Similarity(sqrt, mpInput, faInput, mpPlayers, faPlayers, i) as real
    requires Match(mpPlayers[i], Similarity(sqrt, mpInput, faInput, mpPlayers, faPlayers, i) as real)
             !in FindMatches(sqrt, mpInput, faInput, mpPlayers, faPlayers)
    ensures |FindMatches(sqrt, mpInput, faInput, mpPlayers, faPlayers)| == Limit
    ensures forall k :: 0 <= k < Limit ==>
              Similarity(sqrt, mpInput, faInput, mpPlayers, faPlayers, i) as real
              <= FindMatches(sqrt, mpInput, faInput, mpPlayers, faPlayers)[k].similarity
  {
    RankKeepsSurvivor(Candidates(sqrt, mpInput, faInput, mpPlayers, faPlayers), i);
  }
}
