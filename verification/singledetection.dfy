/**
 The two single-model matching screens (`MediaPipe.tsx` and `FaceAPI.tsx`). Each
 scores every catalog player against the query, then ranks. The MediaPipe screen uses
 the rounded linear Euclidean similarity; the face-api.js screen's scorer is not part
 of this model and is a parameter.
 */
module SingleDetection {
  import opened Vectors
  import opened Numerics
  import opened Players
  import opened Ranking
  import opened FaceUtils

  /** Every catalog entry paired with its score, in catalog order. */
  function Scored<P>(players: seq<P>, score: P -> real): (ms: seq<Match<P>>)
    ensures |ms| == |players|
    ensures forall i :: 0 <= i < |ms| ==> ms[i] == Match(players[i], score(players[i]))
  {
    Pair(players, seq(|players|, i requires 0 <= i < |players| => score(players[i])))
  }

  /** The shared pipeline: score, keep scores above the threshold, sort descending,
      keep the first three. Every result is a catalog player with its own score. */
  function Matches<P>(players: seq<P>, score: P -> real): (r: seq<Match<P>>)
    ensures |r| <= Limit
    ensures forall k :: 0 <= k < |r| ==> Survives(r[k])
    ensures Sorted(r)
    ensures forall k :: 0 <= k < |r| ==> r[k].player in players && r[k].similarity == score(r[k].player)
  {
    var ms := Scored(players, score);
    var r := Rank(ms);
    forall k | 0 <= k < |r|
      ensures r[k].player in players && r[k].similarity == score(r[k].player)
    {
      assert r[k] in multiset(ms);
      var i :| 0 <= i < |ms| && ms[i] == r[k];
    }
    r
  }

  /** The result is empty exactly when no catalog player scores above the threshold;
      in particular an empty catalog gives no matches. */
  lemma MatchesEmpty<P>(players: seq<P>, score: P -> real)
    ensures Matches(players, score) == [] <==> forall i :: 0 <= i < |players| ==> score(players[i]) <= Threshold
  {
    RankEmpty(Scored(players, score));
  }

  /** Players with equal scores come out in catalog order (the sort is stable). */
  lemma MatchesStable<P>(players: seq<P>, score: P -> real, v: real)
    ensures Tied(Matches(players, score), v) <= Tied(Scored(players, score), v)
  {
    RankStable(Scored(players, score), v);
  }

  /** No surviving player is left out while a lower-scoring one is kept. */
  lemma MatchesKeepBest<P>(players: seq<P>, score: P -> real, i: nat)
    requires i < |players| && Threshold < score(players[i])
    requires Match(players[i], score(players[i])) !in Matches(players, score)
    ensures |Matches(players, score)| == Limit
    ensures forall k :: 0 <= k < |Matches(players, score)| ==> score(players[i]) <= Matches(players, score)[k].similarity
  {
    RankKeepsSurvivor(Scored(players, score), i);
  }

  /** A player's MediaPipe score can be computed: it has a descriptor, and the pair is
      not two empty descriptors. */
  predicate MediapipeReady(query: Vector, p: Player) {
    p.descriptor.Some? && Scorable(query, p.descriptor.value)
  }

  /** The score the MediaPipe screen gives a catalog player: the rounded linear
      Euclidean similarity to the query (0 for a player it cannot score). */
  function MediapipeScorer(sqrt: real -> real, query: Vector): (score: Player -> real)
    requires IsSqrt(sqrt)
    ensures forall p: Player :: MediapipeReady(query, p) ==>
              score(p) == Similarity(sqrt, query, p.descriptor.value) as real
    ensures forall p: Player :: 0.0 <= score(p) <= 100.0
  {
    (p: Player) => if MediapipeReady(query, p) then Similarity(sqrt, query, p.descriptor.value) as real else 0.0
  }

  /** The MediaPipe screen's matches: the catalog ranked by the rounded linear
      Euclidean similarity, through the same pipeline as every screen. The code reads
      `player.descriptor!.length`; a player with no descriptor at all would make that
      read throw and the screen show its error (None). The catalog loader wraps every
      descriptor in a `Float32Array`, so a missing one arrives as an empty vector and
      never takes this branch. */
  function MediapipeMatches(sqrt: real -> real, query: Vector, players: seq<Player>): (r: Option<seq<Match<Player>>>)
    requires IsSqrt(sqrt)
    requires forall i :: 0 <= i < |players| && players[i].descriptor.Some? ==> Scorable(query, players[i].descriptor.value)
    ensures r.None? <==> exists i :: 0 <= i < |players| && players[i].descriptor.None?
    ensures r.Some? ==> r.value == Matches(players, MediapipeScorer(sqrt, query))
    ensures r.Some? ==> |r.value| <= Limit && Sorted(r.value)
    ensures r.Some? ==> forall k :: 0 <= k < |r.value| ==>
              && Survives(r.value[k])
              && r.value[k].player in players
              && r.value[k].similarity == Similarity(sqrt, query, r.value[k].player.descriptor.value) as real
  {
    if exists i :: 0 <= i < |players| && players[i].descriptor.None? then None
    else
      var r := Matches(players, MediapipeScorer(sqrt, query));
      assert forall k :: 0 <= k < |r| ==> MediapipeReady(query, r[k].player);
      Some(r)
  }

  /** A catalog player scoring above 40 is missing from the MediaPipe screen only when
      three players at least as similar are shown; with nobody above 40 nothing is
      shown, and only then. */
  lemma MediapipeMatchesKeepBest(sqrt: real -> real, query: Vector, players: seq<Player>, i: nat)
    requires IsSqrt(sqrt)
    requires forall i :: 0 <= i < |players| ==> players[i].descriptor.Some? && Scorable(query, players[i].descriptor.value)
    requires i < |players|
    ensures var r := MediapipeMatches(sqrt, query, players).value;
            var s := Similarity(sqrt, query, players[i].descriptor.value) as real;
            && (Threshold < s && Match(players[i], s) !in r ==>
                  |r| == Limit && forall k :: 0 <= k < |r| ==> s <= r[k].similarity)
            && (r == [] <==> forall j :: 0 <= j < |players| ==>
                  Similarity(sqrt, query, players[j].descriptor.value) as real <= Threshold)
  {
    var score := MediapipeScorer(sqrt, query);
    assert forall j :: 0 <= j < |players| ==> MediapipeReady(query, players[j]);
    MatchesEmpty(players, score);
    if Threshold < score(players[i]) && Match(players[i], score(players[i])) !in Matches(players, score) {
      MatchesKeepBest(players, score, i);
    }
  }
}
