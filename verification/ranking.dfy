/**
 The match ranking shared by the three detection screens: every catalog entry is
 paired with its score, entries scoring at most 40 are dropped, the rest are sorted by
 descending score with a stable sort (equal scores keep catalog order, as
 `Array.prototype.sort` has guaranteed since ECMAScript 2019), and the first three are
 kept.
 */
module Ranking {

  datatype Match<P> = Match(player: P, similarity: real)

  /** Only scores strictly above this survive. */
  const Threshold: real := 40.0

  /** At most this many matches are shown. */
  const Limit: nat := 3

  /** The `map` step: entry i pairs players[i] with scores[i]. */
  function Pair<P>(players: seq<P>, scores: seq<real>): (ms: seq<Match<P>>)
    requires |players| == |scores|
    ensures |ms| == |players|
    ensures forall i :: 0 <= i < |ms| ==> ms[i].player == players[i] && ms[i].similarity == scores[i]
  {
    seq(|players|, i requires 0 <= i < |players| => Match(players[i], scores[i]))
  }

  predicate Survives<P>(m: Match<P>) {
    m.similarity > Threshold
  }

  /** The `filter` step. */
  function Survivors<P>(ms: seq<Match<P>>): (r: seq<Match<P>>)
    ensures |r| <= |ms|
  {
    if |ms| == 0 then []
    else (if Survives(ms[0]) then [ms[0]] else []) + Survivors(ms[1..])
  }

  /** The entries of ms with score exactly v, in their order in ms. Two lists agree on
      every `Tied` exactly when they order equal scores the same way. */
  function Tied<P>(ms: seq<Match<P>>, v: real): (r: seq<Match<P>>)
    ensures |r| <= |ms|
  {
    if |ms| == 0 then []
    else (if ms[0].similarity == v then [ms[0]] else []) + Tied(ms[1..], v)
  }

  /** Non-increasing similarity. */
  predicate Sorted<P>(ms: seq<Match<P>>) {
    forall i, j :: 0 <= i < j < |ms| ==> ms[i].similarity >= ms[j].similarity
  }

  /** Inserting m in front of the first entry that does not outscore it: m goes after
      every strictly better entry and before the equal ones that follow it in the
      input. */
  function Insert<P>(m: Match<P>, xs: seq<Match<P>>): (r: seq<Match<P>>)
    ensures multiset(r) == multiset(xs) + multiset{m}
  {
    if |xs| == 0 || xs[0].similarity <= m.similarity then
      [m] + xs
    else
      assert xs == [xs[0]] + xs[1..];
      [xs[0]] + Insert(m, xs[1..])
  }

  lemma {:induction false} InsertSorted<P>(m: Match<P>, xs: seq<Match<P>>)
    requires Sorted(xs)
    ensures Sorted(Insert(m, xs))
    ensures |xs| > 0 && m.similarity < xs[0].similarity ==> Insert(m, xs)[0] == xs[0]
    ensures |xs| == 0 || xs[0].similarity <= m.similarity ==> Insert(m, xs)[0] == m
  {
    if |xs| == 0 || xs[0].similarity <= m.similarity {
    } else {
      var rest := Insert(m, xs[1..]);
      InsertSorted(m, xs[1..]);
      var r := [xs[0]] + rest;
      assert r == Insert(m, xs);
      forall i, j | 0 <= i < j < |r|
        ensures r[i].similarity >= r[j].similarity
      {
        if i == 0 {
          assert r[j] == rest[j - 1];
          assert rest[j - 1].similarity <= rest[0].similarity;
        }
      }
    }
  }

  /** The stable descending sort, as insertion sort from the back of the list. */
  function SortDescending<P>(ms: seq<Match<P>>): (r: seq<Match<P>>)
    ensures Sorted(r)
    ensures multiset(r) == multiset(ms)
  {
    if |ms| == 0 then []
    else
      assert ms == [ms[0]] + ms[1..];
      var rest := SortDescending(ms[1..]);
      InsertSorted(ms[0], rest);
      Insert(ms[0], rest)
  }

  /** The `slice(0, 3)` step. */
  function Take<P>(ms: seq<Match<P>>, k: nat): seq<Match<P>> {
    if |ms| <= k then ms else ms[..k]
  }

  /** The ranked result: `filter(> 40)`, stable descending sort, `slice(0, 3)`. */
  function Rank<P>(ms: seq<Match<P>>): (r: seq<Match<P>>)
    ensures |r| <= Limit
    ensures |r| == if |Survivors(ms)| < Limit then |Survivors(ms)| else Limit
    ensures forall i :: 0 <= i < |r| ==> Survives(r[i])
    ensures Sorted(r)
    ensures multiset(r) <= multiset(ms)
  {
    var sorted := SortDescending(Survivors(ms));
    assert |sorted| == |Survivors(ms)| by {
      assert |multiset(sorted)| == |multiset(Survivors(ms))|;
    }
    TakeOfSorted(sorted, Limit);
    SurvivorsContents(ms);
    SurvivorsAllSurvive(ms, sorted);
    Take(sorted, Limit)
  }

  lemma TakeOfSorted<P>(ms: seq<Match<P>>, k: nat)
    requires Sorted(ms)
    ensures Sorted(Take(ms, k))
    ensures ms == Take(ms, k) + ms[|Take(ms, k)|..]
    ensures multiset(Take(ms, k)) <= multiset(ms)
  {
    var t := Take(ms, k);
    assert ms == t + ms[|t|..];
    assert multiset(ms) == multiset(t) + multiset(ms[|t|..]);
  }

  lemma SurvivorsAllSurvive<P>(ms: seq<Match<P>>, sorted: seq<Match<P>>)
    requires multiset(sorted) == multiset(Survivors(ms))
    requires forall m :: multiset(Survivors(ms))[m] == if Survives(m) then multiset(ms)[m] else 0
    ensures forall i :: 0 <= i < |sorted| ==> Survives(sorted[i])
    ensures multiset(sorted) <= multiset(ms)
  {
    forall i | 0 <= i < |sorted|
      ensures Survives(sorted[i])
    {
      assert sorted[i] in multiset(sorted);
    }
  }

  /** The survivors cut by the limit. */
  function Cut<P>(ms: seq<Match<P>>): seq<Match<P>> {
    var sorted := SortDescending(Survivors(ms));
    sorted[|Take(sorted, Limit)|..]
  }

  lemma {:induction false} TiedAppend<P>(a: seq<Match<P>>, b: seq<Match<P>>, v: real)
    ensures Tied(a + b, v) == Tied(a, v) + Tied(b, v)
  {
    if |a| == 0 {
      assert a + b == b;
    } else {
      assert (a + b)[0] == a[0];
      assert (a + b)[1..] == a[1..] + b;
      TiedAppend(a[1..], b, v);
      var head := if a[0].similarity == v then [a[0]] else [];
      assert Tied(a + b, v) == head + (Tied(a[1..], v) + Tied(b, v));
      assert Tied(a, v) == head + Tied(a[1..], v);
      assert head + (Tied(a[1..], v) + Tied(b, v)) == (head + Tied(a[1..], v)) + Tied(b, v);
    }
  }

  /** `filter` keeps exactly the surviving entries, each as often as it occurs. */
  lemma {:induction false} SurvivorsContents<P>(ms: seq<Match<P>>)
    ensures forall m :: multiset(Survivors(ms))[m] == if Survives(m) then multiset(ms)[m] else 0
  {
    if |ms| > 0 {
      SurvivorsContents(ms[1..]);
      assert ms == [ms[0]] + ms[1..];
    }
  }

  /** `filter` keeps the relative order of equal scores above the threshold and drops
      the rest. */
  lemma {:induction false} SurvivorsTied<P>(ms: seq<Match<P>>, v: real)
    ensures Tied(Survivors(ms), v) == if v > Threshold then Tied(ms, v) else []
  {
    if |ms| > 0 {
      SurvivorsTied(ms[1..], v);
      var head := if Survives(ms[0]) then [ms[0]] else [];
      TiedAppend(head, Survivors(ms[1..]), v);
    }
  }

  /** `Tied` of a list with one entry in front. */
  lemma TiedCons<P>(m: Match<P>, xs: seq<Match<P>>, v: real)
    ensures Tied([m] + xs, v) == (if m.similarity == v then [m] else []) + Tied(xs, v)
  {
    assert ([m] + xs)[1..] == xs;
  }

  /** Insertion moves m only past entries that strictly outscore it, so among equal
      scores it stays first. */
  lemma {:induction false} InsertTied<P>(m: Match<P>, xs: seq<Match<P>>, v: real)
    ensures Tied(Insert(m, xs), v) == Tied([m] + xs, v)
  {
    if |xs| > 0 && m.similarity < xs[0].similarity {
      var x := xs[0];
      var tail := xs[1..];
      assert xs == [x] + tail;
      InsertTied(m, tail, v);
      var hx := if x.similarity == v then [x] else [];
      var hm := if m.similarity == v then [m] else [];
      assert Insert(m, xs) == [x] + Insert(m, tail);
      TiedCons(x, Insert(m, tail), v);
      TiedCons(m, tail, v);
      TiedCons(x, tail, v);
      TiedCons(m, xs, v);
      // x outscores m, so at most one of them has score v
      assert hx + hm == hm + hx;
      assert Tied(Insert(m, xs), v) == hx + (hm + Tied(tail, v));
      assert Tied([m] + xs, v) == hm + (hx + Tied(tail, v));
    }
  }

  /** The sort is stable: equal scores come out in their input order. */
  lemma {:induction false} SortStable<P>(ms: seq<Match<P>>, v: real)
    ensures Tied(SortDescending(ms), v) == Tied(ms, v)
  {
    if |ms| > 0 {
      var rest := SortDescending(ms[1..]);
      SortStable(ms[1..], v);
      InsertTied(ms[0], rest, v);
      TiedCons(ms[0], rest, v);
      TiedCons(ms[0], ms[1..], v);
      assert ms == [ms[0]] + ms[1..];
    }
  }

  lemma {:induction false} TiedPrefix<P>(a: seq<Match<P>>, b: seq<Match<P>>, v: real)
    requires a <= b
    ensures Tied(a, v) <= Tied(b, v)
  {
    assert b == a + b[|a|..];
    TiedAppend(a, b[|a|..], v);
  }

  /** Equal-score matches in the result appear in catalog order, and form a prefix of
      the catalog's entries with that score. */
  lemma RankStable<P>(ms: seq<Match<P>>, v: real)
    ensures Tied(Rank(ms), v) <= Tied(ms, v)
  {
    var sorted := SortDescending(Survivors(ms));
    TiedPrefix(Rank(ms), sorted, v);
    SortStable(Survivors(ms), v);
    SurvivorsTied(ms, v);
  }

  /** The limit cuts only the weakest survivors: the kept matches and the cut ones
      together are exactly the survivors, and no cut match outscores a kept one. */
  lemma RankKeepsBest<P>(ms: seq<Match<P>>)
    ensures multiset(Rank(ms)) + multiset(Cut(ms)) == multiset(Survivors(ms))
    ensures forall i, j :: 0 <= i < |Cut(ms)| && 0 <= j < |Rank(ms)| ==>
              Cut(ms)[i].similarity <= Rank(ms)[j].similarity
  {
    var sorted := SortDescending(Survivors(ms));
    var r := Rank(ms);
    assert sorted == r + Cut(ms);
    forall i, j | 0 <= i < |Cut(ms)| && 0 <= j < |r|
      ensures Cut(ms)[i].similarity <= r[j].similarity
    {
      assert Cut(ms)[i] == sorted[|r| + i] && r[j] == sorted[j];
    }
  }

  /** An entry above the threshold that the result leaves out was cut by the limit:
      three entries were kept, each scoring at least as high. */
  lemma RankKeepsSurvivor<P>(ms: seq<Match<P>>, i: nat)
    requires i < |ms| && Survives(ms[i])
    requires ms[i] !in Rank(ms)
    ensures |Rank(ms)| == Limit
    ensures forall k :: 0 <= k < |Rank(ms)| ==> ms[i].similarity <= Rank(ms)[k].similarity
  {
    var m := ms[i];
    RankKeepsBest(ms);
    SurvivorsContents(ms);
    assert m in multiset(ms);
    assert m in multiset(Survivors(ms));
    assert m !in multiset(Rank(ms));
    assert m in multiset(Cut(ms));
    assert |Rank(ms)| + |Cut(ms)| == |Survivors(ms)| by {
      assert |multiset(Rank(ms)) + multiset(Cut(ms))| == |multiset(Survivors(ms))|;
    }
    assert 0 < |Cut(ms)|;
  }

  /** The result is empty exactly when no entry scores above the threshold. */
  lemma RankEmpty<P>(ms: seq<Match<P>>)
    ensures Rank(ms) == [] <==> forall i :: 0 <= i < |ms| ==> !Survives(ms[i])
  {
    SurvivorsContents(ms);
    if Rank(ms) == [] {
      forall i | 0 <= i < |ms|
        ensures !Survives(ms[i])
      {
        assert multiset(Survivors(ms))[ms[i]] == 0;
        assert ms[i] in multiset(ms);
      }
    } else {
      var m := Rank(ms)[0];
      assert m in multiset(Rank(ms));
      assert m in multiset(ms);
      var i :| 0 <= i < |ms| && ms[i] == m;
    }
  }
}
