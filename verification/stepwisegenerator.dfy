/**
 The step-by-step embedding generator. A session keeps the index of the last player
 processed (-1 before the first), the entries collected so far and a completion flag;
 each call of `processNextPlayer` processes the following player. The component shows
 only a "generate" button: `generateEmbeddings` calls `processNextPlayer` once and
 then runs the whole catalog in one go.
 */
module StepwiseGenerator {
  import opened Players
  import opened BatchGenerator

  /** The component state the two operations read and write. */
  datatype Session = Session(
    status: ModelLoadingStatus,
    players: seq<Player>,
    currentIndex: int,
    processed: seq<Player>,
    complete: bool)

  /** The session a freshly loaded catalog starts in. */
  function Fresh(players: seq<Player>): Session {
    Session(Loaded, players, -1, [], false)
  }

  /** Both guards pass: the model is loaded and every player has a name and a team. */
  predicate Ready(s: Session) {
    s.status == Loaded && FindIncomplete(s.players).None?
  }

  /** `processNextPlayer`. */
  function ProcessNextPlayer(s: Session, detect: Detector): (t: Session)
    requires -1 <= s.currentIndex
    ensures t.status == s.status && t.players == s.players
    ensures -1 <= t.currentIndex
    ensures !Ready(s) ==> t == s
    ensures Ready(s) && s.currentIndex >= |s.players| - 1 ==> t == s.(complete := true)
    ensures Ready(s) && s.currentIndex < |s.players| - 1 ==>
              && t.currentIndex == s.currentIndex + 1
              && t.complete == s.complete
              && s.processed <= t.processed
              && |t.processed| <= |s.processed| + 1
  {
    if !Ready(s) then s
    else if s.currentIndex >= |s.players| - 1 then s.(complete := true)
    else
      var next := s.currentIndex + 1;
      var player := s.players[next];
      match detect(player)
      case None => s.(currentIndex := next)
      case Some(descriptor) =>
        s.(currentIndex := next, processed := s.processed + [Embed(player, descriptor)])
  }

  /** k calls of `processNextPlayer`. */
  function Steps(s: Session, detect: Detector, k: nat): (t: Session)
    requires -1 <= s.currentIndex
    ensures -1 <= t.currentIndex
    ensures t.players == s.players && t.status == s.status
    decreases k
  {
    if k == 0 then s else Steps(ProcessNextPlayer(s, detect), detect, k - 1)
  }

  /** While a guard fails, calling `processNextPlayer` changes nothing. */
  lemma {:induction false} StepsBlocked(s: Session, detect: Detector, k: nat)
    requires -1 <= s.currentIndex && !Ready(s)
    ensures Steps(s, detect, k) == s
    decreases k
  {
    if k > 0 {
      StepsBlocked(ProcessNextPlayer(s, detect), detect, k - 1);
    }
  }

  /** From a fresh session, k calls visit players 0 .. k-1 in order and collect
      exactly what the batch generator collects from them. */
  lemma {:induction false} StepsVisitInOrder(players: seq<Player>, detect: Detector, k: nat)
    requires FindIncomplete(players).None?
    requires k <= |players|
    ensures Steps(Fresh(players), detect, k)
            == Session(Loaded, players, k - 1, Collect(players[..k], detect), false)
  {
    if k > 0 {
      StepsVisitInOrder(players, detect, k - 1);
      StepsSplit(Fresh(players), detect, k - 1);
      StepAt(players, detect, k - 1);
    }
  }

  /** With players 0 .. i-1 visited, one call visits player i. */
  lemma StepAt(players: seq<Player>, detect: Detector, i: nat)
    requires FindIncomplete(players).None?
    requires i < |players|
    ensures ProcessNextPlayer(Session(Loaded, players, i - 1, Collect(players[..i], detect), false), detect)
            == Session(Loaded, players, i, Collect(players[..i + 1], detect), false)
  {
    CollectStep(players, i, detect);
  }

  /** k + 1 calls are k calls followed by one more. */
  lemma {:induction false} StepsSplit(s: Session, detect: Detector, k: nat)
    requires -1 <= s.currentIndex
    ensures Steps(s, detect, k + 1) == ProcessNextPlayer(Steps(s, detect, k), detect)
    decreases k
  {
    if k > 0 {
      StepsSplit(ProcessNextPlayer(s, detect), detect, k - 1);
    }
  }

  /** One call past the last player marks the run complete without advancing, and
      the session then stays put. */
  lemma StepsComplete(players: seq<Player>, detect: Detector)
    requires FindIncomplete(players).None?
    ensures Steps(Fresh(players), detect, |players| + 1)
            == Session(Loaded, players, |players| - 1, Collect(players, detect), true)
    ensures ProcessNextPlayer(Steps(Fresh(players), detect, |players| + 1), detect)
            == Steps(Fresh(players), detect, |players| + 1)
  {
    StepsVisitInOrder(players, detect, |players|);
    StepsSplit(Fresh(players), detect, |players|);
    assert players[..|players|] == players;
  }

  /** `generateEmbeddings` as written. After the guards it resets the collected list in
      component state and runs one `processNextPlayer` (which still sees the index of
      the render it was created in), then loops over the whole catalog pushing into
      the collected list of that same render, which still holds whatever earlier calls
      of `processNextPlayer` left in state (the entry that the previous
      `generateEmbeddings` run's own call added, in particular). The download is built
      from that list; the index ends at -1. */
  function GenerateAsWritten(s: Session, detect: Detector): (r: (Outcome, Session))
    requires -1 <= s.currentIndex
    ensures r.1.status == s.status && r.1.players == s.players
    ensures !Ready(s) ==> r.1 == s
    ensures s.status != Loaded ==> r.0 == NotLoaded
    ensures s.status == Loaded && FindIncomplete(s.players).Some? ==> r.0 == Incomplete
    ensures Ready(s) ==>
              && r.0.Generated?
              && r.0.output == s.processed + Collect(s.players, detect)
              && r.0.totalProcessed == |Collect(s.players, detect)|
              && r.1.currentIndex == -1
  {
    if s.status != Loaded then (NotLoaded, s)
    else if FindIncomplete(s.players).Some? then (Incomplete, s)
    else
      var stale := s.processed;
      var stepped := ProcessNextPlayer(s.(processed := [], complete := false), detect);
      var collected := Collect(s.players, detect);
      (Generated(stale + collected, |collected|), stepped.(currentIndex := -1))
  }

  /** From the session left by k calls of `processNextPlayer`, generating as written
      lists each player found in those k steps twice, and the downloaded list is longer
      than the count the completion message reports. */
  lemma GenerateAsWrittenDuplicates(players: seq<Player>, detect: Detector, k: nat)
    requires FindIncomplete(players).None?
    requires k <= |players|
    ensures var s := Steps(Fresh(players), detect, k);
            var out := GenerateAsWritten(s, detect).0;
            && out.output == Collect(players[..k], detect) + Collect(players, detect)
            && |out.output| == out.totalProcessed + |Collect(players[..k], detect)|
  {
    StepsVisitInOrder(players, detect, k);
  }

  /** On a fresh catalog whose first player has a face, one call of
      `processNextPlayer` moves to that player and keeps its entry. */
  lemma FirstStep(players: seq<Player>, detect: Detector)
    requires FindIncomplete(players).None?
    requires 0 < |players| && detect(players[0]).Some?
    ensures ProcessNextPlayer(Fresh(players), detect)
            == Session(Loaded, players, 0, [Embed(players[0], detect(players[0]).value)], false)
  {
    assert Ready(Fresh(players));
    assert [] + [Embed(players[0], detect(players[0]).value)] == [Embed(players[0], detect(players[0]).value)];
  }

  /** A first "generate" on a fresh catalog whose first player has a face downloads
      the catalog's entries, and its own `processNextPlayer` call leaves that first
      player's entry in state. */
  lemma GenerateOnceKeepsFirstEntry(players: seq<Player>, detect: Detector)
    requires FindIncomplete(players).None?
    requires 0 < |players| && detect(players[0]).Some?
    ensures var e := Embed(players[0], detect(players[0]).value);
            var all := Collect(players, detect);
            GenerateAsWritten(Fresh(players), detect)
            == (Generated(all, |all|), Session(Loaded, players, -1, [e], false))
  {
    var start := Fresh(players);
    assert start.(processed := [], complete := false) == start;
    FirstStep(players, detect);
    assert [] + Collect(players, detect) == Collect(players, detect);
  }

  /** Pressing "generate" twice. The first run leaves the first player's entry e in
      state; the second run pushes the whole catalog after it, so its download starts
      with e twice and has one more entry than the count it reports. */
  lemma GenerateTwiceDuplicates(players: seq<Player>, detect: Detector)
    requires FindIncomplete(players).None?
    requires 0 < |players| && detect(players[0]).Some?
    ensures var e := Embed(players[0], detect(players[0]).value);
            var left := Session(Loaded, players, -1, [e], false);
            var all := Collect(players, detect);
            && GenerateAsWritten(Fresh(players), detect).1 == left
            && GenerateAsWritten(left, detect).0 == Generated([e] + all, |all|)
            && 0 < |all| && all[0] == e
  {
    GenerateOnceKeepsFirstEntry(players, detect);
    CollectFirst(players, detect);
    assert Ready(Session(Loaded, players, -1, [Embed(players[0], detect(players[0]).value)], false));
  }

  /** Two players, both with a face, give two entries in catalog order. */
  lemma CollectTwo(players: seq<Player>, detect: Detector)
    requires |players| == 2 && detect(players[0]).Some? && detect(players[1]).Some?
    ensures Collect(players, detect)
            == [Embed(players[0], detect(players[0]).value), Embed(players[1], detect(players[1]).value)]
  {
    var front := players[..1];
    assert front[0] == players[0];
    CollectFirst(front, detect);
    var head := Collect(front, detect);
    assert head == [Embed(players[0], detect(players[0]).value)];
    assert Collect(players, detect) == head + [Embed(players[1], detect(players[1]).value)];
  }

  /** A concrete run: two players with faces, "generate" pressed twice. The second
      download holds the first player twice: three entries for a count of two. */
  lemma GenerateTwiceExample()
    ensures var p := Player("1", "Kim", "Lions", "/images/Kim.jpg", None);
            var q := Player("2", "Lee", "Bears", "/images/Lee.jpg", None);
            var detect: Detector := _ => Some([1.0]);
            var left := Session(Loaded, [p, q], -1, [Embed(p, [1.0])], false);
            && GenerateAsWritten(Fresh([p, q]), detect).1 == left
            && GenerateAsWritten(left, detect).0
               == Generated([Embed(p, [1.0]), Embed(p, [1.0]), Embed(q, [1.0])], 2)
  {
    var p := Player("1", "Kim", "Lions", "/images/Kim.jpg", None);
    var q := Player("2", "Lee", "Bears", "/images/Lee.jpg", None);
    var detect: Detector := _ => Some([1.0]);
    assert FindIncomplete([p, q]).None?;
    GenerateTwiceDuplicates([p, q], detect);
    CollectTwo([p, q], detect);
  }

  /** `generateEmbeddings` as evidently intended: the same guards and session effect,
      but the download holds each player with a face exactly once, as the batch
      generator's does. */
  function Generate(s: Session, detect: Detector): (r: (Outcome, Session))
    requires -1 <= s.currentIndex
    ensures r.1.status == s.status && r.1.players == s.players
    ensures !Ready(s) ==> r.1 == s
    ensures s.status != Loaded ==> r.0 == NotLoaded
    ensures s.status == Loaded && FindIncomplete(s.players).Some? ==> r.0 == Incomplete
    ensures Ready(s) ==>
              && r.0.Generated?
              && r.0.output == Collect(s.players, detect)
              && r.0.totalProcessed == |r.0.output| <= |s.players|
              && r.1.currentIndex == -1
  {
    if s.status != Loaded then (NotLoaded, s)
    else if FindIncomplete(s.players).Some? then (Incomplete, s)
    else
      var stepped := ProcessNextPlayer(s.(processed := [], complete := false), detect);
      var collected := Collect(s.players, detect);
      (Generated(collected, |collected|), stepped.(currentIndex := -1))
  }

  /** However many calls of `processNextPlayer` came before, the corrected download
      does not depend on them. */
  lemma GenerateIgnoresEarlierSteps(players: seq<Player>, detect: Detector, k: nat)
    requires FindIncomplete(players).None?
    ensures Generate(Steps(Fresh(players), detect, k), detect).0
            == Generate(Fresh(players), detect).0
  {
  }
}
