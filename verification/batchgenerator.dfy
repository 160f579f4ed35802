/**
 The batch embedding generator: after its two guards it walks the catalog in order,
 asks the face detector for each player's descriptor, skips players without a face
 (a failed image load or detection counts the same), and collects the rest with their
 descriptor attached.
 */
module BatchGenerator {
  import opened Players
  import opened PlayerNames

  /** The face detector applied to a player's image: a descriptor, or None when no
      face was found or the image could not be processed. */
  type Detector = Player -> Option<seq<real>>

  datatype Outcome =
    | NotLoaded
    | Incomplete
    | Generated(output: seq<Player>, totalProcessed: nat)

  /** The entry stored for a player whose face yielded descriptor d. */
  function Embed(p: Player, d: seq<real>): (q: Player)
    ensures q.id == p.id && q.name == p.name && q.team == p.team
    ensures q.descriptor == Some(d)
  {
    Player(p.id, p.name, p.team, ProcessedImageUrl(p.imageUrl), Some(d))
  }

  /** The stored entry's URL is `/images/` followed by the file name of the player's
      URL, so the file name is kept. */
  lemma EmbedImageUrl(p: Player, d: seq<real>)
    ensures Embed(p, d).imageUrl == ImagesPrefix + LastSegment(p.imageUrl)
    ensures LastSegment(Embed(p, d).imageUrl) == LastSegment(p.imageUrl)
  {
    LastSegmentShape(p.imageUrl);
    LastSegmentUnderImages(LastSegment(p.imageUrl));
  }

  /** The entries produced for `players`, in order. */
  function Collect(players: seq<Player>, detect: Detector): (out: seq<Player>)
    ensures |out| <= |players|
  {
    if |players| == 0 then []
    else
      var n := |players| - 1;
      var p := players[n];
      Collect(players[..n], detect) + match detect(p) case None => [] case Some(d) => [Embed(p, d)]
  }

  /** The catalog positions whose player has a face, in increasing order. */
  function Found(players: seq<Player>, detect: Detector): (ix: seq<nat>)
    ensures forall k :: 0 <= k < |ix| ==> ix[k] < |players|
  {
    if |players| == 0 then []
    else
      var n := |players| - 1;
      Found(players[..n], detect) + if detect(players[n]).Some? then [n] else []
  }

  /** Every position `Found` lists holds a player with a face. */
  lemma {:induction false} FoundHasFace(players: seq<Player>, detect: Detector)
    ensures forall k :: 0 <= k < |Found(players, detect)| ==> detect(players[Found(players, detect)[k]]).Some?
  {
    if |players| > 0 {
      var n := |players| - 1;
      var front := players[..n];
      FoundHasFace(front, detect);
      var prefix := Found(front, detect);
      assert forall k :: 0 <= k < |prefix| ==> front[prefix[k]] == players[prefix[k]];
    }
  }

  /** `Found` lists exactly the positions of players with a face, each once, in
      increasing order. */
  lemma {:induction false} FoundPositions(players: seq<Player>, detect: Detector)
    ensures forall k :: 0 <= k < |Found(players, detect)| ==> detect(players[Found(players, detect)[k]]).Some?
    ensures forall k, l :: 0 <= k < l < |Found(players, detect)| ==> Found(players, detect)[k] < Found(players, detect)[l]
    ensures forall i :: 0 <= i < |players| && detect(players[i]).Some? ==> i in Found(players, detect)
  {
    FoundHasFace(players, detect);
    if |players| > 0 {
      var n := |players| - 1;
      var front := players[..n];
      FoundPositions(front, detect);
      assert forall i :: 0 <= i < n ==> front[i] == players[i];
    }
  }

  /** One entry per player with a face. */
  lemma {:induction false} CollectLength(players: seq<Player>, detect: Detector)
    ensures |Collect(players, detect)| == |Found(players, detect)|
  {
    if |players| > 0 {
      CollectLength(players[..|players| - 1], detect);
    }
  }

  /** The k-th entry is the k-th player with a face, with that face's descriptor. */
  lemma {:induction false} CollectFoundAt(players: seq<Player>, detect: Detector, k: nat)
    requires k < |Found(players, detect)|
    ensures detect(players[Found(players, detect)[k]]).Some?
    ensures k < |Collect(players, detect)|
    ensures Collect(players, detect)[k]
            == Embed(players[Found(players, detect)[k]], detect(players[Found(players, detect)[k]]).value)
  {
    var n := |players| - 1;
    var front := players[..n];
    var ix := Found(front, detect);
    CollectLength(players, detect);
    CollectLength(front, detect);
    var out := Collect(players, detect);
    assert out[..|ix|] == Collect(front, detect);
    if k < |ix| {
      CollectFoundAt(front, detect, k);
      assert Found(players, detect)[k] == ix[k];
      assert front[ix[k]] == players[ix[k]];
      assert out[k] == out[..|ix|][k];
    } else {
      assert Found(players, detect)[k] == n;
    }
  }

  /** The output skips exactly the players without a face and keeps catalog order:
      its k-th entry is the k-th player with a face, with that face's descriptor. */
  lemma CollectFound(players: seq<Player>, detect: Detector)
    ensures |Collect(players, detect)| == |Found(players, detect)|
    ensures forall k :: 0 <= k < |Found(players, detect)| ==> detect(players[Found(players, detect)[k]]).Some?
    ensures forall k :: 0 <= k < |Found(players, detect)| ==>
              var p := players[Found(players, detect)[k]];
              Collect(players, detect)[k] == Embed(p, detect(p).value)
  {
    CollectLength(players, detect);
    forall k | 0 <= k < |Found(players, detect)|
      ensures detect(players[Found(players, detect)[k]]).Some?
      ensures Collect(players, detect)[k]
              == Embed(players[Found(players, detect)[k]], detect(players[Found(players, detect)[k]]).value)
    {
      CollectFoundAt(players, detect, k);
    }
  }

  /** A first player with a face gives the first entry. */
  lemma {:induction false} CollectFirst(players: seq<Player>, detect: Detector)
    requires 0 < |players| && detect(players[0]).Some?
    ensures 0 < |Collect(players, detect)|
    ensures Collect(players, detect)[0] == Embed(players[0], detect(players[0]).value)
  {
    var n := |players| - 1;
    if n > 0 {
      var front := players[..n];
      CollectFirst(front, detect);
      assert Collect(players, detect)[0] == Collect(front, detect)[0];
    }
  }

  /** With no face anywhere the output is empty. */
  lemma CollectNoFaces(players: seq<Player>, detect: Detector)
    requires forall i :: 0 <= i < |players| ==> detect(players[i]).None?
    ensures Collect(players, detect) == []
  {
    CollectFound(players, detect);
  }

  /** One more player extends the output by at most that player's entry. */
  lemma CollectStep(players: seq<Player>, i: nat, detect: Detector)
    requires i < |players|
    ensures Collect(players[..i + 1], detect)
            == Collect(players[..i], detect)
               + match detect(players[i]) case None => [] case Some(d) => [Embed(players[i], d)]
  {
    assert players[..i + 1][..i] == players[..i];
  }

  /** `generateEmbeddings`. The status messages and the JSON download are left out;
      the downloaded list is `output`. */
  method GenerateEmbeddings(status: ModelLoadingStatus, players: seq<Player>, detect: Detector)
    returns (outcome: Outcome)
    ensures status != Loaded ==> outcome == NotLoaded
    ensures status == Loaded && FindIncomplete(players).Some? ==> outcome == Incomplete
    ensures status == Loaded && FindIncomplete(players).None? ==>
              && outcome.Generated?
              && outcome.output == Collect(players, detect)
              && outcome.totalProcessed == |outcome.output| <= |players|
  {
    if status != Loaded {
      return NotLoaded;
    }
    if FindIncomplete(players).Some? {
      return Incomplete;
    }
    var processed: seq<Player> := [];
    var totalProcessed: nat := 0;
    var i := 0;
    assert players[..0] == [];
    while i < |players|
      invariant 0 <= i <= |players|
      invariant processed == Collect(players[..i], detect)
      invariant totalProcessed == |processed|
    {
      var player := players[i];
      var faceData := detect(player);
      CollectStep(players, i, detect);
      if faceData.Some? {
        processed := processed + [Embed(player, faceData.value)];
        totalProcessed := totalProcessed + 1;
      }
      i := i + 1;
    }
    assert players[..i] == players;
    return Generated(processed, totalProcessed);
  }
}
