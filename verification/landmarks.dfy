/**
 MediaPipe face-mesh landmarks and the descriptor built from them: the coordinates of
 landmark i occupy slots 3i, 3i + 1 and 3i + 2, in the order x, y, z.
 */
module Landmarks {

  datatype Landmark = Landmark(x: real, y: real, z: real)

  /** Coordinate `axis` of a landmark: 0 is x, 1 is y, 2 is z. */
  function Coordinate(l: Landmark, axis: nat): real
    requires axis < 3
  {
    if axis == 0 then l.x else if axis == 1 then l.y else l.z
  }

  /** The interleaved descriptor of a landmark list. */
  function Flatten(ls: seq<Landmark>): (r: seq<real>)
    ensures |r| == 3 * |ls|
    ensures forall k :: 0 <= k < |r| ==> r[k] == Coordinate(ls[k / 3], k % 3)
  {
    if |ls| == 0 then []
    else
      var n := |ls| - 1;
      var prefix := Flatten(ls[..n]);
      var r := prefix + [ls[n].x, ls[n].y, ls[n].z];
      assert forall k :: 0 <= k < 3 * n ==> r[k] == prefix[k] && ls[..n][k / 3] == ls[k / 3];
      r
  }

  /** The landmark list a descriptor of length 3n encodes. */
  function Unflatten(v: seq<real>): (ls: seq<Landmark>)
    requires |v| % 3 == 0
    ensures 3 * |ls| == |v|
    ensures forall i :: 0 <= i < |ls| ==> ls[i] == Landmark(v[3 * i], v[3 * i + 1], v[3 * i + 2])
  {
    seq(|v| / 3, i requires 0 <= i < |v| / 3 => Landmark(v[3 * i], v[3 * i + 1], v[3 * i + 2]))
  }

  /** Each landmark i can be read back from slots 3i .. 3i + 2. */
  lemma FlattenLayout(ls: seq<Landmark>, i: nat)
    requires i < |ls|
    ensures 3 * i + 2 < |Flatten(ls)|
    ensures Flatten(ls)[3 * i] == ls[i].x
    ensures Flatten(ls)[3 * i + 1] == ls[i].y
    ensures Flatten(ls)[3 * i + 2] == ls[i].z
  {
    var r := Flatten(ls);
    assert r[3 * i] == Coordinate(ls[(3 * i) / 3], (3 * i) % 3);
    assert r[3 * i + 1] == Coordinate(ls[(3 * i + 1) / 3], (3 * i + 1) % 3);
    assert r[3 * i + 2] == Coordinate(ls[(3 * i + 2) / 3], (3 * i + 2) % 3);
  }

  lemma {:induction false} UnflattenFlatten(ls: seq<Landmark>)
    ensures Unflatten(Flatten(ls)) == ls
  {
    var v := Flatten(ls);
    var r := Unflatten(v);
    forall i | 0 <= i < |ls|
      ensures r[i] == ls[i]
    {
      FlattenLayout(ls, i);
      assert r[i] == Landmark(v[3 * i], v[3 * i + 1], v[3 * i + 2]);
    }
    assert |r| == |ls|;
  }

  lemma {:induction false} FlattenUnflatten(v: seq<real>)
    requires |v| % 3 == 0
    ensures Flatten(Unflatten(v)) == v
  {
    var ls := Unflatten(v);
    var r := Flatten(ls);
    forall k | 0 <= k < |v|
      ensures r[k] == v[k]
    {
      var i := k / 3;
      assert ls[i] == Landmark(v[3 * i], v[3 * i + 1], v[3 * i + 2]);
    }
  }

  /** The descriptor loop: a zero-filled array of length 3n is written landmark by
      landmark. */
  method Describe(landmarks: seq<Landmark>) returns (descriptor: seq<real>)
    ensures |descriptor| == 3 * |landmarks|
    ensures forall i :: 0 <= i < |landmarks| ==>
              descriptor[3 * i] == landmarks[i].x
              && descriptor[3 * i + 1] == landmarks[i].y
              && descriptor[3 * i + 2] == landmarks[i].z
    ensures Unflatten(descriptor) == landmarks
  {
    descriptor := seq(3 * |landmarks|, _ => 0.0);
    var i := 0;
    while i < |landmarks|
      invariant 0 <= i <= |landmarks|
      invariant |descriptor| == 3 * |landmarks|
      invariant forall j :: 0 <= j < i ==>
                  descriptor[3 * j] == landmarks[j].x
                  && descriptor[3 * j + 1] == landmarks[j].y
                  && descriptor[3 * j + 2] == landmarks[j].z
    {
      var l := landmarks[i];
      descriptor := descriptor[3 * i := l.x][3 * i + 1 := l.y][3 * i + 2 := l.z];
      i := i + 1;
    }
  }
}
