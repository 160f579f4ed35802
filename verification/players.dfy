/**
 The catalog entry `KBOPlayer`, the per-field edit both embedding generators offer,
 and the completeness guard they run before generating.
 */
module Players {

  datatype Option<T> = None | Some(value: T)

  /** The model-loading state machine of the generators. */
  datatype ModelLoadingStatus = Idle | Loading | Loaded | Error

  /** A catalog player. The descriptor is absent until an embedding is generated. */
  datatype Player = Player(id: string, name: string, team: string, imageUrl: string,
                           descriptor: Option<seq<real>>)

  /** The string-valued fields the edit form can set. */
  datatype Field = Id | Name | Team | ImageUrl

  function FieldOf(p: Player, f: Field): string {
    match f
    case Id => p.id
    case Name => p.name
    case Team => p.team
    case ImageUrl => p.imageUrl
  }

  /** `{ ...p, [f]: value }` */
  function WithField(p: Player, f: Field, value: string): (q: Player)
    ensures FieldOf(q, f) == value
    ensures forall g :: g != f ==> FieldOf(q, g) == FieldOf(p, g)
    ensures q.descriptor == p.descriptor
  {
    match f
    case Id => p.(id := value)
    case Name => p.(name := value)
    case Team => p.(team := value)
    case ImageUrl => p.(imageUrl := value)
  }

  /** `handlePlayerInfoUpdate`: a copy of the list whose entry `index` has field f set
      to value. */
  function UpdatePlayerInfo(players: seq<Player>, index: nat, f: Field, value: string): (r: seq<Player>)
    requires index < |players|
    ensures |r| == |players|
    ensures FieldOf(r[index], f) == value
    ensures forall g :: g != f ==> FieldOf(r[index], g) == FieldOf(players[index], g)
    ensures r[index].descriptor == players[index].descriptor
    ensures forall i :: 0 <= i < |r| && i != index ==> r[i] == players[i]
  {
    players[index := WithField(players[index], f, value)]
  }

  /** Two players with the same fields and descriptor are the same player. */
  lemma PlayerExtensionality(p: Player, q: Player)
    requires forall f :: FieldOf(p, f) == FieldOf(q, f)
    requires p.descriptor == q.descriptor
    ensures p == q
  {
    assert FieldOf(p, Id) == FieldOf(q, Id);
    assert FieldOf(p, Name) == FieldOf(q, Name);
    assert FieldOf(p, Team) == FieldOf(q, Team);
    assert FieldOf(p, ImageUrl) == FieldOf(q, ImageUrl);
  }

  /** Writing a field's current value changes nothing. */
  lemma UpdateWithCurrentValue(players: seq<Player>, index: nat, f: Field)
    requires index < |players|
    ensures UpdatePlayerInfo(players, index, f, FieldOf(players[index], f)) == players
  {
    var r := UpdatePlayerInfo(players, index, f, FieldOf(players[index], f));
    PlayerExtensionality(r[index], players[index]);
  }

  /** Of two writes to the same field, the later one wins. */
  lemma UpdateTwice(players: seq<Player>, index: nat, f: Field, first: string, second: string)
    requires index < |players|
    ensures UpdatePlayerInfo(UpdatePlayerInfo(players, index, f, first), index, f, second)
            == UpdatePlayerInfo(players, index, f, second)
  {
    var a := UpdatePlayerInfo(UpdatePlayerInfo(players, index, f, first), index, f, second);
    var b := UpdatePlayerInfo(players, index, f, second);
    PlayerExtensionality(a[index], b[index]);
  }

  /** Writes to different fields commute. */
  lemma UpdateCommutes(players: seq<Player>, index: nat, f: Field, g: Field, x: string, y: string)
    requires index < |players| && f != g
    ensures UpdatePlayerInfo(UpdatePlayerInfo(players, index, f, x), index, g, y)
            == UpdatePlayerInfo(UpdatePlayerInfo(players, index, g, y), index, f, x)
  {
    var a := UpdatePlayerInfo(UpdatePlayerInfo(players, index, f, x), index, g, y);
    var b := UpdatePlayerInfo(UpdatePlayerInfo(players, index, g, y), index, f, x);
    PlayerExtensionality(a[index], b[index]);
  }

  /** Name and team are both filled in. */
  predicate IsComplete(p: Player) {
    p.name != "" && p.team != ""
  }

  /** `players.find(p => !p.name || !p.team)`, as the index of the first incomplete
      player. */
  function FindIncomplete(players: seq<Player>): (r: Option<nat>)
    ensures r.None? <==> forall i :: 0 <= i < |players| ==> IsComplete(players[i])
    ensures r.Some? ==> r.value < |players| && !IsComplete(players[r.value])
                        && forall i :: 0 <= i < r.value ==> IsComplete(players[i])
  {
    if |players| == 0 then None
    else if !IsComplete(players[0]) then Some(0)
    else
      match FindIncomplete(players[1..])
      case None => None
      case Some(i) => Some(i + 1)
  }
}
