/**
 * The client's neighbour lookup used before passing an ingredient: from the
 * room state the client last received and its own socket id, which players
 * sit to its left and right. In a two-player room the other player is on both
 * sides; otherwise a neighbour is recognised by the calibration ingredient it
 * announced, matched against the markers the caller recorded for each side.
 */
module IngredientSharing {
  import opened Wrappers

  /**
   * A player as the client sees it. The calibration fields are absent until a
   * calibration sets them; an absent marker is JavaScript's `undefined`, and
   * two absent markers compare equal, as `undefined === undefined` does.
   */
  datatype ClientPlayer = ClientPlayer(
    id: string,
    calibrationIngredient: Option<string>,
    leftIngredient: Option<string>,
    rightIngredient: Option<string>)

  datatype ClientRoom = ClientRoom(players: seq<ClientPlayer>)

  /** What `getPlayerNeighbors()` returns; `isTwoPlayer` is missing on the early returns. */
  datatype ClientNeighbors = ClientNeighbors(
    left: Option<ClientPlayer>, right: Option<ClientPlayer>, isTwoPlayer: Option<bool>)

  const NoNeighbors := ClientNeighbors(None, None, None)

  /** The three tests the lookup hands to `players.find`. */
  datatype Test = IdIs(id: string) | IdIsNot(id: string) | CalibratedAs(marker: Option<string>)

  predicate Passes(p: ClientPlayer, t: Test)
  {
    match t
    case IdIs(id) => p.id == id
    case IdIsNot(id) => p.id != id
    case CalibratedAs(m) => p.calibrationIngredient == m
  }

  /** `players.find(t)`: the first player passing `t`, if any. */
  function Find(ps: seq<ClientPlayer>, t: Test): (r: Option<ClientPlayer>)
    ensures r.None? <==> forall i :: 0 <= i < |ps| ==> !Passes(ps[i], t)
    ensures r.Some? ==> exists i :: 0 <= i < |ps| && ps[i] == r.value && Passes(r.value, t)
                          && forall j :: 0 <= j < i ==> !Passes(ps[j], t)
  {
    if |ps| == 0 then None
    else if Passes(ps[0], t) then Some(ps[0])
    else
      var r := Find(ps[1..], t);
      assert forall i :: 1 <= i < |ps| ==> ps[1..][i - 1] == ps[i];
      if r.Some? then
        var i :| 0 <= i < |ps[1..]| && ps[1..][i] == r.value && Passes(r.value, t)
                 && forall j :: 0 <= j < i ==> !Passes(ps[1..][j], t);
        assert ps[i + 1] == r.value && forall j :: 0 <= j < i + 1 ==> !Passes(ps[j], t);
        r
      else r
  }

  /** The caller's marker for one side: `'left'` selects the left one, any other direction the right. */
  function Marker(p: ClientPlayer, direction: string): Option<string>
  {
    if direction == "left" then p.leftIngredient else p.rightIngredient
  }

  /** `getPlayerNeighbors()` for the room and player id the game context holds. */
  function Neighbors(room: Option<ClientRoom>, playerId: Option<string>): ClientNeighbors
  {
    if room.None? || playerId.None? || playerId.value == "" then NoNeighbors
    else
      var ps := room.value.players;
      var me := Find(ps, IdIs(playerId.value));
      if me.None? then NoNeighbors
      else if |ps| == 2 then
        var other := Find(ps, IdIsNot(playerId.value));
        ClientNeighbors(other, other, Some(true))
      else
        ClientNeighbors(
          Find(ps, CalibratedAs(me.value.leftIngredient)),
          Find(ps, CalibratedAs(me.value.rightIngredient)),
          Some(false))
  }

  /** `canShareWith(direction)`: whether there is a neighbour on that side. */
  function CanShareWith(room: Option<ClientRoom>, playerId: Option<string>, direction: string): bool
  {
    var n := Neighbors(room, playerId);
    if direction == "left" then n.left.Some? else n.right.Some?
  }

  /** The caller's own record: the first player carrying its id. */
  function Me(ps: seq<ClientPlayer>, id: string): Option<ClientPlayer>
  {
    Find(ps, IdIs(id))
  }

  /** A caller the client cannot place, with no room, no id or no seat in the room, has no neighbours. */
  lemma UnplacedHasNoNeighbors(room: Option<ClientRoom>, playerId: Option<string>)
    ensures (|| room.None? || playerId.None? || playerId.value == ""
             || forall i :: 0 <= i < |room.value.players| ==> room.value.players[i].id != playerId.value)
            <==> Neighbors(room, playerId) == NoNeighbors
  {
  }

  /**
   * In a room of exactly two where the caller is seated, both sides are the
   * first player whose id differs from the caller's; with distinct ids that
   * is the other seat, so both directions can be shared with.
   */
  lemma TwoPlayerNeighbors(room: Option<ClientRoom>, playerId: Option<string>, me: nat)
    requires room.Some? && playerId.Some? && playerId.value != ""
    requires |room.value.players| == 2 && me < 2 && room.value.players[me].id == playerId.value
    ensures Neighbors(room, playerId).isTwoPlayer == Some(true)
    ensures Neighbors(room, playerId).left == Neighbors(room, playerId).right
    ensures room.value.players[0].id != room.value.players[1].id ==>
      && Neighbors(room, playerId).left == Some(room.value.players[1 - me])
      && CanShareWith(room, playerId, "left") && CanShareWith(room, playerId, "right")
  {
    var ps := room.value.players;
    if ps[0].id != ps[1].id {
      var other := Find(ps, IdIsNot(playerId.value));
      assert other.Some? by {
        assert ps[1 - me].id != playerId.value;
      }
    }
  }

  /**
   * In any other room where the caller is seated, a side holds the first
   * player whose calibration ingredient equals the caller's marker for that
   * side, and is empty exactly when no player carries that ingredient.
   */
  lemma CalibratedNeighbors(room: Option<ClientRoom>, playerId: Option<string>, direction: string)
    requires room.Some? && playerId.Some? && playerId.value != ""
    requires |room.value.players| != 2 && Me(room.value.players, playerId.value).Some?
    ensures var ps, mark := room.value.players, Marker(Me(room.value.players, playerId.value).value, direction);
      && Neighbors(room, playerId).isTwoPlayer == Some(false)
      && (CanShareWith(room, playerId, direction) <==> exists i :: 0 <= i < |ps| && ps[i].calibrationIngredient == mark)
      && var side := if direction == "left" then Neighbors(room, playerId).left else Neighbors(room, playerId).right;
         side.Some? ==> exists i :: 0 <= i < |ps| && ps[i] == side.value && ps[i].calibrationIngredient == mark
                          && forall j :: 0 <= j < i ==> ps[j].calibrationIngredient != mark
  {
  }

  /** Whatever the room, a neighbour the lookup returns is one of the room's players. */
  lemma NeighborsAreSeated(room: Option<ClientRoom>, playerId: Option<string>)
    ensures Neighbors(room, playerId).left.Some? ==> room.Some? && Neighbors(room, playerId).left.value in room.value.players
    ensures Neighbors(room, playerId).right.Some? ==> room.Some? && Neighbors(room, playerId).right.value in room.value.players
  {
  }
}
