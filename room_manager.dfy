/**
 * `RoomManager`: the table from room code to room, and the lobby operations
 * on it. The table is a `map` field the operations reassign; each room is a
 * `GameModel.Room` object whose fields they update in place.
 */
module RoomStore {
  import opened Wrappers
  import opened JsMath
  import Lists
  import opened GameModel

  /** The characters a room code is drawn from: no `0`, `O`, `1` or `I`. */
  const CodeAlphabet: string := "ABCDEFGHJKLMNPQRSTUVWXYZ23456789"

  const CodeLength: nat := 4

  /** A room refuses a join once it seats this many players. */
  const MaxPlayers: nat := 8

  /** The four `Math.random()` draws one pass of the code loop consumes. */
  predicate CodeDraws(d: seq<real>)
  {
    |d| == CodeLength && forall i :: 0 <= i < |d| ==> IsRandomDraw(d[i])
  }

  /** The code one pass of the code loop spells from its draws. */
  function CodeFrom(d: seq<real>): string
    requires CodeDraws(d)
  {
    seq(CodeLength, i requires 0 <= i < CodeLength => CodeAlphabet[ScaledIndex(d[i], |CodeAlphabet|)])
  }

  /** Every code is four characters from the alphabet, so never contains `0`, `O`, `1` or `I`. */
  lemma CodeShape(d: seq<real>)
    requires CodeDraws(d)
    ensures |CodeFrom(d)| == CodeLength
    ensures forall i :: 0 <= i < |CodeFrom(d)| ==> CodeFrom(d)[i] in CodeAlphabet
    ensures forall i :: 0 <= i < |CodeFrom(d)| ==> CodeFrom(d)[i] !in "0O1I"
  {
    forall i | 0 <= i < |CodeFrom(d)|
      ensures CodeFrom(d)[i] in CodeAlphabet && CodeFrom(d)[i] !in "0O1I"
    {
      var k := ScaledIndex(d[i], |CodeAlphabet|);
      assert CodeFrom(d)[i] == CodeAlphabet[k];
      assert forall j :: 0 <= j < |CodeAlphabet| ==> CodeAlphabet[j] !in "0O1I";
    }
  }

  /**
   * The seats after `joinRoom` lets `id` in: a seated id is only marked
   * connected again; a new id is appended at the next position, connected,
   * not ready and with an empty inventory.
   */
  function JoinedSeats(ps: seq<Player>, id: string, name: string): (qs: seq<Player>)
    ensures |qs| == |ps| + (if HasPlayer(ps, id) then 0 else 1)
    ensures HasPlayer(ps, id) ==>
      && SameSeats(ps, qs)
      && (forall i :: 0 <= i < |ps| ==> qs[i] == ps[i].(connected := qs[i].connected))
      && (forall i :: 0 <= i < |ps| && i != FindPlayer(ps, id) ==> qs[i] == ps[i])
      && qs[FindPlayer(ps, id)].connected
    ensures !HasPlayer(ps, id) ==>
      && qs[..|ps|] == ps
      && qs[|ps|].id == id && qs[|ps|].position == |ps|
      && qs[|ps|].connected && !qs[|ps|].ready && qs[|ps|].inventory == []
  {
    var i := FindPlayer(ps, id);
    if i >= 0 then ps[i := ps[i].(connected := true)]
    else ps + [Player(id, name, |ps|, [], true, false)]
  }

  /** After a join the player is seated, nobody else is added, and seating stays valid. */
  lemma JoinedSeatsSeating(ps: seq<Player>, id: string, name: string)
    ensures forall x :: HasPlayer(JoinedSeats(ps, id, name), x) <==> HasPlayer(ps, x) || x == id
    ensures Seated(ps) ==> Seated(JoinedSeats(ps, id, name))
  {
    var qs := JoinedSeats(ps, id, name);
    var i := FindPlayer(ps, id);
    forall x | HasPlayer(ps, x) ensures HasPlayer(qs, x) {
      var j :| 0 <= j < |ps| && ps[j].id == x;
      assert qs[j].id == x;
    }
    if i >= 0 {
      SameSeatsKeepsSeating(ps, qs, id);
    } else {
      assert qs[|ps|].id == id;
      forall x | HasPlayer(qs, x) ensures HasPlayer(ps, x) || x == id {
        var j :| 0 <= j < |qs| && qs[j].id == x;
        if j < |ps| { assert ps[j] == qs[j]; }
      }
    }
  }

  /** The `forEach` that gives every seat its index as position. */
  function Renumbered(ps: seq<Player>): seq<Player>
  {
    seq(|ps|, i requires 0 <= i < |ps| => ps[i].(position := i))
  }

  /**
   * The seats after a lobby `leaveRoom`: the seat at `idx` is spliced out and
   * the rest, in their old order, are numbered 0..n-2.
   */
  function LobbyLeave(ps: seq<Player>, idx: nat): (qs: seq<Player>)
    requires idx < |ps|
    ensures |qs| == |ps| - 1
    ensures forall i :: 0 <= i < |qs| ==> qs[i] == (if i < idx then ps[i] else ps[i + 1]).(position := i)
  {
    Renumbered(Lists.RemoveAt(ps, idx))
  }

  /**
   * A lobby leave keeps the seats numbered in order and the ids distinct,
   * and seats exactly the players who were seated except the one who left.
   */
  lemma LobbyLeaveSeating(ps: seq<Player>, idx: nat)
    requires idx < |ps|
    ensures Contiguous(LobbyLeave(ps, idx))
    ensures DistinctIds(ps) ==> DistinctIds(LobbyLeave(ps, idx))
    ensures DistinctIds(ps) ==> forall x :: HasPlayer(LobbyLeave(ps, idx), x) <==> HasPlayer(ps, x) && x != ps[idx].id
  {
    var qs := LobbyLeave(ps, idx);
    assert forall i :: 0 <= i < |qs| ==> qs[i].id == (if i < idx then ps[i].id else ps[i + 1].id);
    assert forall x :: HasPlayer(ps, x) && x != ps[idx].id ==> HasPlayer(qs, x) by {
      forall x | HasPlayer(ps, x) && x != ps[idx].id ensures HasPlayer(qs, x) {
        var j :| 0 <= j < |ps| && ps[j].id == x;
        var j' := if j < idx then j else j - 1;
        assert qs[j'].id == x;
      }
    }
  }

  /** The seats after `toggleReady(code, id)`: that player's `ready` flipped, nothing else. */
  function ToggledSeats(ps: seq<Player>, id: string): (qs: seq<Player>)
    ensures SameSeats(ps, qs)
    ensures forall i :: 0 <= i < |ps| ==> qs[i] == ps[i].(ready := qs[i].ready)
    ensures forall i :: 0 <= i < |ps| ==> (qs[i].ready != ps[i].ready <==> i == FindPlayer(ps, id))
  {
    var i := FindPlayer(ps, id);
    if i < 0 then ps else ps[i := ps[i].(ready := !ps[i].ready)]
  }

  /** Toggling twice gives back the seats toggled. */
  lemma ToggleTwiceRestores(ps: seq<Player>, id: string)
    ensures ToggledSeats(ToggledSeats(ps, id), id) == ps
  {
    var qs := ToggledSeats(ps, id);
    SameSeatsKeepsSeating(ps, qs, id);
    assert FindPlayer(qs, id) == FindPlayer(ps, id);
    var rs := ToggledSeats(qs, id);
    assert forall i :: 0 <= i < |ps| ==> rs[i] == ps[i];
  }

  /** `room.players.filter(p => p.id !== room.hostId)`. */
  function NonHostPlayers(ps: seq<Player>, host: string): (r: seq<Player>)
    ensures forall p :: p in r <==> p in ps && p.id != host
  {
    if |ps| == 0 then []
    else
      var rest := NonHostPlayers(ps[1..], host);
      assert forall p :: p in ps <==> p == ps[0] || p in ps[1..];
      if ps[0].id != host then [ps[0]] + rest else rest
  }

  /** Who sits to either side of a player: `undefined` when no seat has that position. */
  datatype Neighbors = Neighbors(left: Option<Player>, right: Option<Player>)

  /** `players.find(p => p.position === pos)`. */
  function AtPosition(ps: seq<Player>, pos: int): (r: Option<Player>)
    ensures r.None? <==> forall i :: 0 <= i < |ps| ==> ps[i].position != pos
    ensures r.Some? ==> r.value in ps && r.value.position == pos
  {
    if |ps| == 0 then None
    else if ps[0].position == pos then Some(ps[0])
    else
      var r := AtPosition(ps[1..], pos);
      assert forall i :: 1 <= i < |ps| ==> ps[1..][i - 1] == ps[i];
      r
  }

  /**
   * `getPlayerNeighbors` on one room's seats: the players whose positions are
   * one below and one above the caller's, counted modulo the number of seats.
   */
  function SeatNeighbors(ps: seq<Player>, id: string): (r: Option<Neighbors>)
    ensures r.None? <==> !HasPlayer(ps, id)
    ensures r.Some? ==>
      var n, p := |ps|, ps[FindPlayer(ps, id)].position;
      && (r.value.left.Some? ==> r.value.left.value in ps && r.value.left.value.position == Rem(p - 1 + n, n))
      && (r.value.right.Some? ==> r.value.right.value in ps && r.value.right.value.position == Rem(p + 1, n))
  {
    var i := FindPlayer(ps, id);
    if i < 0 then None
    else
      var n := |ps|;
      var leftPos := Rem(ps[i].position - 1 + n, n);
      var rightPos := Rem(ps[i].position + 1, n);
      Some(Neighbors(AtPosition(ps, leftPos), AtPosition(ps, rightPos)))
  }

  /**
   * With contiguous positions both neighbours exist and are the seats just
   * before and after the caller's, wrapping round; with two players both are
   * the other player, and a player alone is their own neighbour.
   */
  lemma SeatedNeighbors(ps: seq<Player>, id: string)
    requires Seated(ps) && HasPlayer(ps, id)
    ensures var i, n := FindPlayer(ps, id), |ps|;
      && SeatNeighbors(ps, id) == Some(Neighbors(Some(ps[(i - 1 + n) % n]), Some(ps[(i + 1) % n])))
      && (n == 2 ==> ps[1 - i].id != id && SeatNeighbors(ps, id) == Some(Neighbors(Some(ps[1 - i]), Some(ps[1 - i]))))
      && (n == 1 ==> SeatNeighbors(ps, id) == Some(Neighbors(Some(ps[0]), Some(ps[0]))))
  {
    var i, n := FindPlayer(ps, id), |ps|;
    ContiguousNeighbors(ps, id);
    WrapOnce(i - 1 + n, n);
    WrapOnce(i + 1, n);
  }

  /** With contiguous positions the neighbours are the seats just before and after, wrapping round. */
  lemma ContiguousNeighbors(ps: seq<Player>, id: string)
    requires Contiguous(ps) && HasPlayer(ps, id)
    ensures var i, n := FindPlayer(ps, id), |ps|;
      SeatNeighbors(ps, id) ==
        Some(Neighbors(Some(ps[if i == 0 then n - 1 else i - 1]), Some(ps[if i == n - 1 then 0 else i + 1])))
  {
    var i, n := FindPlayer(ps, id), |ps|;
    var l, r := if i == 0 then n - 1 else i - 1, if i == n - 1 then 0 else i + 1;
    assert ps[i].position == i;
    RemWraps(i, n);
    AtSeat(ps, l);
    AtSeat(ps, r);
    SeatNeighborsAt(ps, id);
  }

  /** The source's wrapped seat arithmetic, for a seat index. */
  lemma RemWraps(i: int, n: int)
    requires 0 <= i < n
    ensures Rem(i - 1 + n, n) == if i == 0 then n - 1 else i - 1
    ensures Rem(i + 1, n) == if i == n - 1 then 0 else i + 1
  {
    WrapOnce(i - 1 + n, n);
    WrapOnce(i + 1, n);
  }

  /** With contiguous positions the lookup at a seat index finds that seat. */
  lemma AtSeat(ps: seq<Player>, pos: int)
    requires Contiguous(ps) && 0 <= pos < |ps|
    ensures AtPosition(ps, pos) == Some(ps[pos])
  {
    var k := 0;
    while k < pos
      invariant 0 <= k <= pos
      invariant AtPosition(ps[k..], pos) == AtPosition(ps, pos)
    {
      assert ps[k..][1..] == ps[k + 1..];
      k := k + 1;
    }
    assert ps[pos..][0] == ps[pos];
  }

  /** The neighbours of a seated caller are the lookups at the two wrapped positions. */
  lemma SeatNeighborsAt(ps: seq<Player>, id: string)
    requires HasPlayer(ps, id)
    ensures var p, n := ps[FindPlayer(ps, id)].position, |ps|;
      SeatNeighbors(ps, id) == Some(Neighbors(AtPosition(ps, Rem(p - 1 + n, n)), AtPosition(ps, Rem(p + 1, n))))
  {
  }

  /** A number below twice the modulus wraps round at most once. */
  lemma WrapOnce(x: int, n: int)
    requires n > 0 && 0 <= x < 2 * n
    ensures x % n == if x < n then x else x - n
  {
    if x >= n {
      assert x == 1 * n + (x - n);
    }
  }

  class RoomManager {
    var rooms: map<string, Room>

    /** A manager with no rooms. */
    constructor ()
      ensures rooms == map[]
    {
      rooms := map[];
    }

    /** Every room is stored under its own code, so distinct codes hold distinct rooms. */
    ghost predicate Keyed()
      reads this
    {
      forall c :: c in rooms ==> rooms[c].roomCode == c
    }

    /** Every room is stored under its own code and satisfies the room invariant. */
    ghost predicate Valid()
      reads this, rooms.Values
    {
      Keyed() && forall c :: c in rooms ==> rooms[c].Valid()
    }

    /** The room stored under `code`, as a frame: that room, or nothing. */
    function RoomAt(code: string): set<Room>
      reads this
    {
      if code in rooms then {rooms[code]} else {}
    }

    /**
     * The table stays valid when every room other than the one under `code`
     * is an old, untouched entry and that one (if any) is valid under its code.
     */
    twostate lemma ValidAfterOne(code: string)
      requires old(Valid())
      requires forall c :: c in rooms && c != code ==> c in old(rooms) && rooms[c] == old(rooms[c]) && unchanged(rooms[c])
      requires code in rooms ==> rooms[code].roomCode == code && rooms[code].Valid()
      ensures Valid()
    {
      forall c | c in rooms && c != code ensures rooms[c].roomCode == c && rooms[c].Valid() {
        assert old(rooms[c].roomCode == c && rooms[c].Valid());
      }
    }

    /**
     * `generateRoomCode()`: passes of the code loop consume `attempts` in turn
     * until a code not yet in the table comes up; at least one attempt must
     * give one, which is what makes the source's do-while terminate.
     */
    method GenerateRoomCode(attempts: seq<seq<real>>) returns (code: string, used: nat)
      requires forall k :: 0 <= k < |attempts| ==> CodeDraws(attempts[k])
      requires exists k :: 0 <= k < |attempts| && CodeFrom(attempts[k]) !in rooms
      ensures used < |attempts| && code == CodeFrom(attempts[used])
      ensures code !in rooms
      ensures forall k :: 0 <= k < used ==> CodeFrom(attempts[k]) in rooms
    {
      ghost var w :| 0 <= w < |attempts| && CodeFrom(attempts[w]) !in rooms;
      used := 0;
      while true
        invariant used <= w
        invariant forall k :: 0 <= k < used ==> CodeFrom(attempts[k]) in rooms
        decreases w - used
      {
        code := "";
        var i := 0;
        while i < CodeLength
          invariant 0 <= i <= CodeLength
          invariant code == CodeFrom(attempts[used])[..i]
        {
          code := code + [CodeAlphabet[ScaledIndex(attempts[used][i], |CodeAlphabet|)]];
          i := i + 1;
        }
        assert code == CodeFrom(attempts[used]);
        if code !in rooms {
          return;
        }
        used := used + 1;
      }
    }

    /**
     * `createRoom(hostId, hostName)`: stores a fresh lobby under a new code,
     * with the host seated alone at position 0.
     */
    method CreateRoom(hostId: string, hostName: string, attempts: seq<seq<real>>) returns (room: Room)
      requires forall k :: 0 <= k < |attempts| ==> CodeDraws(attempts[k])
      requires exists k :: 0 <= k < |attempts| && CodeFrom(attempts[k]) !in rooms
      modifies this
      ensures fresh(room)
      ensures room.roomCode !in old(rooms) && rooms == old(rooms)[room.roomCode := room]
      ensures exists k :: 0 <= k < |attempts| && room.roomCode == CodeFrom(attempts[k])
      ensures room.hostId == hostId && room.players == [Player(hostId, hostName, 0, [], true, false)]
      ensures room.activeOrders == [] && room.currentAssemblies == map[]
      ensures room.round == 0 && room.teamScore == 0 && room.lives == 3 && room.gameState == Lobby
      ensures old(Valid()) ==> Valid()
    {
      var code, used := GenerateRoomCode(attempts);
      room := new Room(code, hostId, hostName);
      rooms := rooms[code := room];
      assert room.Valid() by {
        assert room.players[0].id == hostId;
      }
      if old(Valid()) {
        ValidAfterOne(code);
      }
    }

    /**
     * `joinRoom(code, id, name)`: refuses an unknown code, then a room already
     * seating eight (even for a reconnecting player), then a game under way;
     * otherwise seats the player as `JoinedSeats` says.
     */
    method JoinRoom(roomCode: string, playerId: string, playerName: string) returns (r: Result<Room>)
      modifies RoomAt(roomCode)`players
      ensures roomCode !in rooms ==> r == Err("Room not found")
      ensures roomCode in rooms ==>
        var room := rooms[roomCode];
        if |old(room.players)| >= MaxPlayers then
          r == Err("Room is full") && room.players == old(room.players)
        else if room.gameState != Lobby then
          r == Err("Game already in progress") && room.players == old(room.players)
        else
          r == Ok(room) && room.players == JoinedSeats(old(room.players), playerId, playerName)
      ensures old(Valid()) ==> Valid()
    {
      if roomCode !in rooms {
        return Err("Room not found");
      }
      var room := rooms[roomCode];
      if |room.players| >= MaxPlayers {
        return Err("Room is full");
      }
      if room.gameState != Lobby {
        return Err("Game already in progress");
      }
      JoinedSeatsSeating(room.players, playerId, playerName);
      room.players := JoinedSeats(room.players, playerId, playerName);
      r := Ok(room);
      if old(Valid()) {
        ValidAfterOne(roomCode);
      }
    }

    /**
     * `leaveRoom(code, id)`. In the lobby the player's seat is removed, the
     * others renumbered, the first remaining player becomes host if the host
     * left, and an emptied room is dropped from the table. During a game the
     * player is only marked disconnected. An unknown room or player changes
     * nothing and gives `undefined`.
     */
    method LeaveRoom(roomCode: string, playerId: string) returns (r: Option<Room>)
      modifies this, RoomAt(roomCode)`players, RoomAt(roomCode)`hostId
      ensures roomCode !in old(rooms) ==> r == None && rooms == old(rooms)
      ensures roomCode in old(rooms) ==>
        var room := old(rooms)[roomCode];
        var ps := old(room.players);
        var idx := FindPlayer(ps, playerId);
        if idx < 0 then
          r == None && rooms == old(rooms) && room.players == ps && room.hostId == old(room.hostId)
        else if room.gameState == Lobby then
          && r == Some(room)
          && room.players == LobbyLeave(ps, idx)
          && room.hostId == (if playerId == old(room.hostId) && |room.players| > 0 then room.players[0].id
                             else old(room.hostId))
          && rooms == (if |room.players| == 0 then old(rooms) - {roomCode} else old(rooms))
        else
          && r == Some(room) && rooms == old(rooms)
          && room.players == ps[idx := ps[idx].(connected := false)]
          && room.hostId == old(room.hostId)
      ensures old(Valid()) ==> Valid()
    {
      if roomCode !in rooms {
        return None;
      }
      var room := rooms[roomCode];
      var playerIndex := FindPlayer(room.players, playerId);
      if playerIndex == -1 {
        return None;
      }
      if room.gameState == Lobby {
        LeaveLobby(room, playerIndex, playerId);
        if |room.players| == 0 {
          rooms := rooms - {roomCode};
        }
      } else {
        MarkDisconnected(room, playerIndex);
      }
      r := Some(room);
      if old(Valid()) {
        ValidAfterOne(roomCode);
      }
    }

    /** An in-game leave on one room: the seat stays, marked disconnected. */
    method MarkDisconnected(room: Room, playerIndex: nat)
      requires playerIndex < |room.players|
      modifies room`players
      ensures room.players == old(room.players)[playerIndex := old(room.players)[playerIndex].(connected := false)]
      ensures old(room.Valid()) ==> room.Valid()
    {
      room.players := room.players[playerIndex := room.players[playerIndex].(connected := false)];
      SameSeatsKeepsSeating(old(room.players), room.players, room.hostId);
    }

    /**
     * A lobby leave on one room: the splice and renumbering loop, then the
     * first remaining player promoted if the host was the one who left.
     */
    method LeaveLobby(room: Room, playerIndex: nat, playerId: string)
      requires playerIndex < |room.players| && room.players[playerIndex].id == playerId
      modifies room`players, room`hostId
      ensures room.players == LobbyLeave(old(room.players), playerIndex)
      ensures room.hostId == (if playerId == old(room.hostId) && |room.players| > 0 then room.players[0].id
                              else old(room.hostId))
      ensures old(room.Valid()) && |room.players| > 0 ==> room.Valid()
    {
      room.players := Lists.RemoveAt(room.players, playerIndex);
      ghost var removed := room.players;
      var idx := 0;
      while idx < |room.players|
        invariant 0 <= idx <= |room.players| == |removed|
        invariant forall i :: 0 <= i < idx ==> room.players[i] == removed[i].(position := i)
        invariant forall i :: idx <= i < |removed| ==> room.players[i] == removed[i]
        invariant room.hostId == old(room.hostId)
      {
        room.players := room.players[idx := room.players[idx].(position := idx)];
        idx := idx + 1;
      }
      assert room.players == Renumbered(removed);
      LobbyLeaveSeating(old(room.players), playerIndex);
      if playerId == room.hostId && |room.players| > 0 {
        room.hostId := room.players[0].id;
        assert HasPlayer(room.players, room.hostId) by {
          assert room.players[0].id == room.hostId;
        }
      }
    }

    /** `toggleReady(code, id)`: flips that player's `ready`; `null` for an unknown room or player. */
    method ToggleReady(roomCode: string, playerId: string) returns (r: Option<Room>)
      modifies RoomAt(roomCode)`players
      ensures roomCode !in rooms ==> r == None
      ensures roomCode in rooms ==>
        var room := rooms[roomCode];
        && room.players == ToggledSeats(old(room.players), playerId)
        && (r.Some? <==> HasPlayer(old(room.players), playerId))
        && (r.Some? ==> r.value == room)
      ensures old(Valid()) ==> Valid()
    {
      if roomCode !in rooms {
        return None;
      }
      var room := rooms[roomCode];
      var i := FindPlayer(room.players, playerId);
      if i < 0 {
        return None;
      }
      room.players := room.players[i := room.players[i].(ready := !room.players[i].ready)];
      SameSeatsKeepsSeating(old(room.players), room.players, room.hostId);
      r := Some(room);
      if old(Valid()) {
        ValidAfterOne(roomCode);
      }
    }

    /** `canStartGame(code)`: at least two players, and every player but the host ready. */
    function CanStartGame(roomCode: string): (ok: bool)
      reads this, rooms.Values
      ensures ok <==>
        && roomCode in rooms
        && |rooms[roomCode].players| >= 2
        && forall i :: 0 <= i < |rooms[roomCode].players| && rooms[roomCode].players[i].id != rooms[roomCode].hostId
             ==> rooms[roomCode].players[i].ready
    {
      if roomCode !in rooms then false
      else
        var room := rooms[roomCode];
        |room.players| >= 2 && forall p :: p in NonHostPlayers(room.players, room.hostId) ==> p.ready
    }

    /** `updateRoom(code, roundData)`: copies a round's fields onto the room. */
    method UpdateRoom(roomCode: string, data: RoundData) returns (r: Option<Room>)
      modifies RoomAt(roomCode)`round, RoomAt(roomCode)`activeOrders
      modifies RoomAt(roomCode)`currentAssemblies, RoomAt(roomCode)`gameState
      ensures roomCode !in rooms ==> r == None
      ensures roomCode in rooms ==>
        var room := rooms[roomCode];
        && r == Some(room)
        && room.round == data.round && room.activeOrders == data.activeOrders
        && room.currentAssemblies == data.currentAssemblies && room.gameState == data.gameState
      ensures roomCode in rooms && old(rooms[roomCode].Valid()) && data.round >= 0 && OrdersWellFormed(data.activeOrders)
        ==> rooms[roomCode].Valid()
      ensures old(Valid()) && data.round >= 0 && OrdersWellFormed(data.activeOrders) ==> Valid()
    {
      if roomCode !in rooms {
        return None;
      }
      var room := rooms[roomCode];
      room.round := data.round;
      room.activeOrders := data.activeOrders;
      room.currentAssemblies := data.currentAssemblies;
      room.gameState := data.gameState;
      r := Some(room);
      if old(Valid()) && data.round >= 0 && OrdersWellFormed(data.activeOrders) {
        ValidAfterOne(roomCode);
      }
    }

    /**
     * `getAllRooms()`: the stored rooms as a list, each once. The source lists
     * them in the table's insertion order, which the model does not track.
     */
    method AllRooms() returns (rs: seq<Room>)
      ensures forall r :: r in rs <==> r in rooms.Values
      ensures Keyed() ==> forall i, j :: 0 <= i < j < |rs| ==> rs[i] != rs[j]
    {
      rs := [];
      var left := rooms.Keys;
      while left != {}
        invariant left <= rooms.Keys
        invariant forall r :: r in rs <==> exists c :: c in rooms && c !in left && rooms[c] == r
        invariant Keyed() ==> forall i :: 0 <= i < |rs| ==> rs[i].roomCode in rooms && rs[i].roomCode !in left
        invariant Keyed() ==> forall i, j :: 0 <= i < j < |rs| ==> rs[i] != rs[j]
        decreases |left|
      {
        var c :| c in left;
        rs := rs + [rooms[c]];
        left := left - {c};
      }
    }

    /** `getPlayerNeighbors(code, id)`: `null` for an unknown room or player. */
    function GetPlayerNeighbors(roomCode: string, playerId: string): (r: Option<Neighbors>)
      reads this, rooms.Values
      ensures r.None? <==> roomCode !in rooms || !HasPlayer(rooms[roomCode].players, playerId)
      ensures roomCode in rooms && Seated(rooms[roomCode].players) && r.Some? ==>
        r.value.left.Some? && r.value.right.Some?
    {
      if roomCode !in rooms then None
      else
        var ps := rooms[roomCode].players;
        if Seated(ps) && HasPlayer(ps, playerId) then
          SeatedNeighbors(ps, playerId);
          SeatNeighbors(ps, playerId)
        else SeatNeighbors(ps, playerId)
    }
  }
}
