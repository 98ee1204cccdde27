/**
 * The server's timer tick and socket handlers with the sockets taken away:
 * each is a transition of the room store, and what the handler would emit is
 * returned as a value.
 */
module Session {
  import opened Wrappers
  import opened GameModel
  import opened GameLogic
  import opened RoomStore
  import Lists
  import Catalog

  /** What a handler answers: nothing (a silent return), an error message, or success. */
  datatype Reply = Ignored | Refused(message: string) | Done

  /** What a tick means for the room's interval timer. */
  datatype TickOutcome = TimerStopped | StillActive | RoundOver | GameOver(results: GameResults)

  /**
   * How a tick of one second changes the order list and the lives, after
   * `updateTimers(room, 1)`: literally, and, with distinct order ids, as
   * "the survivors stay and one life goes per expired order".
   */
  ghost predicate TickedOrders(before: seq<Order>, lives0: int, after: seq<Order>, lives1: int, expired: seq<Order>)
  {
    var ds := Decremented(before, 1);
    && expired == ExpiredOf(ds)
    && after == RemoveExpired(ds, expired).0
    && lives1 == lives0 - RemoveExpired(ds, expired).1
    && (DistinctOrderIds(before) ==> after == Survivors(ds) && lives1 == lives0 - |expired|)
  }

  /**
   * The state a tick leaves an active room in: the game ends if it is over,
   * and only otherwise does an empty order list end the round.
   */
  predicate Settled(room: Room, outcome: TickOutcome)
    reads room
  {
    if IsGameOver(room) then room.gameState == Ended && outcome == GameOver(CalculateResults(room))
    else if IsRoundComplete(room) then room.gameState == RoundComplete && outcome == RoundOver
    else room.gameState == Active && outcome == StillActive
  }

  /** The body of the interval callback on an active room. */
  method TickRoom(room: Room) returns (outcome: TickOutcome, expired: seq<Order>)
    requires room.gameState == Active
    modifies room`activeOrders, room`lives, room`gameState
    ensures TickedOrders(old(room.activeOrders), old(room.lives), room.activeOrders, room.lives, expired)
    ensures Settled(room, outcome)
    ensures old(room.Valid()) ==> room.Valid()
  {
    var livesRemaining;
    expired, livesRemaining := UpdateTimers(room, 1);
    assert TickedOrders(old(room.activeOrders), old(room.lives), room.activeOrders, room.lives, expired);
    assert old(room.Valid()) ==> room.Valid();
    if IsGameOver(room) {
      room.gameState := Ended;
      outcome := GameOver(CalculateResults(room));
    } else if IsRoundComplete(room) {
      room.gameState := RoundComplete;
      outcome := RoundOver;
    } else {
      outcome := StillActive;
    }
  }

  /**
   * One run of the `startGameTimer` interval callback. A missing room or one
   * that is not active stops the timer and changes nothing; an active room
   * ticks as `TickRoom` says.
   */
  method Tick(mgr: RoomManager, roomCode: string) returns (outcome: TickOutcome, expired: seq<Order>)
    modifies mgr.RoomAt(roomCode)`activeOrders, mgr.RoomAt(roomCode)`lives, mgr.RoomAt(roomCode)`gameState
    ensures roomCode !in mgr.rooms ==> outcome == TimerStopped && expired == []
    ensures roomCode in mgr.rooms ==>
      var room := mgr.rooms[roomCode];
      if old(room.gameState) != Active then
        outcome == TimerStopped && expired == [] && unchanged(room)
      else
        && TickedOrders(old(room.activeOrders), old(room.lives), room.activeOrders, room.lives, expired)
        && Settled(room, outcome)
    ensures old(mgr.Valid()) ==> mgr.Valid()
  {
    if roomCode !in mgr.rooms {
      return TimerStopped, [];
    }
    var room := mgr.rooms[roomCode];
    if room.gameState != Active {
      return TimerStopped, [];
    }
    outcome, expired := TickRoom(room);
    if old(mgr.Valid()) {
      mgr.ValidAfterOne(roomCode);
    }
  }

  /**
   * The `start-game` handler: refuses an unknown room, a requester who is not
   * the host, and a room `canStartGame` rejects, in that order; otherwise
   * starts the next round and copies its data onto the room.
   */
  method StartGame(mgr: RoomManager, roomCode: string, requester: string,
                   shuffled: seq<string>, draws: seq<real>, now: nat) returns (reply: Reply)
    requires CatalogShuffle(shuffled)
    requires 3 <= |draws| && RandomDraws(draws)
    modifies mgr.RoomAt(roomCode)`players, mgr.RoomAt(roomCode)`round, mgr.RoomAt(roomCode)`activeOrders
    modifies mgr.RoomAt(roomCode)`currentAssemblies, mgr.RoomAt(roomCode)`gameState
    ensures roomCode !in mgr.rooms ==> reply == Refused("Room not found")
    ensures roomCode in mgr.rooms ==>
      var room := mgr.rooms[roomCode];
      if room.hostId != requester then
        reply == Refused("Only host can start game") && unchanged(room)
      else if !old(mgr.CanStartGame(roomCode)) then
        reply == Refused("Not all players are ready") && unchanged(room)
      else
        && reply == Done
        && RoundBegun(old(room.players), room.players, old(room.round), RoomRound(room), shuffled, draws, now)
    ensures old(mgr.Valid()) ==> mgr.Valid()
  {
    if roomCode !in mgr.rooms {
      return Refused("Room not found");
    }
    var room := mgr.rooms[roomCode];
    if room.hostId != requester {
      return Refused("Only host can start game");
    }
    if !mgr.CanStartGame(roomCode) {
      return Refused("Not all players are ready");
    }
    NextRound(mgr, roomCode, shuffled, draws, now);
    reply := Done;
  }

  /** The round fields of a room, as `updateRoom` copied them in. */
  function RoomRound(room: Room): RoundData
    reads room
  {
    RoundData(room.round, room.activeOrders, room.currentAssemblies, room.gameState)
  }

  /**
   * `initializeRound` followed by `updateRoom`, as both `start-game` and
   * `continue-round` run them on an existing room.
   */
  method NextRound(mgr: RoomManager, roomCode: string, shuffled: seq<string>, draws: seq<real>, now: nat)
    requires roomCode in mgr.rooms
    requires CatalogShuffle(shuffled)
    requires 3 <= |draws| && RandomDraws(draws)
    modifies mgr.RoomAt(roomCode)`players, mgr.RoomAt(roomCode)`round, mgr.RoomAt(roomCode)`activeOrders
    modifies mgr.RoomAt(roomCode)`currentAssemblies, mgr.RoomAt(roomCode)`gameState
    ensures var room := mgr.rooms[roomCode];
      RoundBegun(old(room.players), room.players, old(room.round), RoomRound(room), shuffled, draws, now)
    ensures old(mgr.Valid()) ==> mgr.Valid()
  {
    var room := mgr.rooms[roomCode];
    var data := InitializeRound(room, shuffled, draws, now);
    ghost var dealt := room.players;
    var _ := mgr.UpdateRoom(roomCode, data);
    assert room.players == dealt && RoomRound(room) == data;
    if old(mgr.Valid()) {
      mgr.ValidAfterOne(roomCode);
    }
  }

  /**
   * The `continue-round` handler: silent unless the requester hosts an
   * existing room, refused once the game is over, otherwise the next round.
   */
  method ContinueRound(mgr: RoomManager, roomCode: string, requester: string,
                       shuffled: seq<string>, draws: seq<real>, now: nat) returns (reply: Reply)
    requires CatalogShuffle(shuffled)
    requires 3 <= |draws| && RandomDraws(draws)
    modifies mgr.RoomAt(roomCode)`players, mgr.RoomAt(roomCode)`round, mgr.RoomAt(roomCode)`activeOrders
    modifies mgr.RoomAt(roomCode)`currentAssemblies, mgr.RoomAt(roomCode)`gameState
    ensures roomCode !in mgr.rooms ==> reply == Ignored
    ensures roomCode in mgr.rooms ==>
      var room := mgr.rooms[roomCode];
      if room.hostId != requester then
        reply == Ignored && unchanged(room)
      else if old(IsGameOver(room)) then
        reply == Refused("Game is over") && unchanged(room)
      else
        && reply == Done
        && RoundBegun(old(room.players), room.players, old(room.round), RoomRound(room), shuffled, draws, now)
    ensures old(mgr.Valid()) ==> mgr.Valid()
  {
    if roomCode !in mgr.rooms {
      return Ignored;
    }
    var room := mgr.rooms[roomCode];
    if room.hostId != requester {
      return Ignored;
    }
    if IsGameOver(room) {
      return Refused("Game is over");
    }
    NextRound(mgr, roomCode, shuffled, draws, now);
    reply := Done;
  }

  /** The neighbour a pass goes to: the left one for `"left"`, the right one for anything else. */
  function Recipient(nb: Neighbors, direction: string): Option<Player>
  {
    if direction == "left" then nb.left else nb.right
  }

  /**
   * The `pass-ingredient` handler: finds the caller's neighbour on the
   * requested side and passes to them. It does nothing without a room or a
   * seat for the caller; a missing neighbour would make the source throw
   * before any change, which cannot happen in a valid room.
   */
  method PassToNeighbor(mgr: RoomManager, roomCode: string, playerId: string, direction: string, ing: string)
    returns (r: Option<Result<(Player, Player)>>)
    modifies mgr.RoomAt(roomCode)`players
    ensures roomCode !in mgr.rooms ==> r == None
    ensures roomCode in mgr.rooms ==>
      var room, nb := mgr.rooms[roomCode], old(mgr.GetPlayerNeighbors(roomCode, playerId));
      if nb.None? || Recipient(nb.value, direction).None? then
        r == None && room.players == old(room.players)
      else
        var e := PassPlayers(old(room.players), playerId, Recipient(nb.value, direction).value.id, ing);
        && r.Some? && (r.value.Err? <==> e.Err?)
        && (e.Err? ==> r.value.error == e.error && room.players == old(room.players))
        && (e.Ok? ==> room.players == e.value)
    ensures old(mgr.Valid()) && old(mgr.GetPlayerNeighbors(roomCode, playerId)).Some? ==> r.Some?
    ensures old(mgr.Valid()) ==> mgr.Valid()
  {
    if roomCode !in mgr.rooms {
      return None;
    }
    var room := mgr.rooms[roomCode];
    var neighbors := mgr.GetPlayerNeighbors(roomCode, playerId);
    if neighbors.None? {
      return None;
    }
    var toPlayer := Recipient(neighbors.value, direction);
    if toPlayer.None? {
      return None;
    }
    var result := PassIngredient(room, playerId, toPlayer.value.id, ing);
    r := Some(result);
    if old(mgr.Valid()) {
      mgr.ValidAfterOne(roomCode);
    }
  }

  /**
   * The `submit-dish` handler. Without a room or a plate for the caller it
   * does nothing. A dish `validateDish` accepts takes its order off the list,
   * adds its score to the team's and empties the caller's plate; a rejected
   * dish changes nothing and its error is returned.
   */
  method SubmitDish(mgr: RoomManager, roomCode: string, playerId: string, orderId: string)
    returns (r: Option<DishResult>)
    modifies mgr.RoomAt(roomCode)`activeOrders, mgr.RoomAt(roomCode)`teamScore
    modifies mgr.RoomAt(roomCode)`currentAssemblies
    ensures roomCode !in mgr.rooms ==> r == None
    ensures roomCode in mgr.rooms ==>
      var room := mgr.rooms[roomCode];
      var os := old(room.activeOrders);
      if playerId !in old(room.currentAssemblies) then
        r == None && unchanged(room)
      else
        && r == Some(ExpectedDish(old(room.currentAssemblies)[playerId].ingredients, orderId, os))
        && if r.value.DishValid? then
             && 0 <= FindOrder(os, orderId)
             && room.activeOrders == Lists.RemoveAt(os, FindOrder(os, orderId))
             && room.teamScore == old(room.teamScore) + r.value.score
             && room.currentAssemblies == old(room.currentAssemblies)[playerId := EmptyAssembly]
           else unchanged(room)
    ensures roomCode in mgr.rooms && old(mgr.Valid()) ==>
      mgr.rooms[roomCode].teamScore >= old(mgr.rooms[roomCode].teamScore)
    ensures old(mgr.Valid()) ==> mgr.Valid()
  {
    if roomCode !in mgr.rooms {
      return None;
    }
    var room := mgr.rooms[roomCode];
    if playerId !in room.currentAssemblies {
      return None;
    }
    var assembly := room.currentAssemblies[playerId];
    var validation := ValidateDish(assembly.ingredients, orderId, room);
    r := Some(validation);
    if validation.DishInvalid? {
      return;
    }
    ghost var os := room.activeOrders;
    var orderIndex := FindOrder(room.activeOrders, orderId);
    if orderIndex != -1 {
      room.activeOrders := Lists.RemoveAt(room.activeOrders, orderIndex);
    }
    room.teamScore := room.teamScore + validation.score;
    room.currentAssemblies := room.currentAssemblies[playerId := EmptyAssembly];
    if old(mgr.Valid()) {
      assert os[orderIndex] == validation.order;
      RemoveOrderKeepsWellFormed(os, orderIndex);
      mgr.ValidAfterOne(roomCode);
    }
  }

  /** The seats of a room after `leaveRoom(code, id)`, given its seats and state before. */
  function SeatsAfterLeave(ps: seq<Player>, state: GameState, id: string): seq<Player>
  {
    var i := FindPlayer(ps, id);
    if i < 0 then ps
    else if state == Lobby then LobbyLeave(ps, i)
    else ps[i := ps[i].(connected := false)]
  }

  /**
   * The host of a room after `leaveRoom(code, id)`: a host leaving a lobby
   * that still seats someone hands it to the new first seat.
   */
  function HostAfterLeave(ps: seq<Player>, host: string, state: GameState, id: string): string
  {
    var i := FindPlayer(ps, id);
    if 0 <= i && state == Lobby && id == host && |ps| > 1 then LobbyLeave(ps, i)[0].id else host
  }

  /**
   * What a `leaveRoom` means for a well-seated room: a room that does not
   * seat the player is untouched; a lobby loses exactly that seat and keeps a
   * seated host while anyone is left; a game keeps every seat and its host and
   * only the leaver's seat turns disconnected.
   */
  lemma LeaveEffect(ps: seq<Player>, host: string, state: GameState, id: string)
    requires Seated(ps) && HasPlayer(ps, host)
    ensures var after, hostAfter := SeatsAfterLeave(ps, state, id), HostAfterLeave(ps, host, state, id);
      && (!HasPlayer(ps, id) ==> after == ps && hostAfter == host)
      && (HasPlayer(ps, id) && state == Lobby ==>
            && |after| == |ps| - 1 && Seated(after)
            && (forall x :: HasPlayer(after, x) <==> HasPlayer(ps, x) && x != id)
            && (|after| > 0 ==> HasPlayer(after, hostAfter)))
      && (HasPlayer(ps, id) && state != Lobby ==>
            && hostAfter == host && SameSeats(ps, after)
            && forall k :: 0 <= k < |ps| ==> after[k] == (if ps[k].id == id then ps[k].(connected := false) else ps[k]))
  {
    var i := FindPlayer(ps, id);
    var after, hostAfter := SeatsAfterLeave(ps, state, id), HostAfterLeave(ps, host, state, id);
    if i >= 0 && state == Lobby {
      LobbyLeaveSeating(ps, i);
      if |after| > 0 {
        if id == host {
          assert after[0].id == hostAfter;
        } else {
          assert HasPlayer(ps, host) && host != id;
        }
      }
    } else if i >= 0 {
      forall k | 0 <= k < |ps|
        ensures after[k] == (if ps[k].id == id then ps[k].(connected := false) else ps[k])
      {
        assert ps[k].id == id ==> k == i;
      }
    }
  }

  /**
   * The body of the `disconnect` handler's `forEach` for one listed room: a
   * `leaveRoom` when the room seats the player, nothing otherwise.
   */
  method LeaveIfSeated(mgr: RoomManager, c: string, playerId: string, ghost listed: seq<Room>)
    requires mgr.Valid() && c in mgr.rooms
    modifies mgr, mgr.RoomAt(c)`players, mgr.RoomAt(c)`hostId
    ensures mgr.Valid()
    ensures forall j :: 0 <= j < |listed| && listed[j] != old(mgr.rooms[c]) ==>
      listed[j].players == old(listed[j].players) && listed[j].hostId == old(listed[j].hostId)
    ensures forall k :: k in mgr.rooms ==> k in old(mgr.rooms) && mgr.rooms[k] == old(mgr.rooms[k])
    ensures forall k :: k in old(mgr.rooms) && k != c ==> k in mgr.rooms
    ensures var room := old(mgr.rooms[c]);
      && room.players == SeatsAfterLeave(old(room.players), room.gameState, playerId)
      && room.hostId == HostAfterLeave(old(room.players), old(room.hostId), room.gameState, playerId)
      && (c in mgr.rooms <==> |room.players| > 0)
  {
    var room := mgr.rooms[c];
    if FindPlayer(room.players, playerId) >= 0 {
      LeaveSeated(mgr, c, playerId);
    } else {
      assert room.Valid();
    }
  }

  /** A `leaveRoom` on a listed room that seats the player. */
  method LeaveSeated(mgr: RoomManager, c: string, playerId: string)
    requires mgr.Valid() && c in mgr.rooms && FindPlayer(mgr.rooms[c].players, playerId) >= 0
    modifies mgr, mgr.RoomAt(c)`players, mgr.RoomAt(c)`hostId
    ensures mgr.Valid()
    ensures mgr.rooms == old(mgr.rooms) || mgr.rooms == old(mgr.rooms) - {c}
    ensures var room := old(mgr.rooms[c]);
      && room.players == SeatsAfterLeave(old(room.players), room.gameState, playerId)
      && room.hostId == HostAfterLeave(old(room.players), old(room.hostId), room.gameState, playerId)
      && (c in mgr.rooms <==> |room.players| > 0)
  {
    var room := mgr.rooms[c];
    ghost var ps, host := room.players, room.hostId;
    ghost var seat := FindPlayer(ps, playerId);
    var _ := mgr.LeaveRoom(c, playerId);
    if room.gameState == Lobby {
      assert room.players == LobbyLeave(ps, seat);
    } else {
      assert room.hostId == host;
    }
  }

  /** The seats and host each listed room should end with, from its seats, host and state before. */
  ghost predicate LeavePlan(P0: seq<seq<Player>>, H0: seq<string>, G0: seq<GameState>, W: seq<seq<Player>>, HW: seq<string>, id: string)
  {
    && |H0| == |P0| && |G0| == |P0| && |W| == |P0| && |HW| == |P0|
    && forall j :: 0 <= j < |P0| ==>
      W[j] == SeatsAfterLeave(P0[j], G0[j], id) && HW[j] == HostAfterLeave(P0[j], H0[j], G0[j], id)
  }

  /**
   * The state of the `disconnect` sweep after the first `i` listed rooms: the
   * store still valid and holding only rooms it held before, each listed room
   * still filed under its code with its state unchanged, the rooms not yet
   * visited untouched, and each visited room holding its planned seats and
   * host and kept exactly when seats remain.
   */
  ghost predicate SweptTo(mgr: RoomManager, rooms: seq<Room>, R0: map<string, Room>,
                        P0: seq<seq<Player>>, H0: seq<string>, G0: seq<GameState>, W: seq<seq<Player>>, HW: seq<string>, i: nat)
    reads mgr, mgr.rooms.Values, rooms
  {
    && i <= |rooms| && |P0| == |rooms| && |H0| == |rooms| && |G0| == |rooms| && |W| == |rooms| && |HW| == |rooms|
    && mgr.Valid()
    && (forall c :: c in mgr.rooms ==> c in R0 && mgr.rooms[c] == R0[c])
    && (forall j, k :: 0 <= j < k < |rooms| ==> rooms[j] != rooms[k])
    && (forall j :: 0 <= j < |rooms| ==> rooms[j].roomCode in R0 && R0[rooms[j].roomCode] == rooms[j] && rooms[j].gameState == G0[j])
    && (forall j :: i <= j < |rooms| ==>
          rooms[j].roomCode in mgr.rooms && rooms[j].players == P0[j] && rooms[j].hostId == H0[j])
    && (forall j :: 0 <= j < i ==>
          rooms[j].players == W[j] && rooms[j].hostId == HW[j] && (rooms[j].roomCode in mgr.rooms <==> |W[j]| > 0))
  }

  /** One turn of the `disconnect` sweep: visit the next listed room. */
  method SweepStep(mgr: RoomManager, rooms: seq<Room>, i: nat, playerId: string, ghost R0: map<string, Room>,
                  ghost P0: seq<seq<Player>>, ghost H0: seq<string>, ghost G0: seq<GameState>, ghost W: seq<seq<Player>>, ghost HW: seq<string>)
    requires i < |rooms| && SweptTo(mgr, rooms, R0, P0, H0, G0, W, HW, i) && LeavePlan(P0, H0, G0, W, HW, playerId)
    modifies mgr, mgr.RoomAt(rooms[i].roomCode)`players, mgr.RoomAt(rooms[i].roomCode)`hostId
    ensures SweptTo(mgr, rooms, R0, P0, H0, G0, W, HW, i + 1)
  {
    var room := rooms[i];
    assert mgr.rooms[room.roomCode] == room;
    label Visit:
    LeaveIfSeated(mgr, room.roomCode, playerId, rooms);
    assert mgr.Valid();
    forall j | i < j < |rooms|
      ensures rooms[j].roomCode in mgr.rooms && rooms[j].players == P0[j] && rooms[j].hostId == H0[j]
    {
      assert rooms[j] != room;
      assert rooms[j].roomCode != room.roomCode;
    }
    forall j | 0 <= j < i
      ensures rooms[j].players == W[j] && rooms[j].hostId == HW[j] && (rooms[j].roomCode in mgr.rooms <==> |W[j]| > 0)
    {
      assert rooms[j] != room;
      assert rooms[j].roomCode in mgr.rooms <==> rooms[j].roomCode in old@Visit(mgr.rooms);
    }
  }

  /**
   * The `disconnect` handler: every room listed by `getAllRooms()` that
   * seats the player gets a `leaveRoom` for them. Afterwards each room holds
   * the seats and host `leaveRoom` leaves it with (untouched when it did not
   * seat the player), a room left without seats is gone, and the store holds
   * no room it did not hold before.
   */
  method Disconnect(mgr: RoomManager, playerId: string)
    requires mgr.Valid()
    modifies mgr, mgr.rooms.Values`players, mgr.rooms.Values`hostId
    ensures mgr.Valid()
    ensures forall c :: c in mgr.rooms ==> c in old(mgr.rooms) && mgr.rooms[c] == old(mgr.rooms[c])
    ensures forall r :: r in old(mgr.rooms.Values) ==>
      && r.players == SeatsAfterLeave(old(r.players), r.gameState, playerId)
      && r.hostId == HostAfterLeave(old(r.players), old(r.hostId), r.gameState, playerId)
      && (r.roomCode in mgr.rooms <==> |r.players| > 0)
  {
    ghost var R0 := mgr.rooms;
    var rooms := mgr.AllRooms();
    ghost var P0 := seq(|rooms|, j requires 0 <= j < |rooms| reads rooms => rooms[j].players);
    ghost var H0 := seq(|rooms|, j requires 0 <= j < |rooms| reads rooms => rooms[j].hostId);
    ghost var G0 := seq(|rooms|, j requires 0 <= j < |rooms| reads rooms => rooms[j].gameState);
    ghost var W := seq(|rooms|, j requires 0 <= j < |rooms| => SeatsAfterLeave(P0[j], G0[j], playerId));
    ghost var HW := seq(|rooms|, j requires 0 <= j < |rooms| => HostAfterLeave(P0[j], H0[j], G0[j], playerId));
    forall j | 0 <= j < |rooms| ensures rooms[j].roomCode in R0 && R0[rooms[j].roomCode] == rooms[j] {
      assert rooms[j] in rooms && rooms[j] in R0.Values;
      var c :| c in R0 && R0[c] == rooms[j];
    }
    assert SweptTo(mgr, rooms, R0, P0, H0, G0, W, HW, 0);
    assert LeavePlan(P0, H0, G0, W, HW, playerId);
    var i := 0;
    while i < |rooms|
      invariant i <= |rooms|
      invariant LeavePlan(P0, H0, G0, W, HW, playerId)
      invariant SweptTo(mgr, rooms, R0, P0, H0, G0, W, HW, i)
    {
      SweepStep(mgr, rooms, i, playerId, R0, P0, H0, G0, W, HW);
      i := i + 1;
    }
    forall r | r in old(mgr.rooms.Values)
      ensures && r.players == SeatsAfterLeave(old(r.players), r.gameState, playerId)
              && r.hostId == HostAfterLeave(old(r.players), old(r.hostId), r.gameState, playerId)
              && (r.roomCode in mgr.rooms <==> |r.players| > 0)
    {
      var j :| 0 <= j < |rooms| && rooms[j] == r;
    }
  }
}
