/**
 * The room record the server keeps per game session and the records inside it.
 * A room's fields are reassigned in place by the room store, the round engine and
 * the session handlers, so `Room` is a class; players, orders and assemblies are
 * values held in its sequence and map fields.
 */
module GameModel {
  import opened Wrappers
  import Lists

  /** The `gameState` values the server assigns. */
  datatype GameState = Lobby | Active | RoundComplete | Ended

  datatype Player = Player(
    id: string, name: string, position: int, inventory: seq<string>, connected: bool, ready: bool)

  /** A player's plate: the ingredients moved onto it so far. */
  datatype Assembly = Assembly(ingredients: seq<string>, targetOrderId: Option<string>)

  const EmptyAssembly: Assembly := Assembly([], None)

  datatype Order = Order(
    id: string, recipeId: string, nameKR: string, nameEN: string,
    requiredIngredients: seq<string>, timeRemaining: int, maxTime: int, points: int, createdAt: int)

  /** The fields of a room that `initializeRound` produces and `updateRoom` copies in. */
  datatype RoundData = RoundData(
    round: int, activeOrders: seq<Order>, currentAssemblies: map<string, Assembly>, gameState: GameState)

  class Room {
    const roomCode: string
    var hostId: string
    var players: seq<Player>
    var activeOrders: seq<Order>
    var currentAssemblies: map<string, Assembly>
    var round: int
    var teamScore: int
    var lives: int
    var gameState: GameState

    /** The room `createRoom` builds: the host seated alone, a fresh lobby. */
    constructor (code: string, host: string, hostName: string)
      ensures roomCode == code && hostId == host
      ensures players == [Player(host, hostName, 0, [], true, false)]
      ensures activeOrders == [] && currentAssemblies == map[]
      ensures round == 0 && teamScore == 0 && lives == 3 && gameState == Lobby
    {
      roomCode := code;
      hostId := host;
      players := [Player(host, hostName, 0, [], true, false)];
      activeOrders := [];
      currentAssemblies := map[];
      round := 0;
      teamScore := 0;
      lives := 3;
      gameState := Lobby;
    }

    /**
     * What every live room satisfies: one to eight seats numbered 0..n-1 in
     * sequence order under distinct ids, the host among them, order ids
     * distinct, no order worth negative points, and counters not below zero.
     */
    ghost predicate Valid()
      reads this
    {
      && 1 <= |players| <= 8
      && Seated(players)
      && HasPlayer(players, hostId)
      && OrdersWellFormed(activeOrders)
      && round >= 0 && teamScore >= 0
    }

    /** Replacing only the orders and the lives keeps the invariant when the new orders are well formed. */
    twostate lemma ValidWithNewOrders()
      requires old(Valid()) && OrdersWellFormed(activeOrders)
      requires unchanged(this`players, this`hostId, this`round, this`teamScore)
      ensures Valid()
    {
    }

    /** Changing only what the seats hold keeps the invariant. */
    twostate lemma ValidWithSameSeats()
      requires old(Valid()) && SameSeats(old(players), players)
      requires unchanged(this`hostId, this`activeOrders, this`round, this`teamScore)
      ensures Valid()
    {
      SameSeatsKeepsSeating(old(players), players, hostId);
    }
  }

  function PlayerIds(ps: seq<Player>): seq<string>
  {
    seq(|ps|, i requires 0 <= i < |ps| => ps[i].id)
  }

  /** `players.findIndex(p => p.id === id)`. */
  function FindPlayer(ps: seq<Player>, id: string): (i: int)
    ensures -1 <= i < |ps|
    ensures i >= 0 ==> ps[i].id == id && forall j :: 0 <= j < i ==> ps[j].id != id
    ensures i == -1 <==> forall j :: 0 <= j < |ps| ==> ps[j].id != id
  {
    var i := Lists.IndexOf(PlayerIds(ps), id);
    assert forall j :: 0 <= j < |ps| ==> PlayerIds(ps)[j] == ps[j].id;
    assert i >= 0 ==> forall j :: 0 <= j < i ==> PlayerIds(ps)[..i][j] == ps[j].id;
    i
  }

  predicate HasPlayer(ps: seq<Player>, id: string)
  {
    exists i :: 0 <= i < |ps| && ps[i].id == id
  }

  /** Every seat holds its own index as `position`. */
  predicate Contiguous(ps: seq<Player>)
  {
    forall i :: 0 <= i < |ps| ==> ps[i].position == i
  }

  predicate DistinctIds(ps: seq<Player>)
  {
    forall i, j :: 0 <= i < j < |ps| ==> ps[i].id != ps[j].id
  }

  predicate Seated(ps: seq<Player>)
  {
    Contiguous(ps) && DistinctIds(ps)
  }

  /** `qs` has the seats of `ps`: same ids at the same positions, in the same order. */
  predicate SameSeats(ps: seq<Player>, qs: seq<Player>)
  {
    |qs| == |ps| && forall i :: 0 <= i < |ps| ==> qs[i].id == ps[i].id && qs[i].position == ps[i].position
  }

  /** Changing only what a seat holds (inventory, ready, connected) keeps the seating invariants. */
  lemma SameSeatsKeepsSeating(ps: seq<Player>, qs: seq<Player>, host: string)
    requires SameSeats(ps, qs)
    ensures Seated(ps) ==> Seated(qs)
    ensures HasPlayer(ps, host) ==> HasPlayer(qs, host)
    ensures forall id :: FindPlayer(qs, id) == FindPlayer(ps, id)
  {
    if HasPlayer(ps, host) {
      var i :| 0 <= i < |ps| && ps[i].id == host;
      assert qs[i].id == host;
    }
  }

  function OrderIds(os: seq<Order>): seq<string>
  {
    seq(|os|, i requires 0 <= i < |os| => os[i].id)
  }

  /** `activeOrders.findIndex(o => o.id === id)`. */
  function FindOrder(os: seq<Order>, id: string): (i: int)
    ensures -1 <= i < |os|
    ensures i >= 0 ==> os[i].id == id && forall j :: 0 <= j < i ==> os[j].id != id
    ensures i == -1 <==> forall j :: 0 <= j < |os| ==> os[j].id != id
  {
    if |os| == 0 then -1
    else if os[0].id == id then 0
    else
      var j := FindOrder(os[1..], id);
      assert forall k :: 1 <= k < |os| ==> os[1..][k - 1] == os[k];
      if j == -1 then -1 else j + 1
  }

  predicate DistinctOrderIds(os: seq<Order>)
  {
    forall i, j :: 0 <= i < j < |os| ==> os[i].id != os[j].id
  }

  predicate OrdersWellFormed(os: seq<Order>)
  {
    DistinctOrderIds(os) && forall i :: 0 <= i < |os| ==> os[i].points >= 0
  }

  /** Taking one order out keeps the remaining orders well formed. */
  lemma RemoveOrderKeepsWellFormed(os: seq<Order>, k: nat)
    requires k < |os| && OrdersWellFormed(os)
    ensures OrdersWellFormed(Lists.RemoveAt(os, k))
  {
    var r := Lists.RemoveAt(os, k);
    forall i, j | 0 <= i < j < |r| ensures r[i].id != r[j].id {
      var i', j' := if i < k then i else i + 1, if j < k then j else j + 1;
      assert r[i] == os[i'] && r[j] == os[j'];
    }
  }
}
