/**
 * The round engine: what a round deals and orders, dish validation, moving one
 * ingredient between inventories and plates, and the per-second order countdown.
 * Randomness is given as parameters: the shuffled catalog (any permutation), one
 * `Math.random()` draw per order slot, and `now` for `Date.now()`.
 */
module GameLogic {
  import opened Wrappers
  import opened JsMath
  import opened Lists
  import JsSort
  import Catalog
  import opened GameModel

  // ------------------------------------------------------------------------
  // Dealing ingredients

  /** `Math.min(8, 5 + Math.floor(round / 2))`. */
  function IngredientsPerPlayer(round: int): (k: int)
    ensures round >= 0 ==> 5 <= k <= 8
    ensures k == 8 <==> round >= 6
  {
    var k := 5 + round / 2;
    if k < 8 then k else 8
  }

  /** The id seat `index` is dealt in slot `j`: a window of the shuffled ids that wraps around. */
  function DealtId(shuffled: seq<string>, k: int, index: nat, j: nat): string
    requires |shuffled| > 0
  {
    shuffled[((index * k) % |shuffled| + j) % |shuffled|]
  }

  /** An arrangement of the whole ingredient catalog, as the shuffle in `distributeIngredients` makes. */
  ghost predicate CatalogShuffle(shuffled: seq<string>)
  {
    multiset(shuffled) == multiset(Catalog.AllIngredientIds())
  }

  /** What `distributeIngredients` leaves: each seat's inventory replaced by its deal, nothing else changed. */
  ghost predicate Dealt(before: seq<Player>, after: seq<Player>, round: int, shuffled: seq<string>)
  {
    var k := IngredientsPerPlayer(round);
    && |shuffled| > 0
    && |after| == |before|
    && (forall i :: 0 <= i < |after| ==> after[i] == before[i].(inventory := after[i].inventory))
    && (forall i :: 0 <= i < |after| ==> |after[i].inventory| == if k < 0 then 0 else k)
    && (forall i, j :: 0 <= i < |after| && 0 <= j < |after[i].inventory| ==>
          after[i].inventory[j] == DealtId(shuffled, k, i, j))
  }

  /** A deal keeps the seats, gives every seat between five and eight ids from round 0 on,
      and hands out only catalog ids. */
  lemma DealtProperties(before: seq<Player>, after: seq<Player>, round: int, shuffled: seq<string>)
    requires Dealt(before, after, round, shuffled)
    requires CatalogShuffle(shuffled)
    ensures SameSeats(before, after)
    ensures round >= 0 ==> forall i :: 0 <= i < |after| ==> 5 <= |after[i].inventory| <= 8
    ensures forall i, x :: 0 <= i < |after| && x in after[i].inventory ==> x in Catalog.AllIngredientIds()
  {
    forall i, x | 0 <= i < |after| && x in after[i].inventory ensures x in Catalog.AllIngredientIds() {
      var j :| 0 <= j < |after[i].inventory| && after[i].inventory[j] == x;
      var k := IngredientsPerPlayer(round);
      assert x == shuffled[((i * k) % |shuffled| + j) % |shuffled|];
      assert x in multiset(shuffled);
    }
  }

  /**
   * `distributeIngredients(players, round)`: seat `index` receives the `k` ids
   * starting at `(index * k) % len` of the shuffled catalog, wrapping around.
   */
  method DistributeIngredients(room: Room, round: int, shuffled: seq<string>)
    requires CatalogShuffle(shuffled)
    modifies room`players
    ensures Dealt(old(room.players), room.players, round, shuffled)
  {
    Catalog.IngredientCatalogSize();
    assert |shuffled| == |multiset(shuffled)| == 28;
    var k := IngredientsPerPlayer(round);
    var len := |shuffled|;
    var index := 0;
    while index < |room.players|
      invariant 0 <= index <= |room.players| == |old(room.players)|
      invariant forall i :: 0 <= i < |room.players| ==>
        room.players[i] == old(room.players)[i].(inventory := room.players[i].inventory)
      invariant forall i :: 0 <= i < index ==> |room.players[i].inventory| == if k < 0 then 0 else k
      invariant forall i, j :: 0 <= i < index && 0 <= j < |room.players[i].inventory| ==>
        room.players[i].inventory[j] == DealtId(shuffled, k, i, j)
    {
      var startIdx := (index * k) % len;
      var playerIngredients: seq<string> := [];
      var i := 0;
      while i < k
        invariant 0 <= i && (k >= 0 ==> i <= k) && (k < 0 ==> i == 0)
        invariant |playerIngredients| == i
        invariant forall j :: 0 <= j < i ==> playerIngredients[j] == DealtId(shuffled, k, index, j)
      {
        playerIngredients := playerIngredients + [shuffled[(startIdx + i) % len]];
        i := i + 1;
      }
      room.players := room.players[index := room.players[index].(inventory := playerIngredients)];
      index := index + 1;
    }
  }

  // ------------------------------------------------------------------------
  // Generating orders

  /** `numOrders`: two below round 3, three from round 3 on. */
  function OrderCount(round: int): nat
  {
    if round >= 3 then 3 else 2
  }

  /** `difficulties`: the cycle of tiers that order slots draw from. */
  function Difficulties(round: int): (ds: seq<string>)
    ensures |ds| > 0
  {
    if round >= 5 then ["easy", "medium", "medium"]
    else if round >= 3 then ["easy", "medium"]
    else ["easy"]
  }

  function SlotDifficulty(round: int, slot: nat): string
  {
    Difficulties(round)[slot % |Difficulties(round)|]
  }

  /** The tier schedule: easy only before round 3, then easy/medium/easy, then easy/medium/medium from round 5. */
  lemma SlotSchedule(round: int)
    ensures round < 3 ==> OrderCount(round) == 2 && SlotDifficulty(round, 0) == SlotDifficulty(round, 1) == "easy"
    ensures 3 <= round < 5 ==> (OrderCount(round) == 3 &&
      [SlotDifficulty(round, 0), SlotDifficulty(round, 1), SlotDifficulty(round, 2)] == ["easy", "medium", "easy"])
    ensures round >= 5 ==> (OrderCount(round) == 3 &&
      [SlotDifficulty(round, 0), SlotDifficulty(round, 1), SlotDifficulty(round, 2)] == ["easy", "medium", "medium"])
  {
  }

  /** `order_${Date.now()}_${i}`. */
  function OrderId(now: nat, slot: nat): string
  {
    "order_" + NatToString(now) + "_" + NatToString(slot)
  }

  /** Two slots of one generation get different ids. */
  lemma OrderIdInjective(now: nat, i: nat, j: nat)
    requires OrderId(now, i) == OrderId(now, j)
    ensures i == j
  {
    OrderIdSlotDistinct(now, now, i, j);
  }

  /**
   * Order ids made at any two instants differ for different slots: the slot is
   * the digits after the last `_`, whatever the two `Date.now()` readings are.
   */
  lemma OrderIdSlotDistinct(now1: nat, now2: nat, i: nat, j: nat)
    requires OrderId(now1, i) == OrderId(now2, j)
    ensures i == j
  {
    var x, y := NatToString(i), NatToString(j);
    assert OrderId(now1, i) == ("order_" + NatToString(now1)) + ("_" + x);
    assert OrderId(now2, j) == ("order_" + NatToString(now2)) + ("_" + y);
    SameSuffixAfterSeparator("order_" + NatToString(now1), x, "order_" + NatToString(now2), y);
    NatToStringInjective(i, j);
  }

  /** Two strings that end in `_` and a run of digits end in the same run. */
  lemma SameSuffixAfterSeparator(p: string, x: string, q: string, y: string)
    requires forall k :: 0 <= k < |x| ==> '0' <= x[k] <= '9'
    requires forall k :: 0 <= k < |y| ==> '0' <= y[k] <= '9'
    requires p + ("_" + x) == q + ("_" + y)
    ensures x == y
  {
    var a := p + ("_" + x);
    assert a[|p|] == '_' && a[|q|] == '_';
    assert forall k :: |p| < k < |a| ==> a[k] == x[k - |p| - 1];
    assert forall k :: |q| < k < |a| ==> a[k] == (q + ("_" + y))[k];
    assert |p| == |q|;
    assert x == a[|p| + 1..];
  }

  /** `recipesOfDifficulty[Math.floor(Math.random() * recipesOfDifficulty.length)]`. */
  function PickRecipe(rs: seq<Catalog.Recipe>, draw: real): (r: Catalog.Recipe)
    requires |rs| > 0 && IsRandomDraw(draw)
    ensures r in rs
  {
    rs[ScaledIndex(draw, |rs|)]
  }

  /** The order record a slot pushes for a recipe. */
  function NewOrder(recipe: Catalog.Recipe, now: nat, slot: nat): Order
  {
    Order(OrderId(now, slot), recipe.id, recipe.nameKR, recipe.nameEN, recipe.ingredients,
          recipe.baseTime, recipe.baseTime, recipe.points, now)
  }

  ghost predicate RandomDraws(draws: seq<real>)
  {
    forall i :: 0 <= i < |draws| ==> IsRandomDraw(draws[i])
  }

  /** The orders pushed by the first `n` slots: a slot whose tier has no recipe pushes nothing. */
  function OrdersUpTo(round: int, draws: seq<real>, now: nat, n: nat): seq<Order>
    requires n <= |draws| && RandomDraws(draws)
  {
    if n == 0 then []
    else
      var prev := OrdersUpTo(round, draws, now, n - 1);
      var rs := Catalog.RecipesByDifficulty(SlotDifficulty(round, n - 1));
      if |rs| > 0 then prev + [NewOrder(PickRecipe(rs, draws[n - 1]), now, n - 1)] else prev
  }

  /** Every recipe appears in the table under its own id. */
  lemma RecipeFoundById(r: Catalog.Recipe)
    requires r in Catalog.AllRecipes()
    ensures Catalog.RecipeById(r.id) == Some(r)
  {
    Catalog.AllRecipesListed();
  }

  /** What the order of slot `slot` looks like: its recipe is the catalog entry under
      `recipeId`, of the slot's tier, and the order copies its list, time budget and points. */
  ghost predicate OrderForSlot(o: Order, round: int, now: nat, slot: nat)
  {
    && o.id == OrderId(now, slot)
    && Catalog.RecipeById(o.recipeId).Some?
    && var r := Catalog.RecipeById(o.recipeId).value;
    && r.difficulty == SlotDifficulty(round, slot)
    && o.requiredIngredients == r.ingredients
    && o.timeRemaining == o.maxTime == r.baseTime
    && o.points == r.points
    && o.createdAt == now
  }

  /** Every tier a slot asks for has recipes, and the one drawn makes a well-formed order. */
  lemma SlotNeverSkipped(round: int, draw: real, now: nat, slot: nat)
    requires IsRandomDraw(draw)
    ensures |Catalog.RecipesByDifficulty(SlotDifficulty(round, slot))| > 0
    ensures var r := PickRecipe(Catalog.RecipesByDifficulty(SlotDifficulty(round, slot)), draw);
      OrderForSlot(NewOrder(r, now, slot), round, now, slot) && r.points > 0
  {
    var d := SlotDifficulty(round, slot);
    assert d == "easy" || d == "medium";
    Catalog.EveryDifficultyHasRecipes();
    var r := PickRecipe(Catalog.RecipesByDifficulty(d), draw);
    Catalog.RecipesByDifficultyExact(d);
    Catalog.RecipesAreWellFormed();
    RecipeFoundById(r);
  }

  /** No slot is skipped, so `n` slots push exactly `n` orders. */
  lemma {:induction false} OrdersUpToLength(round: int, draws: seq<real>, now: nat, n: nat)
    requires n <= |draws| && RandomDraws(draws)
    ensures |OrdersUpTo(round, draws, now, n)| == n
  {
    if n > 0 {
      OrdersUpToLength(round, draws, now, n - 1);
      SlotNeverSkipped(round, draws[n - 1], now, n - 1);
    }
  }

  /** Order `i` of a generation is the one slot `i` draws. */
  lemma {:induction false} OrdersUpToAt(round: int, draws: seq<real>, now: nat, n: nat, i: nat)
    requires n <= |draws| && RandomDraws(draws) && i < n
    ensures |OrdersUpTo(round, draws, now, n)| == n
    ensures |Catalog.RecipesByDifficulty(SlotDifficulty(round, i))| > 0
    ensures OrdersUpTo(round, draws, now, n)[i]
      == NewOrder(PickRecipe(Catalog.RecipesByDifficulty(SlotDifficulty(round, i)), draws[i]), now, i)
  {
    OrdersUpToLength(round, draws, now, n);
    SlotNeverSkipped(round, draws[n - 1], now, n - 1);
    SlotNeverSkipped(round, draws[i], now, i);
    if i < n - 1 {
      OrdersUpToAt(round, draws, now, n - 1, i);
    }
  }

  /**
   * With this catalog no slot is skipped: slot `i` holds an order for a recipe of
   * its tier, and the ids of one generation are distinct.
   */
  lemma OrdersUpToShape(round: int, draws: seq<real>, now: nat, n: nat)
    requires n <= |draws| && RandomDraws(draws)
    ensures |OrdersUpTo(round, draws, now, n)| == n
    ensures OrdersWellFormed(OrdersUpTo(round, draws, now, n))
    ensures forall i :: 0 <= i < n ==> OrderForSlot(OrdersUpTo(round, draws, now, n)[i], round, now, i)
  {
    OrdersUpToLength(round, draws, now, n);
    var os := OrdersUpTo(round, draws, now, n);
    forall i | 0 <= i < n ensures OrderForSlot(os[i], round, now, i) && os[i].points >= 0 {
      OrdersUpToAt(round, draws, now, n, i);
      SlotNeverSkipped(round, draws[i], now, i);
    }
    forall i, j | 0 <= i < j < n ensures os[i].id != os[j].id {
      OrdersUpToAt(round, draws, now, n, i);
      OrdersUpToAt(round, draws, now, n, j);
      if os[i].id == os[j].id { OrderIdInjective(now, i, j); }
    }
  }

  /** `generateOrders(round)`: one order per slot whose tier has recipes. */
  method GenerateOrders(round: int, draws: seq<real>, now: nat) returns (orders: seq<Order>)
    requires OrderCount(round) <= |draws| && RandomDraws(draws)
    ensures orders == OrdersUpTo(round, draws, now, OrderCount(round))
    ensures |orders| == OrderCount(round) && OrdersWellFormed(orders)
  {
    orders := [];
    var numOrders := OrderCount(round);
    var i := 0;
    while i < numOrders
      invariant 0 <= i <= numOrders
      invariant orders == OrdersUpTo(round, draws, now, i)
    {
      var difficulty := SlotDifficulty(round, i);
      var recipesOfDifficulty := Catalog.RecipesByDifficulty(difficulty);
      if |recipesOfDifficulty| > 0 {
        var recipe := PickRecipe(recipesOfDifficulty, draws[i]);
        orders := orders + [NewOrder(recipe, now, i)];
      }
      i := i + 1;
    }
    OrdersUpToShape(round, draws, now, numOrders);
  }

  /** `generateOrders` always yields `numOrders` well-formed orders, one per slot, in slot order. */
  lemma GeneratedOrdersShape(round: int, draws: seq<real>, now: nat)
    requires OrderCount(round) <= |draws| && RandomDraws(draws)
    ensures var os := OrdersUpTo(round, draws, now, OrderCount(round));
      && |os| == OrderCount(round) && OrdersWellFormed(os)
      && forall i :: 0 <= i < |os| ==> OrderForSlot(os[i], round, now, i) && os[i].points > 0
  {
    var n := OrderCount(round);
    OrdersUpToShape(round, draws, now, n);
    forall i | 0 <= i < n ensures OrdersUpTo(round, draws, now, n)[i].points > 0 {
      OrdersUpToAt(round, draws, now, n, i);
      SlotNeverSkipped(round, draws[i], now, i);
    }
  }

  // ------------------------------------------------------------------------
  // Starting a round

  /** The plates a round starts with: one empty plate per seated player and no others. */
  ghost predicate FreshPlates(ps: seq<Player>, asm: map<string, Assembly>)
  {
    && (forall id :: id in asm <==> HasPlayer(ps, id))
    && (forall id :: id in asm ==> asm[id] == EmptyAssembly)
  }

  /** The `forEach` of `initializeRound` that gives every player an empty plate. */
  method ResetAssemblies(ps: seq<Player>) returns (asm: map<string, Assembly>)
    ensures FreshPlates(ps, asm)
  {
    asm := map[];
    var i := 0;
    while i < |ps|
      invariant 0 <= i <= |ps|
      invariant forall id :: id in asm <==> HasPlayer(ps[..i], id)
      invariant forall id :: id in asm ==> asm[id] == EmptyAssembly
    {
      assert forall j :: 0 <= j < i ==> ps[..i + 1][j] == ps[..i][j];
      assert ps[..i + 1][i] == ps[i];
      asm := asm[ps[i].id := EmptyAssembly];
      i := i + 1;
    }
    assert ps[..i] == ps;
  }

  /**
   * What `initializeRound` produces from seats `before` in round `prev`: round
   * `prev + 1`, that round's generated orders, every seat dealt afresh into
   * `after`, one empty plate per player, and the active state.
   */
  ghost predicate RoundBegun(before: seq<Player>, after: seq<Player>, prev: int, data: RoundData,
                             shuffled: seq<string>, draws: seq<real>, now: nat)
  {
    && data.round == prev + 1
    && OrderCount(data.round) <= |draws| && RandomDraws(draws)
    && data.activeOrders == OrdersUpTo(data.round, draws, now, OrderCount(data.round))
    && Dealt(before, after, data.round, shuffled)
    && FreshPlates(after, data.currentAssemblies)
    && data.gameState == Active
  }

  /**
   * `initializeRound(room)`: generates the next round's orders, deals every seat
   * a fresh inventory (the only change to the room itself), and returns the
   * round data `RoundBegun` describes; a valid room stays valid and the new
   * orders are well formed.
   */
  method InitializeRound(room: Room, shuffled: seq<string>, draws: seq<real>, now: nat) returns (data: RoundData)
    requires CatalogShuffle(shuffled)
    requires OrderCount(room.round + 1) <= |draws| && RandomDraws(draws)
    modifies room`players
    ensures RoundBegun(old(room.players), room.players, room.round, data, shuffled, draws, now)
    ensures OrdersWellFormed(data.activeOrders)
    ensures old(room.Valid()) ==> room.Valid() && data.round >= 0
  {
    ghost var before := room.players;
    var newRound := room.round + 1;
    var orders := GenerateOrders(newRound, draws, now);
    DistributeIngredients(room, newRound, shuffled);
    if old(room.Valid()) {
      assert SameSeats(before, room.players);
      room.ValidWithSameSeats();
    }
    var currentAssemblies := ResetAssemblies(room.players);
    data := RoundData(newRound, orders, currentAssemblies, Active);
    assert data.round == newRound && data.activeOrders == orders;
  }

  /** A round begun from a valid room gives it only catalog ingredients, five to eight per seat. */
  lemma RoundBegunDeals(before: seq<Player>, after: seq<Player>, prev: int, data: RoundData,
                        shuffled: seq<string>, draws: seq<real>, now: nat)
    requires RoundBegun(before, after, prev, data, shuffled, draws, now) && CatalogShuffle(shuffled)
    requires prev >= 0 && OrderCount(prev + 1) <= |draws| && RandomDraws(draws)
    ensures SameSeats(before, after)
    ensures forall i :: 0 <= i < |after| ==> 5 <= |after[i].inventory| <= 8
    ensures |data.activeOrders| == OrderCount(data.round) && OrdersWellFormed(data.activeOrders)
    ensures forall i :: 0 <= i < |data.activeOrders| ==> OrderForSlot(data.activeOrders[i], data.round, now, i)
  {
    DealtProperties(before, after, data.round, shuffled);
    GeneratedOrdersShape(data.round, draws, now);
  }

  // ------------------------------------------------------------------------
  // Validating a dish

  datatype DishResult = DishValid(score: int, order: Order) | DishInvalid(error: string)

  /**
   * `order.timeRemaining / order.maxTime > 0.5` on JavaScript numbers: with a
   * zero budget the quotient is +Infinity, -Infinity or NaN.
   */
  predicate TimeBonus(timeRemaining: int, maxTime: int)
  {
    if maxTime > 0 then 2 * timeRemaining > maxTime
    else if maxTime < 0 then 2 * timeRemaining < maxTime
    else timeRemaining > 0
  }

  /** Multiplying by a positive number keeps a strict order. */
  lemma ScaleStrict(a: real, b: real, m: real)
    requires m > 0.0 && a < b
    ensures a * m < b * m
  {
    assert b * m - a * m == (b - a) * m;
  }

  /** Away from a zero budget, the integer test is the quotient test. */
  lemma TimeBonusIsRatioAboveHalf(timeRemaining: int, maxTime: int)
    requires maxTime != 0
    ensures TimeBonus(timeRemaining, maxTime) <==> timeRemaining as real / maxTime as real > 0.5
  {
    var t, m := timeRemaining as real, maxTime as real;
    var q := t / m;
    assert q * m == t;
    if m > 0.0 {
      if q > 0.5 { ScaleStrict(0.5, q, m); }
      if q < 0.5 { ScaleStrict(q, 0.5, m); }
    } else {
      assert q * (-m) == -t;
      if q > 0.5 { ScaleStrict(0.5, q, -m); }
      if q < 0.5 { ScaleStrict(q, 0.5, -m); }
    }
  }

  /** The dish's score: `points`, or `Math.floor(points * 1.2)` with the time bonus. */
  function DishScore(order: Order): (score: int)
    ensures TimeBonus(order.timeRemaining, order.maxTime) ==>
      score as real <= order.points as real * 1.2 < score as real + 1.0
    ensures !TimeBonus(order.timeRemaining, order.maxTime) ==> score == order.points
    ensures order.points >= 0 ==> order.points <= score
  {
    if TimeBonus(order.timeRemaining, order.maxTime) then (order.points * 6) / 5 else order.points
  }

  /**
   * What `validateDish` decides, stated on multisets: the order must be active,
   * the plate must hold as many ingredients as the recipe, and the same ones
   * with the same multiplicities, in any order.
   */
  function ExpectedDish(assembled: seq<string>, orderId: string, orders: seq<Order>): (r: DishResult)
    ensures r.DishValid? ==> r.order in orders && r.order.id == orderId
  {
    var k := FindOrder(orders, orderId);
    if k < 0 then DishInvalid("Order not found")
    else if |orders[k].requiredIngredients| != |assembled| then DishInvalid("Wrong number of ingredients")
    else if multiset(orders[k].requiredIngredients) != multiset(assembled) then DishInvalid("Wrong ingredients")
    else DishValid(DishScore(orders[k]), orders[k])
  }

  /** The plate holds exactly the ingredients of order `o`, which carries the id. */
  predicate Fulfils(assembled: seq<string>, orderId: string, o: Order)
  {
    o.id == orderId && multiset(o.requiredIngredients) == multiset(assembled)
  }

  /**
   * A dish is accepted exactly when the first active order under the id lists the
   * plate's ingredients up to order (the length test never decides on its own);
   * with distinct order ids, when some active order under the id does.
   */
  lemma DishAcceptedIff(assembled: seq<string>, orderId: string, orders: seq<Order>)
    ensures var k := FindOrder(orders, orderId);
      ExpectedDish(assembled, orderId, orders).DishValid? <==>
        k >= 0 && multiset(orders[k].requiredIngredients) == multiset(assembled)
    ensures DistinctOrderIds(orders) ==>
      (ExpectedDish(assembled, orderId, orders).DishValid? <==>
        exists k :: 0 <= k < |orders| && Fulfils(assembled, orderId, orders[k]))
  {
    var k := FindOrder(orders, orderId);
    if k >= 0 && multiset(orders[k].requiredIngredients) == multiset(assembled) {
      assert |orders[k].requiredIngredients| == |multiset(assembled)| == |assembled|;
    }
    if DistinctOrderIds(orders) && exists j :: 0 <= j < |orders| && Fulfils(assembled, orderId, orders[j]) {
      var j :| 0 <= j < |orders| && Fulfils(assembled, orderId, orders[j]);
      assert k == j;
    }
  }

  /**
   * `validateDish(assembledIngredients, orderId, room)`: sort both lists with the
   * default string order, compare lengths, then compare element by element.
   */
  method ValidateDish(assembled: seq<string>, orderId: string, room: Room) returns (r: DishResult)
    ensures r == ExpectedDish(assembled, orderId, room.activeOrders)
  {
    var k := FindOrder(room.activeOrders, orderId);
    if k < 0 {
      return DishInvalid("Order not found");
    }
    var order := room.activeOrders[k];
    var required := JsSort.Sort(order.requiredIngredients);
    var sortedAssembled := JsSort.Sort(assembled);
    if |required| != |sortedAssembled| {
      return DishInvalid("Wrong number of ingredients");
    }
    var i := 0;
    while i < |required|
      invariant 0 <= i <= |required|
      invariant required[..i] == sortedAssembled[..i]
    {
      if required[i] != sortedAssembled[i] {
        JsSort.SortEqualIffSameMultiset(order.requiredIngredients, assembled);
        return DishInvalid("Wrong ingredients");
      }
      i := i + 1;
    }
    assert required == required[..i] && sortedAssembled == sortedAssembled[..i];
    JsSort.SortEqualIffSameMultiset(order.requiredIngredients, assembled);
    r := DishValid(DishScore(order), order);
  }

  // ------------------------------------------------------------------------
  // Moving ingredients

  /** How many copies of ingredient `x` the room's inventories hold together. */
  function Copies(ps: seq<Player>, x: string): nat
  {
    if |ps| == 0 then 0 else Copies(ps[..|ps| - 1], x) + multiset(ps[|ps| - 1].inventory)[x]
  }

  /** Replacing one seat's inventory swaps its contribution to the count. */
  lemma {:induction false} CopiesUpdate(ps: seq<Player>, i: nat, inv: seq<string>, x: string)
    requires i < |ps|
    ensures Copies(ps[i := ps[i].(inventory := inv)], x) + multiset(ps[i].inventory)[x]
         == Copies(ps, x) + multiset(inv)[x]
  {
    var qs := ps[i := ps[i].(inventory := inv)];
    var n := |ps| - 1;
    if i == n {
      assert qs[..n] == ps[..n];
    } else {
      var front := ps[..n];
      assert qs[n] == ps[n] && front[i] == ps[i];
      assert qs[..n] == front[i := front[i].(inventory := inv)];
      CopiesUpdate(front, i, inv, x);
    }
  }

  /**
   * The seats after `passIngredient(room, from, to, ingredient)`: the first copy
   * leaves the sender's inventory, then the id is appended to the receiver's
   * (so passing to oneself moves the id to the end).
   */
  function PassPlayers(ps: seq<Player>, fromId: string, toId: string, ing: string): (r: Result<seq<Player>>)
    ensures r.Err? <==>
      !HasPlayer(ps, fromId) || !HasPlayer(ps, toId) || ing !in ps[FindPlayer(ps, fromId)].inventory
    ensures r.Err? ==>
      r.error == if !HasPlayer(ps, fromId) || !HasPlayer(ps, toId) then "Player not found"
                 else "Ingredient not in inventory"
    ensures r.Ok? ==> SameSeats(ps, r.value)
  {
    var f := FindPlayer(ps, fromId);
    var t := FindPlayer(ps, toId);
    if f < 0 || t < 0 then Err("Player not found")
    else
      var idx := IndexOf(ps[f].inventory, ing);
      if idx < 0 then Err("Ingredient not in inventory")
      else
        var afterSend := ps[f := ps[f].(inventory := RemoveAt(ps[f].inventory, idx))];
        Ok(afterSend[t := afterSend[t].(inventory := afterSend[t].inventory + [ing])])
  }

  /** A pass conserves the room's ingredients: every id is held as often as before. */
  lemma PassConserves(ps: seq<Player>, fromId: string, toId: string, ing: string, x: string)
    requires PassPlayers(ps, fromId, toId, ing).Ok?
    ensures Copies(PassPlayers(ps, fromId, toId, ing).value, x) == Copies(ps, x)
  {
    var f, t := FindPlayer(ps, fromId), FindPlayer(ps, toId);
    var inv := ps[f].inventory;
    var sent := RemoveAt(inv, IndexOf(inv, ing));
    RemoveFirstOccurrence(inv, ing);
    var afterSend := ps[f := ps[f].(inventory := sent)];
    var got := afterSend[t].inventory + [ing];
    assert PassPlayers(ps, fromId, toId, ing).value == afterSend[t := afterSend[t].(inventory := got)];
    assert multiset(got) == multiset(afterSend[t].inventory) + multiset{ing};
    CopiesUpdate(ps, f, sent, x);
    CopiesUpdate(afterSend, t, got, x);
  }

  /** A pass touches only inventories, and only those of the two seats involved. */
  lemma PassKeepsOthers(ps: seq<Player>, fromId: string, toId: string, ing: string)
    requires PassPlayers(ps, fromId, toId, ing).Ok?
    ensures var qs := PassPlayers(ps, fromId, toId, ing).value;
      var f, t := FindPlayer(ps, fromId), FindPlayer(ps, toId);
      && (forall i :: 0 <= i < |ps| ==> qs[i] == ps[i].(inventory := qs[i].inventory))
      && (forall i :: 0 <= i < |ps| && i != f && i != t ==> qs[i] == ps[i])
  {
    var f, t := FindPlayer(ps, fromId), FindPlayer(ps, toId);
    var inv := ps[f].inventory;
    var afterSend := ps[f := ps[f].(inventory := RemoveAt(inv, IndexOf(inv, ing)))];
    var qs := afterSend[t := afterSend[t].(inventory := afterSend[t].inventory + [ing])];
    assert PassPlayers(ps, fromId, toId, ing).value == qs;
  }

  /** Between two different seats, the sender loses one copy and the receiver gains it at the end. */
  lemma PassBetweenTwo(ps: seq<Player>, fromId: string, toId: string, ing: string)
    requires PassPlayers(ps, fromId, toId, ing).Ok?
    requires FindPlayer(ps, fromId) != FindPlayer(ps, toId)
    ensures var qs := PassPlayers(ps, fromId, toId, ing).value;
      var f, t := FindPlayer(ps, fromId), FindPlayer(ps, toId);
      && multiset(qs[f].inventory) == multiset(ps[f].inventory) - multiset{ing}
      && qs[t].inventory == ps[t].inventory + [ing]
  {
    var inv := ps[FindPlayer(ps, fromId)].inventory;
    RemoveFirstOccurrence(inv, ing);
  }

  /** Passing to oneself keeps the same ingredients and moves one copy of `ing` to the end. */
  lemma PassToSelf(ps: seq<Player>, fromId: string, toId: string, ing: string)
    requires PassPlayers(ps, fromId, toId, ing).Ok?
    requires FindPlayer(ps, fromId) == FindPlayer(ps, toId)
    ensures var qs := PassPlayers(ps, fromId, toId, ing).value;
      var f := FindPlayer(ps, fromId);
      && multiset(qs[f].inventory) == multiset(ps[f].inventory)
      && qs[f].inventory[|qs[f].inventory| - 1] == ing
  {
    var f := FindPlayer(ps, fromId);
    var inv := ps[f].inventory;
    RemoveFirstOccurrence(inv, ing);
    var sent := RemoveAt(inv, IndexOf(inv, ing));
    assert PassPlayers(ps, fromId, toId, ing).value[f].inventory == sent + [ing];
    assert multiset(sent + [ing]) == multiset(sent) + multiset{ing};
  }

  /** `passIngredient(room, fromPlayerId, toPlayerId, ingredientId)`; on success, the two seats as updated. */
  method PassIngredient(room: Room, fromId: string, toId: string, ing: string) returns (r: Result<(Player, Player)>)
    modifies room`players
    ensures var e := PassPlayers(old(room.players), fromId, toId, ing);
      if e.Ok? then
        && room.players == e.value
        && r == Ok((room.players[FindPlayer(old(room.players), fromId)], room.players[FindPlayer(old(room.players), toId)]))
      else room.players == old(room.players) && r == Err(e.error)
    ensures old(room.Valid()) ==> room.Valid()
  {
    var f := FindPlayer(room.players, fromId);
    var t := FindPlayer(room.players, toId);
    if f < 0 || t < 0 {
      return Err("Player not found");
    }
    var ingredientIndex := IndexOf(room.players[f].inventory, ing);
    if ingredientIndex == -1 {
      return Err("Ingredient not in inventory");
    }
    room.players := room.players[f := room.players[f].(inventory := RemoveAt(room.players[f].inventory, ingredientIndex))];
    room.players := room.players[t := room.players[t].(inventory := room.players[t].inventory + [ing])];
    SameSeatsKeepsSeating(old(room.players), room.players, room.hostId);
    r := Ok((room.players[f], room.players[t]));
  }

  /** The plate a player starts from: theirs, or a fresh empty one. */
  function PlateOf(asm: map<string, Assembly>, pid: string): Assembly
  {
    if pid in asm then asm[pid] else EmptyAssembly
  }

  /**
   * Seats and plates after `addToAssembly(room, playerId, ingredientId)`: the
   * first copy leaves the inventory and is appended to the player's plate, which
   * is created empty if the player has none.
   */
  function AddToPlate(ps: seq<Player>, asm: map<string, Assembly>, pid: string, ing: string)
    : (r: Result<(seq<Player>, map<string, Assembly>)>)
    ensures r.Err? <==> !HasPlayer(ps, pid) || ing !in ps[FindPlayer(ps, pid)].inventory
    ensures r.Err? ==> r.error == if !HasPlayer(ps, pid) then "Player not found" else "Ingredient not in inventory"
    ensures r.Ok? ==> SameSeats(ps, r.value.0) && r.value.1.Keys == asm.Keys + {pid}
  {
    var p := FindPlayer(ps, pid);
    if p < 0 then Err("Player not found")
    else
      var idx := IndexOf(ps[p].inventory, ing);
      if idx < 0 then Err("Ingredient not in inventory")
      else
        var plate := PlateOf(asm, pid);
        Ok((ps[p := ps[p].(inventory := RemoveAt(ps[p].inventory, idx))],
            asm[pid := plate.(ingredients := plate.ingredients + [ing])]))
  }

  /**
   * Seats and plates after `removeFromAssembly(room, playerId, ingredientId)`:
   * the first copy leaves the plate and, when the player is seated, is appended
   * to their inventory; a plate without a seated owner just loses it.
   */
  function RemoveFromPlate(ps: seq<Player>, asm: map<string, Assembly>, pid: string, ing: string)
    : (r: Result<(seq<Player>, map<string, Assembly>)>)
    ensures r.Err? <==> pid !in asm || ing !in asm[pid].ingredients
    ensures r.Err? ==> r.error == if pid !in asm then "No assembly found" else "Ingredient not in assembly"
    ensures r.Ok? ==> SameSeats(ps, r.value.0) && r.value.1.Keys == asm.Keys
  {
    if pid !in asm then Err("No assembly found")
    else
      var idx := IndexOf(asm[pid].ingredients, ing);
      if idx < 0 then Err("Ingredient not in assembly")
      else
        var p := FindPlayer(ps, pid);
        Ok((if p >= 0 then ps[p := ps[p].(inventory := ps[p].inventory + [ing])] else ps,
            asm[pid := asm[pid].(ingredients := RemoveAt(asm[pid].ingredients, idx))]))
  }

  /** Adding to a plate takes exactly one copy of the id out of the room's inventories. */
  lemma AddToPlateConserves(ps: seq<Player>, asm: map<string, Assembly>, pid: string, ing: string, x: string)
    requires AddToPlate(ps, asm, pid, ing).Ok?
    ensures Copies(AddToPlate(ps, asm, pid, ing).value.0, x) + (if x == ing then 1 else 0) == Copies(ps, x)
  {
    var p := FindPlayer(ps, pid);
    var inv := ps[p].inventory;
    RemoveFirstOccurrence(inv, ing);
    CopiesUpdate(ps, p, RemoveAt(inv, IndexOf(inv, ing)), x);
  }

  /** Adding to a plate moves one copy from the inventory onto the plate and touches nothing else. */
  lemma AddToPlateEffect(ps: seq<Player>, asm: map<string, Assembly>, pid: string, ing: string)
    requires AddToPlate(ps, asm, pid, ing).Ok?
    ensures var (qs, bsm) := AddToPlate(ps, asm, pid, ing).value;
      var p := FindPlayer(ps, pid);
      && multiset(qs[p].inventory) == multiset(ps[p].inventory) - multiset{ing}
      && bsm[pid].ingredients == PlateOf(asm, pid).ingredients + [ing]
      && bsm[pid].targetOrderId == PlateOf(asm, pid).targetOrderId
      && (forall i :: 0 <= i < |ps| ==> qs[i] == ps[i].(inventory := qs[i].inventory))
      && (forall i :: 0 <= i < |ps| && i != p ==> qs[i] == ps[i])
      && (forall k :: k in asm && k != pid ==> bsm[k] == asm[k])
  {
    var p := FindPlayer(ps, pid);
    RemoveFirstOccurrence(ps[p].inventory, ing);
  }

  /** Taking from a plate hands one copy back to the room's inventories, if the owner is seated. */
  lemma RemoveFromPlateConserves(ps: seq<Player>, asm: map<string, Assembly>, pid: string, ing: string, x: string)
    requires RemoveFromPlate(ps, asm, pid, ing).Ok?
    ensures var qs := RemoveFromPlate(ps, asm, pid, ing).value.0;
      Copies(qs, x) == Copies(ps, x) + (if x == ing && HasPlayer(ps, pid) then 1 else 0)
  {
    var p := FindPlayer(ps, pid);
    if p >= 0 {
      var got := ps[p].inventory + [ing];
      assert multiset(got) == multiset(ps[p].inventory) + multiset{ing};
      CopiesUpdate(ps, p, got, x);
    }
  }

  /** Taking from a plate moves one copy back to the owner's inventory, or drops it when the owner is gone. */
  lemma RemoveFromPlateEffect(ps: seq<Player>, asm: map<string, Assembly>, pid: string, ing: string)
    requires RemoveFromPlate(ps, asm, pid, ing).Ok?
    ensures var (qs, bsm) := RemoveFromPlate(ps, asm, pid, ing).value;
      var p := FindPlayer(ps, pid);
      && multiset(bsm[pid].ingredients) == multiset(asm[pid].ingredients) - multiset{ing}
      && bsm[pid].targetOrderId == asm[pid].targetOrderId
      && (p >= 0 ==> qs[p].inventory == ps[p].inventory + [ing])
      && (p < 0 ==> qs == ps)
      && (forall i :: 0 <= i < |ps| && i != p ==> qs[i] == ps[i])
      && (forall k :: k in asm && k != pid ==> bsm[k] == asm[k])
  {
    RemoveFirstOccurrence(asm[pid].ingredients, ing);
  }

  /** Taking back what was just put on a plate always succeeds and leaves the seats as they were. */
  lemma AddThenRemoveSucceeds(ps: seq<Player>, asm: map<string, Assembly>, pid: string, ing: string)
    requires AddToPlate(ps, asm, pid, ing).Ok?
    ensures var (qs, bsm) := AddToPlate(ps, asm, pid, ing).value;
      && RemoveFromPlate(qs, bsm, pid, ing).Ok?
      && SameSeats(ps, RemoveFromPlate(qs, bsm, pid, ing).value.0)
      && FindPlayer(qs, pid) == FindPlayer(ps, pid)
  {
    AddToPlateEffect(ps, asm, pid, ing);
    var (qs, bsm) := AddToPlate(ps, asm, pid, ing).value;
    SameSeatsKeepsSeating(ps, qs, pid);
    var plate := bsm[pid].ingredients;
    assert plate[|plate| - 1] == ing;
  }

  /**
   * Taking back what was just put on a plate restores the player's inventory and
   * plate up to order (the id returns at the end of the inventory), and leaves
   * every other seat as it was.
   */
  lemma AddThenRemoveRestores(ps: seq<Player>, asm: map<string, Assembly>, pid: string, ing: string)
    requires AddToPlate(ps, asm, pid, ing).Ok?
    ensures var (qs, bsm) := AddToPlate(ps, asm, pid, ing).value;
      RemoveFromPlate(qs, bsm, pid, ing).Ok?
    ensures var (qs, bsm) := AddToPlate(ps, asm, pid, ing).value;
      var (rs, csm) := RemoveFromPlate(qs, bsm, pid, ing).value;
      var p := FindPlayer(ps, pid);
      && multiset(rs[p].inventory) == multiset(ps[p].inventory)
      && multiset(csm[pid].ingredients) == multiset(PlateOf(asm, pid).ingredients)
      && (forall i :: 0 <= i < |ps| && i != p ==> rs[i] == ps[i])
  {
    AddThenRemoveSucceeds(ps, asm, pid, ing);
    AddToPlateEffect(ps, asm, pid, ing);
    var (qs, bsm) := AddToPlate(ps, asm, pid, ing).value;
    RemoveFromPlateEffect(qs, bsm, pid, ing);
    var (rs, csm) := RemoveFromPlate(qs, bsm, pid, ing).value;
    var p := FindPlayer(ps, pid);
    TakeThenAppend(ps[p].inventory, qs[p].inventory, rs[p].inventory, ing);
    AppendThenTake(PlateOf(asm, pid).ingredients, bsm[pid].ingredients, csm[pid].ingredients, ing);
  }

  /** Taking one copy of `x` out of a sequence that holds it, then appending `x`, restores its multiset. */
  lemma TakeThenAppend(full: seq<string>, less: seq<string>, back: seq<string>, x: string)
    requires x in full && multiset(less) == multiset(full) - multiset{x} && back == less + [x]
    ensures multiset(back) == multiset(full)
  {
    forall y ensures multiset(back)[y] == multiset(full)[y] {
      assert multiset(back) == multiset(less) + multiset{x};
    }
  }

  /** Appending `x`, then taking one copy of it out, restores the multiset. */
  lemma AppendThenTake(orig: seq<string>, more: seq<string>, back: seq<string>, x: string)
    requires more == orig + [x] && multiset(back) == multiset(more) - multiset{x}
    ensures multiset(back) == multiset(orig)
  {
    forall y ensures multiset(back)[y] == multiset(orig)[y] {
      assert multiset(more) == multiset(orig) + multiset{x};
    }
  }

  /** `addToAssembly(room, playerId, ingredientId)`; on success, the player's plate. */
  method AddToAssembly(room: Room, pid: string, ing: string) returns (r: Result<Assembly>)
    modifies room`players, room`currentAssemblies
    ensures var e := AddToPlate(old(room.players), old(room.currentAssemblies), pid, ing);
      if e.Ok? then
        room.players == e.value.0 && room.currentAssemblies == e.value.1 && r == Ok(room.currentAssemblies[pid])
      else
        room.players == old(room.players) && room.currentAssemblies == old(room.currentAssemblies) && r == Err(e.error)
    ensures old(room.Valid()) ==> room.Valid()
  {
    var p := FindPlayer(room.players, pid);
    if p < 0 {
      return Err("Player not found");
    }
    var ingredientIndex := IndexOf(room.players[p].inventory, ing);
    if ingredientIndex == -1 {
      return Err("Ingredient not in inventory");
    }
    room.players := room.players[p := room.players[p].(inventory := RemoveAt(room.players[p].inventory, ingredientIndex))];
    if pid !in room.currentAssemblies {
      room.currentAssemblies := room.currentAssemblies[pid := EmptyAssembly];
    }
    var plate := room.currentAssemblies[pid];
    room.currentAssemblies := room.currentAssemblies[pid := plate.(ingredients := plate.ingredients + [ing])];
    SameSeatsKeepsSeating(old(room.players), room.players, room.hostId);
    r := Ok(room.currentAssemblies[pid]);
  }

  /** `removeFromAssembly(room, playerId, ingredientId)`; on success, the player's plate. */
  method RemoveFromAssembly(room: Room, pid: string, ing: string) returns (r: Result<Assembly>)
    modifies room`players, room`currentAssemblies
    ensures var e := RemoveFromPlate(old(room.players), old(room.currentAssemblies), pid, ing);
      if e.Ok? then
        room.players == e.value.0 && room.currentAssemblies == e.value.1 && r == Ok(room.currentAssemblies[pid])
      else
        room.players == old(room.players) && room.currentAssemblies == old(room.currentAssemblies) && r == Err(e.error)
    ensures old(room.Valid()) ==> room.Valid()
  {
    if pid !in room.currentAssemblies {
      return Err("No assembly found");
    }
    var plate := room.currentAssemblies[pid];
    var ingredientIndex := IndexOf(plate.ingredients, ing);
    if ingredientIndex == -1 {
      return Err("Ingredient not in assembly");
    }
    room.currentAssemblies := room.currentAssemblies[pid := plate.(ingredients := RemoveAt(plate.ingredients, ingredientIndex))];
    var p := FindPlayer(room.players, pid);
    if p >= 0 {
      room.players := room.players[p := room.players[p].(inventory := room.players[p].inventory + [ing])];
    }
    SameSeatsKeepsSeating(old(room.players), room.players, room.hostId);
    r := Ok(room.currentAssemblies[pid]);
  }

  // ------------------------------------------------------------------------
  // The order countdown

  /** Every order's clock run down by `delta` seconds. */
  function Decremented(os: seq<Order>, delta: int): seq<Order>
  {
    seq(|os|, i requires 0 <= i < |os| => os[i].(timeRemaining := os[i].timeRemaining - delta))
  }

  /** The orders whose clock has run out, in list order. */
  function ExpiredOf(os: seq<Order>): (e: seq<Order>)
    ensures forall o :: o in e ==> o in os && o.timeRemaining <= 0
  {
    if |os| == 0 then []
    else
      var rest := ExpiredOf(os[..|os| - 1]);
      if os[|os| - 1].timeRemaining <= 0 then rest + [os[|os| - 1]] else rest
  }

  /** The orders with time left, in list order. */
  function Survivors(os: seq<Order>): (s: seq<Order>)
    ensures forall o :: o in s ==> o in os && o.timeRemaining > 0
    ensures |s| + |ExpiredOf(os)| == |os|
  {
    if |os| == 0 then []
    else
      var rest := Survivors(os[..|os| - 1]);
      if os[|os| - 1].timeRemaining <= 0 then rest else rest + [os[|os| - 1]]
  }

  /**
   * The second pass of `updateTimers`: for each expired order in turn, the first
   * active order with its id is spliced out and one life is charged. Returns the
   * remaining orders and the number of lives charged.
   */
  function RemoveExpired(os: seq<Order>, expired: seq<Order>): (r: (seq<Order>, nat))
    ensures |r.0| + r.1 == |os| && r.1 <= |expired|
  {
    if |expired| == 0 then (os, 0)
    else
      var index := FindOrder(os, expired[0].id);
      if index != -1 then
        var rest := RemoveExpired(RemoveAt(os, index), expired[1..]);
        (rest.0, rest.1 + 1)
      else RemoveExpired(os, expired[1..])
  }

  /** Orders appended after all the expired ids are carried through untouched. */
  lemma {:induction false} RemoveExpiredAppend(s: seq<Order>, t: seq<Order>, e: seq<Order>)
    requires forall i, j :: 0 <= i < |e| && 0 <= j < |t| ==> e[i].id != t[j].id
    ensures RemoveExpired(s + t, e).0 == RemoveExpired(s, e).0 + t
    ensures RemoveExpired(s + t, e).1 == RemoveExpired(s, e).1
    decreases |e|, 1
  {
    if |e| > 0 {
      if FindOrder(s, e[0].id) >= 0 {
        RemoveExpiredAppendFound(s, t, e);
      } else {
        RemoveExpiredAppendMissing(s, t, e);
      }
    }
  }

  /** The first expired id is found before the appended orders, at the same index. */
  lemma {:induction false} RemoveExpiredAppendFound(s: seq<Order>, t: seq<Order>, e: seq<Order>)
    requires forall i, j :: 0 <= i < |e| && 0 <= j < |t| ==> e[i].id != t[j].id
    requires |e| > 0 && FindOrder(s, e[0].id) >= 0
    ensures RemoveExpired(s + t, e).0 == RemoveExpired(s, e).0 + t
    ensures RemoveExpired(s + t, e).1 == RemoveExpired(s, e).1
    decreases |e|, 0
  {
    var id := e[0].id;
    var k := FindOrder(s, id);
    assert FindOrder(s + t, id) == k by {
      assert (s + t)[k] == s[k];
      assert forall j :: 0 <= j < k ==> (s + t)[j] == s[j];
    }
    assert RemoveAt(s + t, k) == RemoveAt(s, k) + t;
    RemoveExpiredAppend(RemoveAt(s, k), t, e[1..]);
  }

  /** The first expired id is in neither part. */
  lemma {:induction false} RemoveExpiredAppendMissing(s: seq<Order>, t: seq<Order>, e: seq<Order>)
    requires forall i, j :: 0 <= i < |e| && 0 <= j < |t| ==> e[i].id != t[j].id
    requires |e| > 0 && FindOrder(s, e[0].id) < 0
    ensures RemoveExpired(s + t, e).0 == RemoveExpired(s, e).0 + t
    ensures RemoveExpired(s + t, e).1 == RemoveExpired(s, e).1
    decreases |e|, 0
  {
    var id := e[0].id;
    assert FindOrder(s + t, id) == -1 by {
      forall j | 0 <= j < |s + t| ensures (s + t)[j].id != id {
        if j >= |s| { assert (s + t)[j] == t[j - |s|]; }
      }
    }
    RemoveExpiredAppend(s, t, e[1..]);
  }

  /** Processing one more expired id continues from where the others left off. */
  lemma {:induction false} RemoveExpiredSnoc(s: seq<Order>, e: seq<Order>, x: Order)
    ensures RemoveExpired(s, e + [x]).0 == RemoveExpired(RemoveExpired(s, e).0, [x]).0
    ensures RemoveExpired(s, e + [x]).1 == RemoveExpired(s, e).1 + RemoveExpired(RemoveExpired(s, e).0, [x]).1
  {
    if |e| == 0 {
      assert e + [x] == [x];
    } else {
      var ex := e + [x];
      assert ex[0] == e[0] && ex[1..] == e[1..] + [x];
      var k := FindOrder(s, e[0].id);
      if k != -1 {
        RemoveExpiredSnoc(RemoveAt(s, k), e[1..], x);
      } else {
        RemoveExpiredSnoc(s, e[1..], x);
      }
    }
  }

  /**
   * With distinct order ids the splice pass removes exactly the expired orders,
   * keeping the rest in order, and charges exactly one life per expired order.
   */
  lemma {:induction false} RemoveExpiredExact(os: seq<Order>)
    requires DistinctOrderIds(os)
    ensures RemoveExpired(os, ExpiredOf(os)).0 == Survivors(os)
    ensures RemoveExpired(os, ExpiredOf(os)).1 == |ExpiredOf(os)|
  {
    if |os| > 0 {
      var n := |os| - 1;
      assert os == os[..n] + [os[n]];
      assert DistinctOrderIds(os[..n]);
      RemoveExpiredExact(os[..n]);
      LastIdNotEarlier(os);
      RemoveExpiredAppend(os[..n], [os[n]], ExpiredOf(os[..n]));
      if os[n].timeRemaining <= 0 {
        RemoveExpiredLastExpired(os);
      }
    }
  }

  /** With distinct ids, no order before the last one, expired or not, has the last one's id. */
  lemma LastIdNotEarlier(os: seq<Order>)
    requires DistinctOrderIds(os) && |os| > 0
    ensures var front, x := os[..|os| - 1], os[|os| - 1];
      && (forall i, j :: 0 <= i < |ExpiredOf(front)| && 0 <= j < |[x]| ==> ExpiredOf(front)[i].id != [x][j].id)
      && (forall j :: 0 <= j < |Survivors(front)| ==> Survivors(front)[j].id != x.id)
  {
    var front, x := os[..|os| - 1], os[|os| - 1];
    forall o | o in front ensures o.id != x.id {
      var i :| 0 <= i < |front| && front[i] == o;
      assert os[i] == o;
    }
    var e, sv := ExpiredOf(front), Survivors(front);
    assert forall i :: 0 <= i < |e| ==> e[i] in front;
    assert forall j :: 0 <= j < |sv| ==> sv[j] in front;
  }

  /** The step of `RemoveExpiredExact` where the last order has expired and is spliced out last. */
  lemma {:induction false} RemoveExpiredLastExpired(os: seq<Order>)
    requires DistinctOrderIds(os) && |os| > 0 && os[|os| - 1].timeRemaining <= 0
    requires RemoveExpired(os, ExpiredOf(os[..|os| - 1])).0 == Survivors(os[..|os| - 1]) + [os[|os| - 1]]
    requires RemoveExpired(os, ExpiredOf(os[..|os| - 1])).1 == |ExpiredOf(os[..|os| - 1])|
    ensures RemoveExpired(os, ExpiredOf(os)).0 == Survivors(os)
    ensures RemoveExpired(os, ExpiredOf(os)).1 == |ExpiredOf(os)|
  {
    var n := |os| - 1;
    var front, x := os[..n], os[n];
    var e, sv := ExpiredOf(front), Survivors(front);
    RemoveExpiredSnoc(os, e, x);
    LastIdNotEarlier(os);
    assert FindOrder(sv + [x], x.id) == |sv| by {
      assert (sv + [x])[|sv|] == x;
      assert forall j :: 0 <= j < |sv| ==> (sv + [x])[j].id != x.id;
    }
    assert RemoveAt(sv + [x], |sv|) == sv;
  }

  /** Splicing never breaks distinct ids or non-negative points. */
  lemma {:induction false} RemoveExpiredKeepsWellFormed(os: seq<Order>, e: seq<Order>)
    requires OrdersWellFormed(os)
    ensures OrdersWellFormed(RemoveExpired(os, e).0)
  {
    if |e| > 0 {
      var k := FindOrder(os, e[0].id);
      if k != -1 {
        RemoveOrderKeepsWellFormed(os, k);
        RemoveExpiredKeepsWellFormed(RemoveAt(os, k), e[1..]);
      } else {
        RemoveExpiredKeepsWellFormed(os, e[1..]);
      }
    }
  }

  /** Running the clocks down keeps the ids and the points. */
  lemma DecrementedKeepsWellFormed(os: seq<Order>, delta: int)
    ensures OrdersWellFormed(os) <==> OrdersWellFormed(Decremented(os, delta))
    ensures DistinctOrderIds(os) <==> DistinctOrderIds(Decremented(os, delta))
  {
    var ds := Decremented(os, delta);
    assert forall i :: 0 <= i < |os| ==> ds[i].id == os[i].id && ds[i].points == os[i].points;
  }

  /** The first pass of `updateTimers`: every clock runs down, and the orders at or below zero are collected. */
  method RunClocks(room: Room, delta: int) returns (expired: seq<Order>)
    modifies room`activeOrders
    ensures room.activeOrders == Decremented(old(room.activeOrders), delta)
    ensures expired == ExpiredOf(room.activeOrders)
    ensures OrdersWellFormed(old(room.activeOrders)) <==> OrdersWellFormed(room.activeOrders)
    ensures DistinctOrderIds(old(room.activeOrders)) <==> DistinctOrderIds(room.activeOrders)
  {
    ghost var start := room.activeOrders;
    ghost var ds := Decremented(start, delta);
    expired := [];
    var i := 0;
    while i < |room.activeOrders|
      invariant 0 <= i <= |room.activeOrders| == |start|
      invariant forall j :: 0 <= j < i ==> room.activeOrders[j] == ds[j]
      invariant forall j :: i <= j < |start| ==> room.activeOrders[j] == start[j]
      invariant expired == ExpiredOf(ds[..i])
    {
      room.activeOrders := room.activeOrders[i := room.activeOrders[i].(timeRemaining := room.activeOrders[i].timeRemaining - delta)];
      assert ds[..i + 1][..i] == ds[..i];
      if room.activeOrders[i].timeRemaining <= 0 {
        expired := expired + [room.activeOrders[i]];
      }
      i := i + 1;
    }
    assert room.activeOrders == ds;
    assert ds[..i] == ds;
    DecrementedKeepsWellFormed(start, delta);
  }

  /** One step of the splice pass. */
  lemma RemoveExpiredStep(os: seq<Order>, e: seq<Order>)
    requires |e| > 0
    ensures var k := FindOrder(os, e[0].id);
      && (k != -1 ==> RemoveExpired(os, e).0 == RemoveExpired(RemoveAt(os, k), e[1..]).0)
      && (k != -1 ==> RemoveExpired(os, e).1 == RemoveExpired(RemoveAt(os, k), e[1..]).1 + 1)
      && (k == -1 ==> RemoveExpired(os, e).0 == RemoveExpired(os, e[1..]).0)
      && (k == -1 ==> RemoveExpired(os, e).1 == RemoveExpired(os, e[1..]).1)
  {
  }

  /** The second pass of `updateTimers`: each expired order in turn is spliced out by id, charging a life. */
  method SpliceExpired(room: Room, expired: seq<Order>)
    modifies room`activeOrders, room`lives
    ensures room.activeOrders == RemoveExpired(old(room.activeOrders), expired).0
    ensures room.lives == old(room.lives) - RemoveExpired(old(room.activeOrders), expired).1
    ensures OrdersWellFormed(old(room.activeOrders)) ==> OrdersWellFormed(room.activeOrders)
  {
    ghost var start := room.activeOrders;
    ghost var remaining, charged := RemoveExpired(room.activeOrders, expired).0, RemoveExpired(room.activeOrders, expired).1;
    assert expired[0..] == expired;
    var j := 0;
    while j < |expired|
      invariant 0 <= j <= |expired|
      invariant RemoveExpired(room.activeOrders, expired[j..]).0 == remaining
      invariant room.lives - RemoveExpired(room.activeOrders, expired[j..]).1 == old(room.lives) - charged
    {
      ghost var before := room.activeOrders;
      RemoveExpiredStep(before, expired[j..]);
      assert expired[j..][0] == expired[j] && expired[j..][1..] == expired[j + 1..];
      var index := FindOrder(room.activeOrders, expired[j].id);
      if index != -1 {
        room.activeOrders := RemoveAt(room.activeOrders, index);
        room.lives := room.lives - 1;
      }
      j := j + 1;
    }
    assert expired[j..] == [];
    if OrdersWellFormed(start) {
      RemoveExpiredKeepsWellFormed(start, expired);
    }
  }

  /**
   * `updateTimers(room, deltaSeconds)`: run every clock down, collect the orders
   * at or below zero, then splice each out by id, charging a life per splice.
   * With distinct ids (every valid room) what is left is exactly the orders with
   * time remaining, and exactly one life per expired order is charged, with no
   * floor at zero.
   */
  method UpdateTimers(room: Room, delta: int) returns (expired: seq<Order>, livesRemaining: int)
    modifies room`activeOrders, room`lives
    ensures var ds := Decremented(old(room.activeOrders), delta);
      && expired == ExpiredOf(ds)
      && room.activeOrders == RemoveExpired(ds, expired).0
      && room.lives == old(room.lives) - RemoveExpired(ds, expired).1
    ensures DistinctOrderIds(old(room.activeOrders)) ==>
      && room.activeOrders == Survivors(Decremented(old(room.activeOrders), delta))
      && room.lives == old(room.lives) - |expired|
    ensures livesRemaining == room.lives
    ensures old(room.Valid()) ==> room.Valid()
  {
    expired := RunClocks(room, delta);
    ghost var ds := room.activeOrders;
    SpliceExpired(room, expired);
    livesRemaining := room.lives;
    if DistinctOrderIds(ds) {
      RemoveExpiredExact(ds);
    }
    if old(room.Valid()) {
      room.ValidWithNewOrders();
    }
  }

  // ------------------------------------------------------------------------
  // Round status

  /**
   * `isRoundComplete(room)`: no order is left, so every dish submitted now
   * names an order that cannot be found; while orders remain the first one can.
   */
  predicate IsRoundComplete(room: Room)
    reads room
    ensures IsRoundComplete(room) ==> forall id :: FindOrder(room.activeOrders, id) == -1
    ensures !IsRoundComplete(room) ==> FindOrder(room.activeOrders, room.activeOrders[0].id) == 0
  {
    |room.activeOrders| == 0
  }

  /** `isGameOver(room)`: out of lives, or ten rounds played. */
  predicate IsGameOver(room: Room)
    reads room
  {
    room.lives <= 0 || room.round >= 10
  }

  datatype GameResults = GameResults(finalScore: int, roundsCompleted: int, livesRemaining: int, success: bool)

  /** `calculateResults(room)`. */
  function CalculateResults(room: Room): GameResults
    reads room
  {
    GameResults(room.teamScore, room.round, room.lives, room.lives > 0)
  }

  /**
   * Results are only reported for a finished game; there, success means the
   * team reached round ten with lives left, and failure means it ran out of lives.
   */
  lemma FinishedGameResults(room: Room)
    requires IsGameOver(room)
    ensures CalculateResults(room).success <==> room.round >= 10 && room.lives > 0
    ensures !CalculateResults(room).success <==> room.lives <= 0
    ensures CalculateResults(room).finalScore == room.teamScore && CalculateResults(room).roundsCompleted == room.round
  {
  }
}
