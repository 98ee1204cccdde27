# Cooperative kitchen game: room store, round engine and session handlers

This project models, in Dafny, the server core of a cooperative cooking game
in its shared-inventory / assembly-plate form, plus one client rule:

- **Room store** (`RoomStore.RoomManager`). A table from four-character room
  codes to rooms. It generates codes, creates and joins rooms (with the error
  order and reconnection), and handles leaving: in the lobby the seat is
  removed, positions are renumbered, the host is promoted and an empty room
  is deleted; in a game the seat is only marked disconnected. It also toggles
  ready flags, holds the start predicate and finds seating neighbours.
- **Round engine** (`GameLogic`). Deals ingredients by wrap-around, generates
  orders whose number and difficulty grow with the round, and validates a
  dish as multiset equality with an integer time bonus. It moves one
  ingredient between inventories, or between an inventory and a plate,
  conserving every ingredient. It runs the per-second timer step, which
  removes expired orders and charges a life for each one, and holds the
  round-complete, game-over and results rules.
- **Session handlers** (`Session`). The per-second tick and the `start-game`,
  `pass-ingredient`, `submit-dish`, `continue-round` and `disconnect`
  handlers, as transitions of the room store with the sockets taken away.
- **Catalog** (`Catalog`). The ingredient and recipe tables and their lookups.
- **Position clamp** (`Boundaries`). The safe rectangle and random placement
  inside it.
- **Client neighbour lookup** (`IngredientSharing`). In a two-player room the
  other player is on both sides; otherwise a neighbour is recognised by a
  calibration marker.

A room is a `class` (`GameModel.Room`) whose fields the store, the round
engine and the handlers reassign in place. The room table is a
`map<string, Room>` field of `RoomStore.RoomManager`. Players, orders and
plates are datatype values held in the room's sequence and map fields.
`GameModel.Room.Valid` and `RoomStore.RoomManager.Valid` are the invariants
every operation keeps:

- one to eight seats, numbered 0..n-1 in order, under distinct ids;
- the host among them;
- distinct order ids and no negative points;
- non-negative round and score;
- every room filed under its own code.

Randomness and time are parameters:

- the characters of a room code: one list of four draws in [0,1) per attempt;
- the catalog shuffle: any permutation of the ingredient ids;
- the recipe draws, each in [0,1);
- `Date.now()`, as `now`.

JavaScript numbers are modelled exactly:

- `%` follows JavaScript's sign rule;
- the time bonus `Math.floor(points * 1.2)` becomes `(6 * points) / 5`, which is exact for integer points;
- the test `timeRemaining / maxTime > 0.5` is decided on integers, `maxTime <= 0` included.

Files:

- `wrappers.dfy`: `Option`/`Result`, JavaScript number helpers.
- `lists.dfy`: first-index search, splice; the default string sort.
- `catalog.dfy`, `boundaries.dfy`, `game_model.dfy`, `game_logic.dfy`.
- `room_manager.dfy`, `session.dfy`, `ingredient_sharing.dfy`.

Behaviour of the code that the model keeps as written:

- Dealing gives each player `min(8, 5 + floor(round/2))` consecutive ids of a shuffled copy of the whole catalog, wrapping around. Nothing ties the dealt ids to the ingredients the round's orders need.
- `validateDish` checks the one order named by `orderId`. It does not look for the first active order that matches.
- Lives are not clamped at zero: several orders expiring in one tick can take them below zero.
- No code path sets the game state to `calibration`. Players hold inventories of ingredient ids.
- `start-game` and `continue-round` do not check the current game state. They only check the host and, respectively, `canStartGame` or game over.

## Model

| member | source | states |
|---|---|---|
| JsMath.ScaledIndex | server/gameLogic.js:61 | `Math.floor(r * n)` for a draw in [0,1) is an index below `n`, the floor of `r*n` |
| JsMath.Rem | server/roomManager.js:165-166 | JavaScript `%`: agrees with the mathematical remainder on non-negative operands, takes the dividend's sign and is smaller than the divisor in magnitude |
| JsMath.NatToString | server/gameLogic.js:64 | the decimal rendering of a number used in order ids is a non-empty string of digits |
| JsMath.NatToStringInjective | server/gameLogic.js:64 | distinct numbers render to distinct strings |
| Lists.IndexOf | server/gameLogic.js:154 | `indexOf`: the first index holding the value, -1 exactly when it is absent |
| Lists.RemoveAt | server/gameLogic.js:160 | `splice(i, 1)`: the elements before and after `i` in order, one fewer, the multiset less that one element |
| Lists.RemoveFirstOccurrence | server/gameLogic.js:154-160 | splicing out the first occurrence of a present value removes exactly one copy of it |
| JsSort.LexLeTotal | server/gameLogic.js:117-118 | the default string order compares any two strings |
| JsSort.LexLeAntisymmetric | server/gameLogic.js:117-118 | two strings each ordered before the other are equal |
| JsSort.LexLeTransitive | server/gameLogic.js:117-118 | the default string order is transitive |
| JsSort.Insert | server/gameLogic.js:117-118 | inserting into a sorted list keeps it sorted and adds exactly that element |
| JsSort.Sort | server/gameLogic.js:117-118 | `sort()` returns a sorted permutation of its input |
| JsSort.SortedUnique | server/gameLogic.js:117-128 | two sorted lists with the same multiset are equal, so the element-wise comparison decides multiset equality |
| JsSort.SortEqualIffSameMultiset | server/gameLogic.js:117-128 | the sorted copies are equal exactly when the two lists are equal as multisets |
| Catalog.Lookup | server/recipes.js:127-134 | a keyed lookup returns an entry filed under the key, and nothing exactly when no entry has it |
| Catalog.FilterKeepsExactly | server/recipes.js:117-119 | filtering by difficulty keeps exactly the recipes of that difficulty |
| Catalog.AllIngredientIds | server/recipes.js:112-114 | `Object.keys(ingredients)`: the table's keys in declaration order; their number is stated by `Catalog.IngredientCatalogSize` |
| Catalog.IngredientCatalogSize | server/recipes.js:2-40 | the ingredient table has 28 keys |
| Catalog.AllRecipes | server/recipes.js:122-124 | `Object.values(recipes)`: the table's entries in declaration order, listed by `Catalog.AllRecipesListed` |
| Catalog.AllRecipesListed | server/recipes.js:122-124 | `getAllRecipes()` lists the six recipes in table order |
| Catalog.RecipesByDifficulty | server/recipes.js:117-119 | the `filter` of all recipes by difficulty, in table order; `Catalog.RecipesByDifficultyExact` states what it keeps |
| Catalog.RecipesByDifficultyExact | server/recipes.js:117-119 | `getRecipesByDifficulty(d)` holds exactly the catalog recipes whose difficulty is `d` |
| Catalog.RecipeById | server/recipes.js:127-129 | the keyed lookup `recipes[id]`, nothing for an unknown key, with the properties of `Catalog.Lookup` |
| Catalog.IngredientById | server/recipes.js:132-134 | the keyed lookup `ingredients[id]`, nothing for an unknown key, with the properties of `Catalog.Lookup` |
| Catalog.EntryIdsMatchKeys | server/recipes.js:127-134 | a recipe or ingredient found under a key carries that key as its `id` |
| Catalog.RecipesAreWellFormed | server/recipes.js:43-109 | every recipe lists exactly four ingredients and has positive time and points |
| Catalog.RecipeIngredientsInCatalog | server/recipes.js:43-109 | every ingredient a recipe uses is a key of the ingredient table |
| Catalog.EveryDifficultyHasRecipes | server/recipes.js:117-119 | the easy recipes are bibimbap and kimbap; the medium ones are the other four |
| Boundaries.ConstrainPosition | server/utils/boundaries.js:28-33 | the result lies in [15,85]x[25,75], an in-bounds point is returned unchanged, and a coordinate beyond a bound is set to that bound |
| Boundaries.ConstrainIdempotent | server/utils/boundaries.js:28-33 | clamping twice is clamping once |
| Boundaries.ConstrainMonotone | server/utils/boundaries.js:28-33 | the clamp is monotone in each coordinate |
| Boundaries.RandomSafePosition | server/utils/boundaries.js:15-20 | for draws in [0,1), x is in [15,85) and y in [25,75) |
| Boundaries.RandomSafePositions | server/utils/boundaries.js:40-46 | the loop returns `count` positions (none for a negative count), each the safe position of its draws and in bounds |
| GameModel.Room.constructor | server/roomManager.js:22-41 | a new room seats the host alone at position 0, connected and not ready, in a lobby with round 0, score 0 and 3 lives |
| GameModel.FindPlayer | server/roomManager.js:88 | `findIndex` by id: the first seat with that id, -1 exactly when none has it |
| GameModel.FindOrder | server/gameLogic.js:246 | `findIndex` by order id: the first order with that id, -1 exactly when none has it |
| GameModel.SameSeatsKeepsSeating | server/gameLogic.js:160-163 | changing only what seats hold keeps positions, distinct ids, the host's seat and every id lookup |
| GameModel.RemoveOrderKeepsWellFormed | server/index.js:233-236 | splicing an order out keeps the order ids distinct and the points non-negative |
| GameLogic.IngredientsPerPlayer | server/gameLogic.js:14 | `min(8, 5 + floor(round/2))` is between 5 and 8 for a non-negative round, and 8 exactly from round 6 |
| GameLogic.DistributeIngredients | server/gameLogic.js:9-34 | the nested loops give player `i` the ids `shuffled[(i*k % len + j) % len]` for `j < k` and change nothing else about the seats |
| GameLogic.DealtProperties | server/gameLogic.js:9-34 | after dealing, seats are unchanged, every hand has 5 to 8 ids, and every id is from the catalog |
| GameLogic.Difficulties | server/gameLogic.js:42-53 | the difficulty list is never empty |
| GameLogic.SlotSchedule | server/gameLogic.js:42-57 | before round 3: two easy slots; rounds 3-4: easy, medium, easy; from round 5: easy, medium, medium |
| GameLogic.OrderIdInjective | server/gameLogic.js:64 | orders made at the same instant get distinct ids for distinct slots |
| GameLogic.OrderIdSlotDistinct | server/gameLogic.js:64 | orders of different slots get different ids even when `Date.now()` is read at different instants |
| GameLogic.PickRecipe | server/gameLogic.js:61 | the drawn recipe is one of the candidates |
| GameLogic.RecipeFoundById | server/gameLogic.js:65 | an order's `recipeId` finds its recipe again in the catalog |
| GameLogic.SlotNeverSkipped | server/gameLogic.js:58-74 | every slot's difficulty has recipes, so every slot yields an order with the recipe's fields and positive points |
| GameLogic.OrdersUpToLength | server/gameLogic.js:56-75 | the first `n` slots yield `n` orders |
| GameLogic.OrdersUpToAt | server/gameLogic.js:56-75 | order `i` is the order made from slot `i`'s difficulty and draw |
| GameLogic.OrdersUpToShape | server/gameLogic.js:56-75 | the orders have distinct ids and each matches its slot: recipe fields, time remaining equal to the maximum time, and points |
| GameLogic.GenerateOrders | server/gameLogic.js:37-79 | the loop returns exactly the schedule's orders, one per slot, with distinct ids |
| GameLogic.GeneratedOrdersShape | server/gameLogic.js:56-75 | the generated orders number `OrderCount(round)`, are well formed, and each matches its slot with positive points |
| GameLogic.ResetAssemblies | server/gameLogic.js:92-98 | the loop gives every seated player an empty plate with no target, and nothing else |
| GameLogic.InitializeRound | server/gameLogic.js:82-106 | returns `round + 1`, that round's orders, fresh plates and the active state, deals that round's hands, and keeps the room invariant |
| GameLogic.RoundBegunDeals | server/gameLogic.js:82-106 | a new round keeps seats, deals 5 to 8 ids per player, and has as many well-formed orders as the schedule says |
| GameLogic.TimeBonus | server/gameLogic.js:131-134 | the bonus test `timeRemaining / maxTime > 0.5` decided on integers by the sign of `maxTime`; `GameLogic.TimeBonusIsRatioAboveHalf` proves the two agree |
| GameLogic.TimeBonusIsRatioAboveHalf | server/gameLogic.js:132-134 | the integer bonus test is `timeRemaining / maxTime > 0.5` for every non-zero `maxTime` |
| GameLogic.DishScore | server/gameLogic.js:131-136 | with the bonus the score is the floor of `points * 1.2`; without it, the points; never below non-negative points |
| GameLogic.ExpectedDish | server/gameLogic.js:109-142 | a valid dish names an active order with the requested id |
| GameLogic.DishAcceptedIff | server/gameLogic.js:109-128 | a dish is valid exactly when the requested order exists and its required list equals the plate as multisets |
| GameLogic.ValidateDish | server/gameLogic.js:109-143 | the method's result, with its loop over the sorted lists, equals the dish rule for the room's orders |
| GameLogic.PassPlayers | server/gameLogic.js:146-173 | a pass fails with 'Player not found' or 'Ingredient not in inventory' exactly in those cases, and success keeps every seat |
| GameLogic.PassConserves | server/gameLogic.js:159-163 | a successful pass keeps the number of copies of every ingredient across all inventories |
| GameLogic.PassKeepsOthers | server/gameLogic.js:146-163 | a pass changes only the inventories of the sender and the receiver |
| GameLogic.PassBetweenTwo | server/gameLogic.js:159-163 | between two players the sender loses one copy and the receiver gains it at the end |
| GameLogic.PassToSelf | server/gameLogic.js:159-163 | a pass to oneself keeps the inventory's multiset and moves the id to the end |
| GameLogic.PassIngredient | server/gameLogic.js:146-173 | on success the room's seats become the pass's result and both players are returned; on failure nothing changes and the error is returned |
| GameLogic.AddToPlate | server/gameLogic.js:176-202 | moving to the plate fails exactly for an unknown player or an id not held, with the source's message, and success creates the plate if missing |
| GameLogic.RemoveFromPlate | server/gameLogic.js:205-230 | moving back fails exactly for a missing plate or an id not on it, with the source's message |
| GameLogic.AddToPlateConserves | server/gameLogic.js:183-196 | adding to the plate takes exactly one copy out of the inventories |
| GameLogic.AddToPlateEffect | server/gameLogic.js:183-196 | the player loses one copy, the plate gains it at the end, and every other seat and plate is unchanged |
| GameLogic.RemoveFromPlateConserves | server/gameLogic.js:210-224 | removing from the plate returns one copy to the inventories when the player is seated |
| GameLogic.RemoveFromPlateEffect | server/gameLogic.js:210-224 | the plate loses one copy, the player gets it back at the end, and every other seat and plate is unchanged |
| GameLogic.AddThenRemoveSucceeds | server/gameLogic.js:176-230 | after a successful add, removing the same id succeeds and keeps the seats |
| GameLogic.AddThenRemoveRestores | server/gameLogic.js:176-230 | add then remove of the same id restores the player's inventory and plate as multisets and leaves others alone |
| GameLogic.AddToAssembly | server/gameLogic.js:176-202 | the room's seats and plates become the add's result and the plate is returned; on failure nothing changes |
| GameLogic.RemoveFromAssembly | server/gameLogic.js:205-230 | the room's seats and plates become the remove's result and the plate is returned; on failure nothing changes |
| GameLogic.ExpiredOf | server/gameLogic.js:236-242 | every collected order is one of the orders and has no time left |
| GameLogic.Survivors | server/gameLogic.js:236-252 | the survivors are orders with time left, and survivors and expired orders together number all the orders |
| GameLogic.RemoveExpired | server/gameLogic.js:245-252 | the orders left plus the lives charged number the orders, and at most one life is charged per expired entry |
| GameLogic.RemoveExpiredExact | server/gameLogic.js:245-252 | with distinct ids the second loop leaves exactly the survivors and removes one order per expired order |
| GameLogic.RemoveExpiredKeepsWellFormed | server/gameLogic.js:245-252 | removing expired orders keeps the order list well formed |
| GameLogic.DecrementedKeepsWellFormed | server/gameLogic.js:236-237 | counting time down preserves, in both directions, well-formedness and distinct ids |
| GameLogic.RunClocks | server/gameLogic.js:236-242 | the first loop counts every order down by `delta` and collects exactly those now at or below zero; the list stays well formed, and keeps distinct ids, exactly when it was before |
| GameLogic.SpliceExpired | server/gameLogic.js:245-252 | the second loop leaves the orders and lives the literal removal gives, and keeps a well-formed order list well formed |
| GameLogic.UpdateTimers | server/gameLogic.js:233-258 | the orders are counted down, the expired ones removed and lives reduced by their number (unclamped); with distinct ids exactly the survivors remain; the invariant is kept |
| GameLogic.IsRoundComplete | server/gameLogic.js:261-263 | a round is complete when no order is left, so no order id can be found; while orders remain the first one is found at index 0. `Session.TickRoom` completes the round on exactly this test |
| GameLogic.IsGameOver | server/gameLogic.js:266-268 | the game is over when lives are at or below zero or ten rounds have been played; `Session.TickRoom` and `Session.ContinueRound` branch on it |
| GameLogic.CalculateResults | server/gameLogic.js:271-278 | the results copy score, round and lives and report success when lives remain; `GameLogic.FinishedGameResults` states what they mean for a finished game |
| GameLogic.FinishedGameResults | server/gameLogic.js:266-278 | for a finished game, success holds exactly when lives remain, which then means round 10 was reached; the score and rounds are reported |
| RoomStore.CodeShape | server/roomManager.js:9-15 | a code is four characters from the 32-letter alphabet, never 0, O, 1 or I |
| RoomStore.JoinedSeats | server/roomManager.js:61-78 | a seated id is only reconnected; a new id is appended at position `n`, connected, not ready, empty-handed |
| RoomStore.JoinedSeatsSeating | server/roomManager.js:61-81 | joining adds exactly that id and keeps positions contiguous and ids distinct |
| RoomStore.LobbyLeave | server/roomManager.js:96-102 | the seats after a lobby leave: the others in their old order, renumbered |
| RoomStore.LobbyLeaveSeating | server/roomManager.js:94-102 | after a lobby leave, positions are exactly 0..n-2, ids stay distinct, and exactly the leaver is gone |
| RoomStore.ToggledSeats | server/roomManager.js:126-129 | only that player's ready flag flips |
| RoomStore.ToggleTwiceRestores | server/roomManager.js:122-132 | toggling twice restores the seats |
| RoomStore.NonHostPlayers | server/roomManager.js:141 | the filter keeps exactly the seats not held by the host |
| RoomStore.AtPosition | server/roomManager.js:169-170 | `find` by position: a seat at that position, none exactly when none is there |
| RoomStore.AtSeat | server/roomManager.js:169-170 | with contiguous positions, `find` by a seat index returns the seat at that index |
| RoomStore.SeatNeighbors | server/roomManager.js:161-171 | none exactly for an unseated id; a neighbour found sits at `(p-1+n)%n` or `(p+1)%n` |
| RoomStore.ContiguousNeighbors | server/roomManager.js:161-171 | with contiguous positions the neighbours are the seats just before and just after the caller's, wrapping round at both ends |
| RoomStore.SeatedNeighbors | server/roomManager.js:164-171 | in a well-seated room both neighbours exist; with two players both are the other player, with one both are the player |
| RoomStore.RoomManager.constructor | server/roomManager.js:4-6 | a new store holds no rooms |
| RoomStore.RoomManager.GenerateRoomCode | server/roomManager.js:8-18 | the retry loop returns the first attempt not already a key, and every earlier attempt was taken |
| RoomStore.RoomManager.CreateRoom | server/roomManager.js:20-45 | a fresh room under a fresh code is added, with the host seated alone in a new lobby, and the store invariant is kept |
| RoomStore.RoomManager.JoinRoom | server/roomManager.js:47-82 | errors come in the source's order (not found, full, in progress) with nothing changed; otherwise the seats become the joined seats |
| RoomStore.RoomManager.LeaveRoom | server/roomManager.js:84-120 | unknown room or player: nothing changes; lobby: the seat is removed, seats renumbered, the host promoted, an empty room deleted; game: only `connected` is cleared |
| RoomStore.RoomManager.MarkDisconnected | server/roomManager.js:114-117 | only that seat's `connected` is cleared, and the room invariant is kept |
| RoomStore.RoomManager.LeaveLobby | server/roomManager.js:94-108 | the seat is spliced out, the rest renumbered, and a leaving host replaced by the new first seat |
| RoomStore.RoomManager.ToggleReady | server/roomManager.js:122-132 | the seats become the toggled seats; null for an unknown room or player, which changes nothing |
| RoomStore.RoomManager.CanStartGame | server/roomManager.js:134-143 | true exactly when the room exists, seats at least two, and every non-host player is ready |
| RoomStore.RoomManager.UpdateRoom | server/roomManager.js:149-155 | the round fields are copied into the room; null for an unknown code |
| RoomStore.RoomManager.AllRooms | server/roomManager.js:174-176 | lists exactly the stored rooms, each once when every room is filed under its own code |
| RoomStore.RoomManager.GetPlayerNeighbors | server/roomManager.js:157-172 | null exactly for an unknown room or player; in a well-seated room both neighbours exist |
| Session.TickRoom | server/index.js:50-78 | one tick runs the timer step, then ends the game if it is over, otherwise completes the round if no orders remain, otherwise stays active |
| Session.Tick | server/index.js:42-81 | a tick on a missing or inactive room stops the timer and changes nothing; otherwise it is the room tick |
| Session.StartGame | server/index.js:131-161 | refused with the source's message, changing nothing, unless the room exists, the requester hosts and `canStartGame` holds; then the next round begins |
| Session.NextRound | server/index.js:151-152 | `initializeRound` followed by `updateRoom` begins the next round in the stored room |
| Session.Recipient | server/index.js:172 | the pass goes to the left neighbour for `'left'` and to the right one for any other direction; `Session.PassToNeighbor` states the pass it makes |
| Session.ContinueRound | server/index.js:260-282 | ignored unless the requester hosts, refused while the game is over, otherwise the next round begins |
| Session.PassToNeighbor | server/index.js:164-187 | the ingredient goes to the left neighbour for 'left' and to the right one otherwise, with the pass's result; an unknown room or player changes nothing |
| Session.SubmitDish | server/index.js:220-257 | no plate: nothing; an invalid dish: nothing; a valid one removes that order, adds its score and clears the plate, so the score never drops |
| Session.LeaveEffect | server/roomManager.js:84-120 | a leave leaves a room that did not seat the player as it was; a lobby loses exactly that seat and keeps a seated host; a game keeps its seats and host and only that seat turns disconnected |
| Session.LeaveIfSeated | server/index.js:291-293 | one room of the sweep ends with the seats and host `leaveRoom` leaves it and is kept exactly when seats remain |
| Session.LeaveSeated | server/roomManager.js:84-120 | `leaveRoom` for a seated player: the seats and host become the leave's result, the store invariant is kept, and the room is kept exactly when seats remain |
| Session.SweepStep | server/index.js:290-302 | visiting the next listed room keeps the sweep's bookkeeping: visited rooms have their planned seats, the rest are untouched |
| Session.Disconnect | server/index.js:285-303 | every room ends with the seats and host `leaveRoom` leaves it, an emptied room is gone, no room is added, and the store invariant is kept |
| IngredientSharing.Find | client/src/hooks/useIngredientSharing.js:14 | `find` returns the first player passing the test, and nothing exactly when none passes |
| IngredientSharing.Neighbors | client/src/hooks/useIngredientSharing.js:11-40 | `getPlayerNeighbors()`: both null without a room, an id or a seat for it; the other player on both sides with two players; otherwise the players calibrated with the caller's markers. The lemmas below state each case |
| IngredientSharing.CanShareWith | client/src/hooks/useIngredientSharing.js:42-45 | `canShareWith(direction)`: a left neighbour exists for `'left'`, a right one otherwise; `IngredientSharing.TwoPlayerNeighbors` and `IngredientSharing.CalibratedNeighbors` say when |
| IngredientSharing.UnplacedHasNoNeighbors | client/src/hooks/useIngredientSharing.js:12-15 | both sides are null, with no two-player flag, exactly when there is no room, no id, or no seat with that id |
| IngredientSharing.TwoPlayerNeighbors | client/src/hooks/useIngredientSharing.js:18-24 | in a two-player room both sides are the same player; with distinct ids it is the other player and both directions can be shared with |
| IngredientSharing.CalibratedNeighbors | client/src/hooks/useIngredientSharing.js:28-45 | otherwise a side is the first player calibrated with the caller's marker for it, and `canShareWith` holds exactly when some player carries that marker |
| IngredientSharing.NeighborsAreSeated | client/src/hooks/useIngredientSharing.js:19-33 | a neighbour returned is always one of the room's players |

## Left out

- Sockets, emits and broadcasts, `console.log`, CORS and the health route: the handlers return a value instead of emitting.
- The interval timer and its per-room map: a single tick is one call of `Session.Tick`, and the timer state is its result.
- The thin `create-room`, `join-room`, `toggle-ready`, `add-to-assembly` and `remove-from-assembly` handlers. Each only calls the store or engine operation, which is modelled, and emits the result.
- `getRoom`: it is the map lookup the model uses directly.
- Randomness, shuffling and the clock: all are parameters. The shuffle is any permutation of the catalog. The fairness of `sort(() => Math.random() - 0.5)` is not modelled.
- `Math.floor(points * 1.2)` is taken as `(6 * points) / 5`, the exact value. Floating-point rounding is not modelled; for the catalog's points (100, 120, 130) the two agree.
- The room fields `gameStartTime` and `orderTimers`: nothing in the core reads them.
- Player names are carried but never constrained.
- Player records are shared between `room.players` and the values that `find` returns. The model copies them, so a handler's effect is stated on the room's sequence.
- `getAllRooms()` lists the rooms in the table's insertion order. The model lists them in an unspecified order, and `Session.Disconnect` does not depend on it.
- `pass-ingredient` with a missing neighbour throws a `TypeError` in the source. The model returns without a change.
  - That case cannot arise in a room that keeps its invariant, as `RoomStore.SeatedNeighbors` shows.
- JavaScript's default `sort` compares UTF-16 code units. The model compares characters, which is the same for the catalog's ASCII ids.
- On the client, `null` and `undefined` markers are not told apart: a marker is either a string or absent. The floating-token and calibration flows have no server handler and are not modelled.
- Session.Disconnect: stated for a store that satisfies `RoomStore.RoomManager.Valid`. Every store operation keeps that invariant, and the sweep relies on it to know that rooms are filed under distinct codes.
- Catalog.EntryIdsMatchKeys: stated per key. That the keys of each table are distinct is not stated separately.
- GameLogic.NewOrder: every `Date.now()` reading within one `generateOrders` call is taken as the same instant `now`. The order's `createdAt` is never read by the core. Ids stay distinct through their `_${i}` suffix whatever the readings are, as `GameLogic.OrderIdSlotDistinct` shows.
