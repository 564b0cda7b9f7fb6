# Velocity Idle — a verified model of the game core

Velocity Idle is an idle game. The player builds a vehicle on a 10x10 board
out of parts: engines, wheels, frames and boosters. The board's velocity
advances the distance, drips materials from the current area, moves the
vehicle into faster areas and unlocks new parts. Materials buy parts and
research techs. This project models the game's sequential logic over real
numbers and proves what it guarantees.

| file | models |
|---|---|
| `optional.dfy` | the `Option` type used for `null`/absent values |
| `catalog.dfy` | `MasterData` of `js/data.js`: materials, the eight parts (as a map keyed by id and as the declaration-order list `Object.values` yields), the four areas |
| `board.dfy` | the board as a row-major sequence of 100 cells; the velocity rule of `Grid.getVelocity` as functions; neighbour, sign, power-form and parts-multiset lemmas; worked examples |
| `grid.dfy` | class `Grid` of `js/grid.js` over an `array2`, with its loops proved against `board.dfy` |
| `ledger.dfy` | the resource map and the debit loop shared by purchase and research |
| `progression.dfy` | class `Game` of `js/game.js`: initial state, `update(dt)` (velocity, distance, drip, area, unlocks), `checkUnlocks`, `buyPart`; the function `Tick` that specifies one update |
| `research.dfy` | class `TechManager` of `js/tech.js`: the research gate and debit, and the four effect queries as one fold |
| `interaction.dfy` | the state effects of `UIManager` in `js/ui.js`: inventory append, drag-and-drop between inventory and board, right-click removal, area click, shop filter |

Design points:

- The part table the grid and the game read is the `parts` field of each, set to `Catalog.Parts` by the game's constructor.
  - `Game.Valid` keeps it equal to the table of the list `Object.values(parts)` that `checkUnlocks` walks. By `Catalog.CatalogIsTableOfList`, that table is `Catalog.Parts`.
  - Velocity lemmas are stated for any table `cat`.
  - Lemmas that need more than its shape assume `WellFormed(cat)`. `Catalog.CatalogWellFormed` proves that the real catalog meets it.
- JavaScript numbers are modelled as exact `real`s.
- The board must name only catalog parts (`CatalogOnly`, part of `Game.Valid`).
  - `getVelocity` looks up every neighbour of an engine without a guard, so an unknown id there would crash it.
  - `Resolvable` is exactly the no-crash condition, and `CatalogOnly` implies it.
- Every catalog material has a ledger entry (`Ledgered`, part of `Game.Valid`).
  - The constructor creates all four entries and nothing removes one.
  - So the source's `resources[id] < cost` never compares `undefined`.
- `game.js` and `ui.js` call each other; the model breaks the cycle.
  - `Game` holds no `UIManager`.
  - `BuyPart` performs the state effect of `addInventoryItem` itself: an append to `inventory`.
- What the code does with areas, unlocks and the start state:
  - after every tick, `update` sets the current area to the last area whose threshold the current velocity reaches, by a reversed search of the area list (`js/game.js:84-91`); the player does not choose it;
  - `checkUnlocks` compares each part's unlock velocity with the current velocity (`js/game.js:96-112`);
  - no maximum velocity is tracked, and there is no win condition;
  - the constructor's starting unlocks include `booster_basic` (`js/game.js:29-30`), although its unlock velocity is 100.

## Model

| member | source | states |
|---|---|---|
| Catalog.PartKeysAreIds | js/data.js:8-89 | every key of `parts` is the `id` of the part stored under it |
| Catalog.PartListMatchesMap | js/data.js:8-89 | the declaration-order list `Object.values(parts)` and the map hold the same parts, with distinct ids |
| Catalog.CatalogIsTableOfList | js/data.js:8-89 | the part map is exactly the table of its declaration-order list; `Game.Valid` ties the game's table to that list, so the table the game reads is the one its unlock loop walks |
| Catalog.PartStats | js/data.js:12-87 | every base and unlock velocity is non-negative; every engine's base velocity is positive |
| Catalog.StarterTypes | js/data.js:9-77 | the four starter parts are an engine, a wheel, a frame and a booster |
| Catalog.BaseVelocities | js/data.js:13-83 | `engine_basic` moves 10, `engine_v2` 50; `wheel_basic`, every frame and every booster 0 |
| Catalog.AreasAscending | js/data.js:90-119 | the first area's threshold is 0 and thresholds strictly ascend in list order |
| Catalog.MaterialsDeclared | js/data.js:2-119 | the material ids are those of the material list, and every area's primary drop is one of them |
| Catalog.CostsDeclared | js/data.js:8-89 | every part cost names declared materials, each at most once, with positive amounts |
| Catalog.CatalogWellFormed | js/data.js:2-89 | the catalog's part table is well-formed: non-negative stats, moving engines, declared positive costs |
| BoardSpec.PlaceEffect | js/grid.js:22-26 | an in-bounds place overwrites exactly the addressed cell, occupied or not; off the board nothing changes |
| BoardSpec.RemoveEffect | js/grid.js:28-32 | a remove empties exactly the addressed cell, and removing twice is removing once |
| BoardSpec.PlaceThenRemove | js/grid.js:22-32 | place then remove equals remove, and it restores a cell that was empty |
| BoardSpec.NeighboursAreOrthogonal | js/grid.js:92-109 | the neighbours are at most four, each is an occupied in-bounds cell one step up, down, left or right, and no such cell is missed |
| BoardSpec.DirsMembers | js/grid.js:94-106 | the occupied directions are exactly those of the four whose cell is on the board and occupied, and the directions of type `t` exactly those whose cell holds a part of type `t` |
| BoardSpec.NeighboursUpToLength | js/grid.js:101-108 | the neighbour list has one entry per occupied direction, so two cells holding the same part give two entries |
| BoardSpec.KnownAroundIsAllKnown | js/grid.js:69-71 | the part table lists every entry of the neighbour list exactly when it lists the part in every occupied adjacent cell, so the lookup of each neighbour succeeds |
| BoardSpec.NeighboursUpToCount | js/grid.js:101-108 | the number of neighbour entries of type `t` is the number of directions whose cell holds a part of type `t` |
| BoardSpec.SynergyCountsCells | js/grid.js:66-81 | an engine's neighbour multiplier is that of as many boosters as there are adjacent booster cells and as many frames as there are adjacent frame cells |
| BoardSpec.SynergyProductIsPowers | js/grid.js:66-81 | the neighbour multiplier depends only on how many boosters and frames are adjacent, not on their order |
| BoardSpec.MultiplierIsPowers | js/grid.js:73-80 | the multiplier of `nb` boosters and `nf` frames is `2.0^nb * 1.2^nf` |
| BoardSpec.SynergyProductAtLeastOne | js/grid.js:66-81 | no neighbour lowers an engine's velocity: the multiplier is at least 1 |
| BoardSpec.ContributionSign | js/grid.js:63-84 | a cell contributes a positive amount exactly when it holds an engine, and 0 otherwise |
| BoardSpec.EngineTotalSign | js/grid.js:49-86 | the running engine total is non-negative, and 0 exactly when no engine has been scanned |
| BoardSpec.VelocitySign | js/grid.js:44-90 | the velocity is never negative, and it is 0 exactly when the board holds no engine |
| BoardSpec.CatalogOnlyIsResolvable | js/grid.js:54-71 | a board naming only table parts never makes the velocity scan look up an unknown neighbour |
| BoardSpec.LoneEngineVelocity | js/grid.js:44-90 | a lone `engine_basic` moves at 10 |
| BoardSpec.FrameAboveVelocity | js/grid.js:44-90 | adding a `frame_basic` above it gives 12 |
| BoardSpec.FrameAndBoosterVelocity | js/grid.js:44-90 | adding a `booster_basic` below as well gives 24 |
| BoardSpec.EngineAndWheelVelocity | js/grid.js:44-90 | a lone `engine_basic` with one `wheel_basic` anywhere else gives 11 |
| BoardSpec.PlacedPartsUpdate | js/grid.js:22-32 | overwriting one cell trades its old part for the new one in the multiset of placed parts |
| GridEngine.Grid.constructor | js/grid.js:4-9 | the new grid has no rows yet |
| GridEngine.Grid.Init | js/grid.js:11-20 | filling an empty grid yields 10 rows of 10 empty cells |
| GridEngine.Grid.GetPartAt | js/grid.js:34-41 | the cell at `(x, y)`, and `null` for every off-board position |
| GridEngine.Grid.PlacePart | js/grid.js:22-26 | returns whether `(x, y)` is on the board; an on-board cell then holds the part, and nothing else changes |
| GridEngine.Grid.RemovePart | js/grid.js:28-32 | returns whether `(x, y)` is on the board; the cell is empty afterwards, and nothing else changes |
| GridEngine.Grid.GetNeighbors | js/grid.js:92-109 | the loop collects exactly the occupied on-board orthogonal neighbours in up, down, left, right order, at most four |
| GridEngine.Grid.GetVelocity | js/grid.js:44-90 | the board's velocity; never negative, and 0 exactly when there is no engine |
| GridEngine.Grid.ScanBoard | js/grid.js:45-86 | the nested loops compute the sum of engine contributions and `1 + 0.1 * wheels` |
| GridEngine.Grid.ScanRow | js/grid.js:50-85 | one row extends the running total and multiplier by that row's cells |
| GridEngine.Grid.ScanCell | js/grid.js:51-84 | an empty cell or unknown id is skipped; a wheel adds 0.1; an engine adds its contribution |
| GridEngine.Grid.EngineContribution | js/grid.js:64-83 | an engine contributes its base velocity times its neighbour multiplier |
| GridEngine.Grid.SynergyMultiplier | js/grid.js:66-81 | the neighbour loop yields `2.0` per adjacent booster times `1.2` per adjacent frame |
| GridEngine.Grid.ExportState | js/grid.js:112-114 | the snapshot is the board's 10 rows of 10 cells |
| GridEngine.Grid.ImportState | js/grid.js:116-119 | a snapshot becomes the board; a missing one leaves the board as it is |
| Ledger.Debit | js/game.js:127-129 | the debit loop keeps the set of ledger materials |
| Ledger.DebitEffect | js/game.js:127-129 | a debit lowers every material by exactly the total the cost charges for it |
| Ledger.DebitExact | js/tech.js:39-42 | with distinct keys, each cost entry is taken once from its material, and every other material is unchanged |
| Ledger.DebitSolvent | js/game.js:118-129 | a debit the ledger covers leaves no amount negative |
| Progression.FindArea | js/game.js:75-76 | the area with the given id, or none when no area has it |
| Progression.LastReachableSpec | js/game.js:88 | the reversed search finds an area exactly when some threshold is reached, and it is the last reached one in list order |
| Progression.HighestReachable | js/game.js:88-91 | every non-negative velocity selects the reached area with the highest threshold |
| Progression.ReachableMonotone | js/game.js:88-91 | a higher velocity never selects an area with a lower threshold |
| Progression.AreaFollowsVelocity | js/game.js:84-91 | at 0 the area is the scrap yard, at 150 the highway, back at 50 the scrap yard again, at 10000 orbit |
| Progression.DropTarget | js/game.js:74-80 | the drip goes to a declared material only when the vehicle moves and the current area exists |
| Progression.DropAmountNonNegative | js/game.js:77-78 | `0.5 * (1 + v * 0.01) * dt` is non-negative for non-negative `v` and `dt` |
| Progression.Dripped | js/game.js:73-82 | exactly the drip amount is added to the drop target, and every other material is unchanged |
| Progression.DrippedSolvent | js/game.js:73-82 | the drip keeps every amount non-negative |
| Progression.UnlockFoldExtends | js/game.js:96-112 | the unlock list only grows: the old list is a prefix of the new one |
| Progression.UnlockFoldMembers | js/game.js:96-112 | afterwards an id is unlocked exactly when it was already, or some part with that id unlocks at the velocity |
| Progression.UnlockFoldNoDup | js/game.js:96-112 | the unlock loop never adds an id twice |
| Progression.UnlockFoldSaturated | js/game.js:96-112 | when every eligible part is unlocked, the loop changes nothing |
| Progression.UnlockFoldIdempotent | js/game.js:96-112 | a second unlock pass at the same velocity changes nothing |
| Progression.TickMonotone | js/game.js:63-82 | over a non-negative tick the distance never decreases and no amount becomes negative |
| Progression.TickArea | js/game.js:84-91 | after a tick the area is the reached catalog area with the highest threshold |
| Progression.TickUnlocks | js/game.js:93-112 | a tick keeps the old unlocks as a prefix, adds no duplicate, and unlocks every part the velocity reaches |
| Progression.Game.constructor | js/game.js:6-31 | velocity and distance 0, every material at 0, the four starter unlocks, three starter parts, the scrap yard |
| Progression.Game.Init | js/game.js:33-36 | filling the board makes the state valid, with an empty board held in a freshly allocated array that the caller may change |
| Progression.Game.CheckUnlocks | js/game.js:96-112 | the loop appends, in catalog order, every part the velocity unlocks and that is not yet unlocked; nothing else changes |
| Progression.Game.Update | js/game.js:63-94 | the update is `Tick` at the board's velocity; the velocity is never negative and 0 exactly without engines |
| Progression.Game.Settle | js/game.js:73-93 | drip, area selection and unlocks, in that order, at the velocity already taken |
| Progression.Game.Advance | js/game.js:64-71 | the velocity becomes the board's, and the distance grows by velocity times `dt` |
| Progression.Game.SelectArea | js/game.js:88-91 | the current area becomes the last one whose threshold the velocity reaches |
| Progression.Game.Drip | js/game.js:73-82 | a moving vehicle adds the drip amount to the current area's primary drop |
| Progression.Game.BuyPart | js/game.js:114-133 | unknown id or an uncovered cost: no change; otherwise the cost is debited exactly and the part appended once; no amount becomes negative |
| Progression.Game.Affords | js/game.js:118-124 | the check loop answers whether the ledger covers every cost entry |
| Progression.Game.Deduct | js/game.js:126-129 | the deduction loop is the debit of the cost |
| Research.ResearchablePayable | js/tech.js:26-42 | a researchable tech's cost names only held materials and is covered, so the debit is defined |
| Research.AggregateNoMatch | js/tech.js:55-97 | with no matching effect, a product query is 1.0 and the booster sum 0.0 |
| Research.AggregateAppend | js/tech.js:55-97 | one more researched tech combines its value into the answer when it matches, and leaves it otherwise |
| Research.AggregatePermutation | js/tech.js:55-97 | every query's answer is independent of the order of the researched list |
| Research.AggregateSign | js/tech.js:55-97 | positive matching values give a positive product; the booster sum is non-negative |
| Research.TechManager.constructor | js/tech.js:4-10 | creates an empty researched list only when none exists, and keeps an existing one |
| Research.TechManager.CanResearch | js/tech.js:13-32 | true exactly when the tech is new, known, its prerequisites are researched and every cost is held, a missing amount counting as 0 |
| Research.TechManager.DoResearch | js/tech.js:34-50 | refused: no change; accepted: exact debit and a single append; after it, the tech cannot be researched again; no duplicates, no negative amount |
| Research.TechManager.Consume | js/tech.js:39-42 | the consume loop is the debit of the cost |
| Research.TechManager.Accumulate | js/tech.js:55-97 | the `forEach` loop computes the fold over the researched list |
| Research.TechManager.GetEngineMultiplier | js/tech.js:55-64 | the product of the researched engine multipliers |
| Research.TechManager.GetBoosterSynergyBonus | js/tech.js:66-75 | the sum of the researched booster buffs |
| Research.TechManager.GetGlobalMultiplier | js/tech.js:77-86 | the product of the researched global multipliers |
| Research.TechManager.GetCostMultiplier | js/tech.js:88-97 | the product of the researched cost reductions aimed at the given part |
| Interaction.ShopParts | js/ui.js:131 | the filter never lists more parts than the catalog holds |
| Interaction.ShopMembers | js/ui.js:131 | the shop lists a part exactly when the catalog has it and it is unlocked |
| Interaction.StarterShop | js/ui.js:131 | the shop of a new game offers the four starter parts, in catalog order |
| Interaction.Splice | js/ui.js:329 | `splice(i, 1)` removes exactly the part at `i`, or nothing past the end |
| Interaction.InventoryDropConserves | js/ui.js:318-332 | placing the dragged inventory part on an empty cell and splicing it out keeps every part |
| Interaction.ReturnConserves | js/ui.js:212-219 | taking a part off the board into the inventory keeps every part |
| Interaction.MoveConserves | js/ui.js:333-347 | a move or swap on the board keeps the multiset of placed parts |
| Interaction.MoveCatalogued | js/ui.js:333-347 | a move keeps a board that names only catalog parts so |
| Interaction.MoveEffect | js/ui.js:333-347 | the dragged part lands on the target, the former occupant (or nothing) on the source, every other cell is unchanged, and a drop onto the part's own cell is a no-op |
| Interaction.UIManager.constructor | js/ui.js:4-19 | nothing is being dragged |
| Interaction.UIManager.AddInventoryItem | js/ui.js:171-175 | exactly one id is appended at the end of the inventory |
| Interaction.UIManager.HandleDragStart | js/ui.js:292-297 | the drag data is remembered |
| Interaction.UIManager.HandleDrop | js/ui.js:299-352 | no drag: no change; onto an occupied cell: refused, drag kept; onto an empty cell: placed and spliced; from the board: move or swap; every part is kept |
| Interaction.UIManager.DropFromInventory | js/ui.js:318-332 | refused exactly on an occupied cell; otherwise the part is placed and its slot spliced out |
| Interaction.UIManager.MoveOnGrid | js/ui.js:333-347 | remove, put the former occupant back at the source, place: the board becomes `Move`, and keeps its parts |
| Interaction.UIManager.HandleInventoryDrop | js/ui.js:265-278 | a part dragged from the board leaves its cell and is appended to the inventory; anything else changes nothing |
| Interaction.UIManager.RightClick | js/ui.js:212-219 | an occupied cell is emptied and its part appended to the inventory; an empty cell changes nothing; every part is kept |
| Interaction.UIManager.ClickArea | js/ui.js:234-245 | the area is selected exactly when it is not active and the recorded maximum velocity reaches its threshold; with no record nothing changes |
| Interaction.NewGame | js/main.js:4-5 | `new Game()` then `init()` gives a valid game on an empty board, at distance 0, holding the three starter parts |
| Interaction.DropFirstEngine | js/ui.js:299-332 | dragging the first inventory slot of a new game onto `(5, 5)` leaves a lone `engine_basic` there and the other two parts in the inventory |
| Interaction.FirstEngine | js/game.js:63-71 | a new game with its starter engine dropped onto `(5, 5)` moves at 10 and has covered 10 after one second |

## Left out

- Rendering, the DOM, the animation loop (`Game.loop`, `requestAnimationFrame`), auto-save timers and `save`/`load` through `localStorage`: I/O and timers.
- Part symbols, area background gradients and display names in the UI: display only.
- Floating-point rounding: numbers are exact reals.
- `Game.init` beyond filling the board: its logging, load attempt, UI start-up and timers are I/O. `Progression.Game.Init` models only `grid.init()`.
- GridEngine.Grid.Init: requires a grid that was never filled. A second call would append ten unreachable rows to the source's array, which the fixed-size array does not represent.
- GridEngine.Grid.GetVelocity: its sign and zero guarantee is stated for a well-formed part table (engines move, stats non-negative). The game's table is proved well-formed.
- Progression.Game.Update: requires a board that names only catalog parts, which every modelled operation keeps. With an unknown id next to an engine the source would throw.
- Progression.Game.BuyPart: assumes every catalog material has a ledger entry. With a missing entry the source's `undefined < cost` is false, and the debit would store `NaN`. The constructor creates every entry, so this is unreachable.
- Research.TechManager.DoResearch: requires a tech table whose costs have distinct keys and positive amounts. `MasterData.techs` is not part of this model, so the table is a parameter. With a non-positive amount for an absent material, the source would store `NaN`.
- A tech without `req` is modelled with an empty prerequisite list. A tech without `effect` is modelled as `None`.
- Research.TechManager.Accumulate: requires every researched id to be in the tech table. The source would throw on `tech.effect` of an unknown id.
- Interaction.UIManager.HandleDrop: conservation of parts is stated for drag data that still describes the state and for on-board targets. The UI only offers board cells as targets and re-renders after every change.
- Interaction.UIManager.ClickArea: the area list decides which areas are clickable when it renders; the model checks the same condition at click time. `maxVelocity` is never written by the game, so no area can be selected by click.
- The shop's purchase buttons, resource display and inventory rendering are display only. Their state effects are `BuyPart` and `AddInventoryItem`.
