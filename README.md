# Solo-snake move engine, modelled in Dafny

This project models the move-decision engine of the Solo-snake Battlesnake bot, found in `api/index.py`. The model covers one turn:
- it receives a snapshot of the board: its size, the food, the bodies of all listed snakes, and the controlled snake;
- it computes four direction values;
- it answers with the direction whose value is highest.

The engine has four parts.

- **Occupancy grid and flood fill** (module `Flood`, file `flood.dfy`).
  - `get_flood_fill_area` builds a width × height 0/1 grid. Every segment of every listed snake is marked, and so is the controlled snake's body without its last five segments.
  - `flood_fill` then counts the open cells 4-connected to the head. It keeps a `visited` matrix and changes it in place as it recurses.
  - The model keeps that form: the grid is a list of lists, `visited` is an `array2<bool>`, and `FloodFill` is a recursive method.
  - The count is proved equal to `Reach.Area`, the number of free cells that the start can reach through free cells.
  - The board lists the controlled snake among its snakes, so its head is always marked. The area, and with it the flood-fill bonus, is then 0. This is proved (`Flood.HeadListedNoArea`, `Scoring.FloodBonusVanishes`).
- **Breadth-first search to food** (module `Search`, file `search.dfy`).
  - The search is a method with a FIFO queue (`seq`), a visited set and a parent map.
  - It expands neighbours in the order up, down, right, left. It rebuilds the path by following parent links, then reverses it.
  - The contract:
    - the path is empty exactly when no food is reachable through free cells;
    - otherwise it is a free path from the start to food;
    - no free path to food is shorter.
  - The proof carries a ghost distance map that ties the queue to the breadth-first levels `Reach.Within`.
- **Scoring** (module `Scoring`, file `scoring.dfy`). Each rule of `move` is a small method that adds its term to the four values. The terms are:
  - the neck penalty;
  - the border and close-border penalties;
  - the own-body and second-snake-body penalties;
  - the head-on term;
  - one food bonus per item;
  - the flood-fill bonus.

  `Scoring.Move` runs the rules in the source's order and is proved equal to the function `Scoring.Decision`. Lemmas state what each rule means on the board.
- **Decision rule.** `Scoring.Choose` takes the arg-max of the four values, with ties going to right, then left, then up, then down. Its contract states both properties, and `ChooseUnique` shows that they single the choice out.

Modelling choices:
- The number of snakes the game started with is the parameter `count` of `Move`. The source keeps it in a global set at game start.
- `opponents[1]` is the second listed snake, exactly as in the source, whether or not that snake is the controlled one.
- When `count >= 2` and fewer than two snakes are listed, the source raises an `IndexError` at line 181, and the model answers `IndexError`.
- The direction values are exact `real`s.
- `Wrappers` holds `Option`. `Geometry` holds cells, directions and Manhattan distance. `Board` holds the snapshot and the two occupancy views. `Reach` holds the reference definitions (breadth-first levels, reachability, area, shortest path length). `FoodMatch` holds the food test of the search, over Python values.

## Model

| member | source | states |
|---|---|---|
| Geometry.Step | api/index.py:170-177 | a move changes the Manhattan distance by exactly one |
| Geometry.AdjacentIsStep | api/index.py:117-118 | two cells share an edge exactly when one is a move of the other in one of the four search directions |
| Board.MarkedPrefix | api/index.py:94 | `body[:-5]` is a prefix of the body that leaves out exactly its last five segments, or all of them when there are at most five; every marked cell is a segment, and every segment before the last five is marked |
| Board.FloodGridBlocksLess | api/index.py:89-95 | the flood-fill grid blocks no cell that the search grid leaves open |
| Flood.FloodFill | api/index.py:79-83 | the count equals the number of newly visited cells; those cells are free and reachable from the start, and all their free neighbours are visited; nothing is counted when the start is off the board, occupied or already visited; `visited` tracks exactly the visited set |
| Flood.Neighbour | api/index.py:83 | one recursive call on a neighbour extends the progress of the call on the cell |
| Flood.FillIsArea | api/index.py:79-83 | a flood fill from an unvisited board counts exactly the area reachable from the start |
| Flood.MarkAll | api/index.py:89-95 | marks exactly the cells listed and leaves every other cell as it was |
| Flood.MarkOccupied | api/index.py:86-95 | the occupancy grid is width × height and holds 1 exactly on the cells the flood-fill grid blocks |
| Flood.GetFloodFillArea | api/index.py:85-98 | returns the area reachable from the head on the flood-fill grid, at most the number of free cells |
| Flood.HeadListedNoArea | api/index.py:89-98 | when the head lies on a listed snake's body, the area is 0 |
| Reach.ReachesIffPath | api/index.py:117-124 | a cell is reachable through the breadth-first levels exactly when some free path leads to it |
| Reach.ShortestPathLengthMeaning | api/index.py:107-125 | absent exactly when no free path ends at the target; otherwise some free path has that length and none is shorter |
| Reach.ObstacleFreeShortest | api/index.py:107-125 | on a board free everywhere but the start, the shortest path length is the Manhattan distance plus one |
| Reach.WithinManhattan | api/index.py:117-124 | every cell on level k is at most k moves from the start |
| Reach.AreaIsolated | api/index.py:79-83 | a free cell whose four neighbours are not free has area exactly 1 |
| Reach.AreaBounded | api/index.py:79-83 | the area never exceeds the number of free cells |
| Search.Unobstructed | api/index.py:121 | the cell lies in no listed body and not in the controlled body exactly when the search grid leaves it open |
| Search.Enqueueable | api/index.py:119-121 | the search enqueues a cell exactly when it is free and not yet visited |
| Search.NewcomersMeaning | api/index.py:117-124 | the enqueued neighbours are exactly the free, unvisited neighbours in the directions tried |
| Search.VisitNeighbours | api/index.py:117-124 | appends the newcomers to the queue and the visited set, and makes the current cell their parent |
| Search.TracePath | api/index.py:110-115 | following the parents from the target and reversing gives a free path from the start to the target, one cell longer than the target's depth |
| Search.Expansion | api/index.py:107-124 | one iteration that does not meet food keeps the search invariant and finishes one more cell |
| Search.BfsShortestPath | api/index.py:100-125 | empty exactly when no food is reachable; otherwise a free path from the start that ends on food, and no free path to food is shorter |
| Search.StartIsFood | api/index.py:107-115 | when the start is food, the path is `[start]` |
| FoodMatch.FoodTestAsWritten | api/index.py:109 | looking the cell's tuple up among food dictionaries never succeeds |
| FoodMatch.FoodTest | api/index.py:109 | looking the cell's dictionary up among food dictionaries succeeds exactly for the listed cells |
| FoodMatch.ShortestPathAsWritten | api/index.py:221 | the search with the test as written always returns the empty path |
| FoodMatch.AsWrittenMissesAdjacentFood | api/index.py:109 | food on a free cell next to the head is reachable and passes the intended test, but fails the test as written |
| Scoring.NeckRule | api/index.py:141-148 | adds the neck term to each value and leaves the rest unchanged |
| Scoring.BorderRule | api/index.py:151-158 | adds the border term to each value |
| Scoring.CloseBorderRule | api/index.py:160-167 | adds the close-border term to each value |
| Scoring.BodyRule | api/index.py:170-188 | adds one body's collision term to each value |
| Scoring.HeadOnRule | api/index.py:196-217 | adds the head-on term to each value |
| Scoring.AddFoodBonus | api/index.py:222-231 | an empty path adds nothing; otherwise the food value over the path's length is added to each direction the item lies toward, and to no other |
| Scoring.FoodRule | api/index.py:221-231 | adds the food bonus of one item to each value: the food value over the shortest free path length, for the directions the item lies toward (with the corrected food test, see ## Findings) |
| Scoring.FoodRuleAsWritten | api/index.py:221-231 | with the food test as written, one item's bonus leaves the four values unchanged |
| Scoring.FloodRule | api/index.py:234-240 | adds the flood-fill bonus to all four values |
| Scoring.OpeningRules | api/index.py:141-217 | reports the `IndexError` of line 181 exactly when the game started with two or more snakes and fewer than two are listed; otherwise the four values are the sums of the neck, border, close-border, body and head-on terms |
| Scoring.Move | api/index.py:127-253 | answers `IndexError` exactly when the game started with two or more snakes and fewer than two are listed; otherwise the arg-max of the summed rules (with the corrected food test, see ## Findings) |
| Scoring.MoveAsWritten | api/index.py:127-253 | the turn as written: the same `IndexError` case; otherwise the arg-max of the rules and the flood-fill bonus, with no food bonus at all |
| Scoring.FoodPathLength | api/index.py:221-223 | the search for one item finds a path exactly when the item is reachable, and its length is the shortest free path length |
| Scoring.NeckSideMeaning | api/index.py:141-148 | with the neck next to the head, the neck test penalises exactly the move onto the neck |
| Scoring.NeckPenalisedTwice | api/index.py:141-177 | the move onto the neck loses the collision penalty twice, and no other move loses exactly that much from these two rules |
| Scoring.BorderMeaning | api/index.py:151-167 | the border penalty hits exactly the moves off the board; the close-border penalty hits exactly the directions in which two moves leave the board; a move off the board pays both |
| Scoring.HeadOnStraightLine | api/index.py:198-217 | a direction carries a head-on term exactly when the rival's head lies two cells away in a straight line in that direction |
| Scoring.HeadOnSingleDirection | api/index.py:196-217 | at most one direction carries a head-on term; it is a bonus exactly when the controlled snake is longer |
| Scoring.RivalRulesScope | api/index.py:179-217 | with at most one snake at the start, neither rival rule applies; the head-on rule also needs two listed snakes; otherwise both read the second listed snake |
| Scoring.FoodTermMeaning | api/index.py:221-231 | an item adds to a direction exactly when it is reachable and lies toward that direction, and adds at most half the food value (with the corrected food test, see ## Findings) |
| Scoring.FoodTermOpposite | api/index.py:224-231 | no item adds to two opposite directions |
| Scoring.FoodTermObstacleFree | api/index.py:221-231 | on a board free everywhere but the head, an item adds the food value over its Manhattan distance plus one (with the corrected food test, see ## Findings) |
| Scoring.FoodSumMeaning | api/index.py:219-231 | the food bonuses of a direction are positive exactly when some listed item is reachable and lies toward it; they are at most half the food value per item (with the corrected food test, see ## Findings) |
| Scoring.Choose | api/index.py:243-253 | the chosen direction has the greatest value, and every direction before it in the order right, left, up, down has a strictly smaller value |
| Scoring.ChooseUnique | api/index.py:243-253 | a direction with the greatest value, before which every direction is smaller, is the one chosen |
| Scoring.ChooseShift | api/index.py:233-253 | adding the same amount to all four values does not change the choice |
| Scoring.FloodNeverDecides | api/index.py:233-253 | the decision is the arg-max of the values without the flood-fill bonus |
| Scoring.FloodBonusVanishes | api/index.py:234-240 | when the head lies on a listed body, the flood-fill bonus is 0 |
| Scoring.ValueBounds | api/index.py:141-231 | a move staying on the board is worth at least -402 before the flood bonus; a move off the board is worth at most -902 plus half the food value per item (with the corrected food test, see ## Findings) |
| Scoring.FoodExampleAsWritten | api/index.py:219-253 | on an 11 × 11 solo board with the head at (5, 5), the neck below it and food at (5, 7), the turn as written goes right |
| Scoring.FoodExampleCorrected | api/index.py:219-253 | on the same board, with the corrected food test, the turn goes up, toward the food |
| Scoring.StaysOnBoard | api/index.py:150-253 | with fewer than a hundred food items, the turn moves off the board only when every move does (with the corrected food test, see ## Findings) |

## Left out

- The Flask application, its routes and headers, the error handler and the host and port setup: transport, not decision logic.
- `info`, `start`, `end` and all printing. `start` only records the number of snakes at game start, which `Move` takes as its parameter `count`. The `NameError` that `move` raises when `start` never ran is not modelled.
- The process-wide globals (`rvalue`, `lvalue`, `uvalue`, `dvalue`, `start_snake_count`): they are local values and a parameter here.
- Floating point: `food_value / distance` is an exact rational. Rounding could change a tie or a close comparison in the arg-max, and the model does not capture that.
- Python's recursion-depth limit on `flood_fill`: the model's recursion terminates on the number of unvisited cells instead.
- The unused constants `corner_collision_penalty`, `trapping_penalty` and `wall_penalty`, and the unused `health` and `my_tail`.
- Snapshots the engine does not expect: `Move` requires every body to lie on the board (Python would raise, or wrap a negative index), the second listed snake to have a head when two or more are listed (line 198 reads `opponents[1][0]`), and the controlled body to have at least two segments (line 131 reads `body[1]`).
- The deque of the search is a sequence, and its `popleft` is `queue[1..]`.
- Concurrency between games sharing the globals: the model computes one turn in isolation.

## Findings

| source | as written | input that shows it | evidently intended | confidence | as-written member | corrected member |
|---|---|---|---|---|---|---|
| api/index.py:109 | the search tests `(current['x'], current['y']) in food`, a tuple looked up in a list of `{'x', 'y'}` dictionaries; a tuple never equals a dictionary, so no food is ever found, every search returns `[]`, and no food bonus is ever added | any board with reachable food, e.g. food on a free cell next to the head (`FoodMatch.AsWrittenMissesAdjacentFood`), or the 11 × 11 board of `Scoring.FoodExampleAsWritten`, where the turn goes right instead of up toward the food | `current in food`, comparing the cell's dictionary with the food dictionaries | not executed | FoodMatch.ShortestPathAsWritten, Scoring.FoodRuleAsWritten, Scoring.MoveAsWritten, Scoring.FoodExampleAsWritten | FoodMatch.FoodTest, Scoring.FoodRule, Scoring.Move, Scoring.FoodExampleCorrected |

The corrected test is the one `Scoring.FoodRule` passes to `Search.BfsShortestPath`. `Scoring.FoodPathLength` proves that the search then measures the shortest free path to the item. The turn as written is `Scoring.MoveAsWritten`: it shares the opening rules and the bonus arithmetic with `Scoring.Move`, but every food search uses the test of line 109, so its decision `Scoring.DecisionAsWritten` has no food term. The rows marked "with the corrected food test" describe the corrected turn.
