# Kropki (dots) rules engine and computer players, in Dafny

This project models the game engine of the Kropki ("dots") game and its two computer players.

- **The game.** Two players put dots on the points of an N-by-N grid. A player who closes a fence of their own dots around uncaptured enemy dots captures everything inside it and scores one point per enemy dot taken.
- **Two versions.** `last_min.py` has N = 7 and `main.py` has N = 5. They share the same rules engine, which is modelled once in a form that takes the side of the board as a parameter. Only `last_min.py` has `snapshot` and `restore` (last_min.py:415-428), the copies its computer player searches with; `main.py`'s game has neither, so `Engine.Game.Snapshot` and `Engine.Game.Restore` model `last_min.py` alone.
- **The board.** Each point has an owner (0 for nobody, 1 or 2) and a `captured` flag.

The model has three layers.

**Pure specification of the rules** (modules `Grid`, `Polygon`, `Capture`, `Cycle`, `Rules`):
- the neighbour query;
- the even-odd ray test for "inside a fence";
- the capture a fence makes and the count it returns;
- the fence search `find_cycle`, as a depth-first search over a fixed board;
- the sweep `check_for_cycles_around` makes after every dot;
- the game state `State` that `snapshot` copies, and the invariant every move keeps.

**The game object** (`Engine.Game`, a class):
- It has the board, both scores, the recorded fences, the turn, the game-over flag and the last move.
- Its methods (`get_neighbors` … `restore`) update these fields in place, with the loops of the game.
- Each method is proved to compute what the specification says.

**The two computer players** (`LastMinAi`, `MainAi`, with shared pieces in `Search`):
- The alpha-beta minimax is stated as a function of the state. It is proved equal to the plain minimax value inside its window, so the full window that `get_move` passes gives the exact minimax value.
- `get_move` is stated as a function of the state and proved to choose legal moves with the properties the source aims at: capture first, then block, then the best search value.
- The methods run the trial moves on the game object and are proved to leave it as they found it.

The side of the board is the constant `n` of the game object, so one engine serves both versions. Each computer-player module names its version's side as `Size`: 7 in `LastMinAi`, 5 in `MainAi`. The search and move-choice results are proved for any n; the evaluation bounds are also instantiated at `Size`.

The search values `float('-inf')` and `float('inf')` are the datatype `Ext` (`NegInf | Fin | PosInf`). Randomness is passed in as parameters:
- `explore` is whether the 15% draw held;
- `pick` is the index a `random.choice` or `random.shuffle` puts first.

## Model

| member | source | states |
|---|---|---|
| Grid.Opponent | last_min.py:43 | `3 - p` of a player is the other player. |
| Grid.DirIndex | last_min.py:247 | A point is at direction index below 8 exactly when it is an 8-neighbour, and that direction leads to it. |
| Grid.NeighborsUpTo | last_min.py:246-251 | After the first k directions, the list holds exactly the live dots of `p` that are adjacent in those directions, in direction order. This is the loop invariant. |
| Grid.Neighbors | last_min.py:245-252 | At most 8 points. A point is in the list iff it is on the board, owned by `p`, uncaptured and an 8-neighbour. The list is in the fixed direction order. |
| Grid.FullFrom | last_min.py:334-337 | The row-major scan from (r, c) finds no point that is both unowned and uncaptured iff there is none at or after (r, c). |
| Grid.IsFull | last_min.py:333-338 | `check_full` holds iff every point is owned or captured. |
| Grid.LegalUpTo | last_min.py:102-107 | The legal points before (r, c), in row-major order. This is the invariant of the collecting loop. |
| Grid.LegalMoves | last_min.py:102-107 | `possible_moves` holds every point that is unowned and uncaptured, and only those. It is in row-major order, and empty iff the board is full. |
| Grid.SetOwner | last_min.py:120 | Writing an owner changes only that point's owner and keeps its captured flag. |
| Grid.SetOwnerUndo | main.py:70-72 | Writing back the owner a point had restores the board exactly. |
| Grid.EmptyBoard | last_min.py:233 | Definition: the n-by-n board of unowned, uncaptured points. The constructor of `Engine.Game` proves the state invariant holds on it. |
| Grid.RemStep | last_min.py:266-267 | Extending a path by a new point leaves one fewer unvisited point. This is the measure of the fence search. |
| Polygon.EdgeFlips | last_min.py:309-313 | Definition: whether one pass of the loop, over the edge p1 to p2, flips the `inside` flag. The quotient comparison is decided by cross-multiplying. |
| Polygon.FlagAfter | last_min.py:305-314 | Definition: the `inside` flag after the first i passes of the loop. |
| Polygon.InPoly | last_min.py:303-315 | Definition: the flag after all n + 1 passes. `Polygon.InPolyIsOddCrossings` characterises it. |
| Polygon.InPolyIsOddCrossings | last_min.py:303-315 | The loop of n + 1 passes visits every edge of the closed polygon once, the closing edge included. A point is inside iff an odd number of edges flip for it. |
| Polygon.FlagAfterCounts | last_min.py:307-314 | After m + 1 passes, the `inside` flag is the parity of the crossings of the first m edges. |
| Polygon.PrevIsPrevious | last_min.py:306-314 | The p1 read by pass k is vertex k - 1. |
| Polygon.EdgeFlipsChar | last_min.py:309-313 | An edge whose endpoints share a column never flips. Any other edge flips iff min col < c <= max col and r is at or above the edge's row at column c. |
| Polygon.CrossingRowBound | last_min.py:309-312 | On the column interval, being at or above the crossing implies the test's `r <= max(p1r, p2r)` guard. |
| Polygon.AdjacentEdgeFlips | last_min.py:309-313 | For an edge between 8-neighbours, as in every fence, the test is exact integer arithmetic. It flips iff the columns differ, c is the higher column and r is at or above that vertex's row. |
| Capture.Enclosed | last_min.py:285 | Definition: a grid point off the fence that the ray test places inside it. |
| Capture.CaptureCount | last_min.py:277-301 | Definition: the number of enclosed, uncaptured enemy dots, which is the value `validate_and_capture` returns. `Capture.CaptureCountPositive` and `Capture.CaptureCountIsFlippedEnemies` characterise it. |
| Capture.Captured | last_min.py:294-300 | Definition: the board with every enclosed point marked captured. `Capture.CapturedEffect` characterises it. |
| Capture.CapturedEffect | last_min.py:294-301 | The capture sets the captured flag of exactly the enclosed, uncaptured points, whoever owns them. Fence points and outside points are unchanged. |
| Capture.CaptureCountPositive | last_min.py:282-292 | The count is positive iff the fence encloses an uncaptured enemy dot, which is the `has_enemy_dot` scan. |
| Capture.CaptureCountIsFlippedEnemies | main.py:181-188 | The returned count is exactly the number of enemy dots that go from uncaptured to captured. |
| Capture.GrowsCapturedCount | main.py:184-187 | Captured flags only go from false to true, so no player's count of captured dots drops. |
| Capture.CapturedCountAfter | last_min.py:294-301 | The enemy's captured dots rise by exactly the returned count, and nobody's fall. |
| Capture.MarkStart | last_min.py:294 | The marking loop starts from the board as it is. |
| Capture.MarkStep | last_min.py:296-300 | One pass of the marking loop sets the flag of one enclosed, uncaptured point and changes nothing else. |
| Capture.MarkRowEnd | last_min.py:294-295 | The end of a row of the marking loop is the start of the next. |
| Capture.TakeStep | last_min.py:297-299 | One pass adds 1 to the count exactly for an enclosed, uncaptured enemy dot. |
| Cycle.AlreadyCaptured | last_min.py:270-275 | True iff some recorded fence has exactly the coordinate set of the path. |
| Cycle.ExtendShape | last_min.py:266-267 | Each pushed path is the popped path plus one neighbour not on it, and there is at most one per neighbour. |
| Cycle.ExtendStep | last_min.py:258-267 | Each neighbour tried pushes its path iff the neighbour is not on the path. |
| Cycle.KidsShrink | last_min.py:266-267 | Pushed paths stay on the board and have strictly fewer unvisited points. |
| Cycle.SearchPushed | last_min.py:256-267 | Paths pushed on the stack are searched, last first, before the rest of the stack. |
| Cycle.SearchStep | last_min.py:256-267 | A turn of the loop that does not close leaves a stack with the same search result. |
| Cycle.SearchCloses | last_min.py:259-265 | A turn that closes returns the popped path. |
| Cycle.NextOfSteps | last_min.py:258 | The neighbours of a point are at most eight on-board points. |
| Cycle.SearchFromStart | last_min.py:255 | The stack `[[start]]` yields the search result. |
| Cycle.ExtendTrails | last_min.py:266-267 | Each path pushed from a simple path of neighbours is again one. |
| Cycle.VisitSound | last_min.py:256-267 | Any path the search below a popped path returns is a simple path of successive neighbours that passes the closing test. |
| Cycle.VisitKidsSound | last_min.py:256-267 | The same for the search below the pushed children. |
| Cycle.FindCycleSound | last_min.py:254-275 | `find_cycle` returns nothing or a fence of the player's live dots through `start`. The fence has at least 4 distinct points, successive points and last-to-first are 8-neighbours, it is not a recorded fence, and it encloses at least one uncaptured enemy dot. |
| Cycle.Visit | last_min.py:256-267 | Definition: the depth-first search below a popped path. Neighbours are tried in direction order; the start point closes a path of at least 4 points that passes the test; children are searched last-pushed first. |
| Cycle.FindCycleSpec | last_min.py:254-268 | Definition: the result of `find_cycle`, a search from the one-point path. The closing test is "not a recorded fence, and the capture count is positive". `Cycle.FindCycleSound` characterises it. |
| Cycle.WeightExtend | last_min.py:266-267 | The pushed children together weigh less than their parent. |
| Cycle.PopPushDecreases | last_min.py:256-267 | Popping a path and pushing its children lowers the stack's weight, so the search loop terminates. |
| Rules.Inv | last_min.py:233-243 | Definition: the state invariant. The board is square. Each score is at most the other player's captured dots. Recorded fences are distinct, owned by a player and at least 4 points long. It holds at the start (`Engine.Game.constructor`) and after every move (`Rules.PlayInv`). |
| Rules.FindCycleStep | last_min.py:254-268 | Definition: `find_cycle` with its side effects, the capture and the score. `Rules.FindCycleStepCases` and `Rules.FindCycleStepLater` characterise it. |
| Rules.CheckAround | last_min.py:317-331 | Definition: `check_for_cycles_around`, the mover's search followed by the enemy sweep over the 3-by-3 block, each fence recorded. `Rules.CheckAroundInv` characterises it. |
| Rules.Play | last_min.py:396-400 | Definition: the rules part of `make_move`, the dot followed by `check_for_cycles_around`. `Rules.PlayInv` and `Rules.PlayLater` characterise it. |
| Rules.AddScore | last_min.py:264 | `players[p].score += k` changes that score only. |
| Rules.FindCycleStepCases | last_min.py:254-268 | The search either finds nothing and leaves the state as it was, or captures with the fence and adds its count to the player's score. |
| Rules.FindCycleStepLater | last_min.py:259-265 | The search changes the state only when it finds a fence. Then the board is the captured one and the player gains exactly the count. |
| Rules.SearchAndRecordLater | last_min.py:319-321 | A search and its recording only set flags, raise scores and append fences. |
| Rules.RecordFenceInv | last_min.py:319-321 | Recording a new fence after its capture keeps the state invariant. |
| Rules.SearchAndRecordInv | last_min.py:319-321 | A search and its recording keep the invariant and append at most one fence, owned by the searcher. |
| Rules.AroundAtLive | last_min.py:326-331 | An offset holding a live enemy dot starts a search from it. |
| Rules.AroundAtDead | last_min.py:326-328 | Any other offset changes nothing. |
| Rules.AroundFromStep | last_min.py:324-331 | The sweep visits its offsets in the order of its two loops, each on the board left by the ones before. |
| Rules.AroundFromRow | last_min.py:324-325 | The end of a row of the sweep moves to the next row. |
| Rules.LiveAroundGrows | last_min.py:328 | Captures only remove live dots, so the sweep never has more searches to start on a later board. |
| Rules.AroundAtInv | last_min.py:326-331 | One offset keeps the invariant and appends at most one enemy fence, and only when it holds a live enemy dot. |
| Rules.AroundFromInv | last_min.py:323-331 | The sweep keeps the invariant and appends at most one enemy fence per live enemy dot around the point. |
| Rules.CheckAroundInv | main.py:204-219 | `check_for_cycles_around` keeps the invariant. The first new entry is tagged with the mover exactly when the mover's search finds a fence. Every other new entry is the enemy's, at most one per live enemy dot of the 3-by-3 block. |
| Rules.FencesOwnedJoin | last_min.py:319-331 | No owner changes in a later state, so fences already recorded stay on their owner's dots; with the ones appended since, all of them are. |
| Rules.SearchAndRecordFence | last_min.py:319-321 | One search records exactly the fence `find_cycle` returns, tagged with the searcher. That fence is a fence of the searcher's dots, and they stay the searcher's after the capture. No fence found leaves the state as it was. |
| Rules.AroundAtFences | last_min.py:326-331 | Every fence one offset of the sweep records runs through dots of the player it is tagged with. |
| Rules.AroundFromFences | last_min.py:323-331 | The same for the whole enemy sweep. |
| Rules.CheckAroundFences | main.py:204-219 | Every fence `check_for_cycles_around` appends runs through dots of the player it is tagged with. When the mover's search finds a fence, it is a fence of the mover through the new dot, recorded as the first new entry with the mover's tag. |
| Rules.PlaceFences | last_min.py:396-397 | The new dot goes on a free point, which lies on no recorded fence, so every fence stays on its owner's dots. |
| Rules.PlayFences | last_min.py:395-400 | A move keeps every recorded fence on dots of the player it is tagged with. |
| Rules.AroundAtLater | last_min.py:326-331 | One offset only sets flags, raises scores and appends fences. |
| Rules.AroundFromLater | last_min.py:323-331 | The same for the whole sweep. |
| Rules.PlayLater | last_min.py:397-400 | After the dot is placed, a move changes no owner and uncaptures nothing. |
| Rules.PlaceInv | last_min.py:396-397 | A dot on a legal point keeps the invariant. |
| Rules.PlayInv | last_min.py:395-405 | A move keeps the invariant, never lowers a score and leaves the mover's dot on the point. |
| Engine.Game.constructor | last_min.py:233-243 | An empty board of the given size, zero scores, no fences, player 1 to move, game not over. |
| Engine.Game.GetNeighbors | last_min.py:245-252 | The loop computes the neighbour list. |
| Engine.Game.IsCycleAlreadyCaptured | last_min.py:270-275 | The loop over `captured_areas` decides `AlreadyCaptured`. |
| Engine.Game.IsPointInPoly | last_min.py:303-315 | The loop of n + 1 passes computes the ray test. |
| Engine.Game.IsEnclosed | last_min.py:285 | Off the fence and inside it. |
| Engine.Game.HasEnemyDot | last_min.py:282-292 | The first scan, with its early breaks, finds an enemy dot iff the capture count is positive. |
| Engine.Game.CaptureCell | last_min.py:296-300 | One point of the second scan: the flag is set iff the point is enclosed and uncaptured, and counted iff it is an enemy dot. |
| Engine.Game.CaptureEnclosed | last_min.py:294-301 | The second scan marks every enclosed point captured and returns the count of enemy dots taken. |
| Engine.Game.ValidateAndCapture | last_min.py:277-301 | Returns the capture count. The board is unchanged when it is 0, and is the captured board otherwise. |
| Engine.Game.TryClose | last_min.py:259-265 | Closing skips a recorded fence. Otherwise it captures, and it closes and scores iff the count is positive; when it does not close, nothing changes. |
| Engine.Game.Expand | last_min.py:257-267 | One popped path: it closes iff the closing test holds, and otherwise pushes the extensions by the neighbours not on the path, leaving the state unchanged. |
| Engine.Game.FindCycle | last_min.py:254-268 | The explicit-stack loop returns the search's fence, with its capture and score, or None with nothing changed. |
| Engine.Game.SearchAndRecordAt | last_min.py:319-321 | A search whose fence is appended to `captured_areas` with its owner. |
| Engine.Game.SweepAt | last_min.py:326-331 | One offset of the enemy sweep. |
| Engine.Game.CheckForCyclesAround | last_min.py:317-331 | The mover's search, then the two loops of the enemy sweep, compute the rules' `CheckAround`. |
| Engine.Game.CheckFull | last_min.py:333-338 | Returns whether every point is owned or captured. |
| Engine.Game.MakeMove | last_min.py:395-405 | A point that is owned or captured returns False and changes nothing. Otherwise the move places the dot and runs the sweep. It ends the game iff the board is then full, and otherwise passes the turn. It keeps the state invariant. |
| Engine.Game.Snapshot | last_min.py:415-421 | Copies the board, both scores and the fences by value. |
| Engine.Game.Restore | last_min.py:423-428 | Puts back exactly the snapshot's board, scores and fences, so restoring a snapshot reproduces the state. |
| Search.EMax | last_min.py:200-201 | `max` on extended values is an upper bound reached by one argument. |
| Search.EMin | last_min.py:218-219 | `min` on extended values is a lower bound reached by one argument. |
| Search.MaxStep | last_min.py:200-203 | One child of a maximizing node keeps the pruned and plain bests in agreement within the window, or both reach beta on a cut-off. |
| Search.MinStep | last_min.py:218-221 | The mirror image of MaxStep for a minimizing node. |
| Search.LegalCount | last_min.py:182 | The number of legal moves is 0 iff the board is full. |
| Search.LegalCountDrops | last_min.py:194-195 | A dot on a legal point, followed by captures, leaves strictly fewer legal moves. |
| Search.PlayDrops | last_min.py:194-197 | A trial move leaves fewer legal moves, so the search terminates at any depth. |
| Search.Trial | last_min.py:194-195 | The trial move of `last_min.py` (dot, then the sweep) shrinks the set of legal moves. |
| Search.TrialIsPlay | last_min.py:194-195 | That trial move is the rules' move. |
| Search.Placement | main.py:91-93 | The trial move of `main.py` (owner written, no capture) shrinks the set of legal moves. |
| Search.Top | last_min.py:153-176 | `best_score` is an upper bound of all values, reached by one of them, and `-inf` for none. |
| Search.TopStep | last_min.py:172-176 | One pass of the loop updates `best_score` to the max. |
| Search.Ties | last_min.py:172-176 | A move is in the list iff its value equals the given value. |
| Search.TiesStep | last_min.py:172-176 | One pass of the loop appends the move iff it ties. |
| Search.TopTies | last_min.py:178 | `best_moves` is empty only when there are no moves, and holds only legal moves. |
| Search.TiesAbsent | last_min.py:175-176 | No move ties a value that nobody reached. |
| Search.PossibleMoves | last_min.py:102-107 | The nested loop collects exactly the legal moves in row-major order. |
| LastMinAi.ShapeBonus | last_min.py:62-71 | For any neighbour count the shape term lies in [-50, 400], and the `-150` branch is never taken. |
| LastMinAi.CellWorth | last_min.py:51-93 | A captured or empty point adds 0; every point adds between -100 and 550. |
| LastMinAi.Evaluation | last_min.py:42-94 | Definition: `evaluate_board` without its noise, 5000 per own point, -4000 per enemy point, plus the worth of every cell. |
| LastMinAi.EvaluationBounds | last_min.py:42-94 | The evaluation lies within [-100, 550] per point around `5000 * own - 4000 * enemy`. |
| LastMinAi.EvaluationOnBoard | last_min.py:42-94 | On the 7-by-7 board of this version (last_min.py:8), the board part of the evaluation lies between -4900 and 26950. |
| LastMinAi.MinimaxValue | last_min.py:181-222 | Definition: `minimax`. It is the evaluation at depth 0 or on a full board, otherwise the pruned row-major scan. `LastMinAi.AlphaBeta` relates it to the plain minimax value. |
| LastMinAi.Scan | last_min.py:187-222 | Definition: the two nested loops with the window and the best value so far. A cut-off returns at once. |
| LastMinAi.MinimaxFinite | last_min.py:181-222 | `minimax` never returns an infinite sentinel. |
| LastMinAi.ScanFinite | last_min.py:187-222 | The scan of the two loops returns a finite value once a move is tried. |
| LastMinAi.ScanFiniteAt | last_min.py:191-203 | The same, at a legal point. |
| LastMinAi.ScanPass | last_min.py:189-204 | The scan skips filled points and returns its best value at the end. |
| LastMinAi.ScanAt | last_min.py:191-203 | At a legal point the window narrows, and the scan returns at once on `beta <= alpha`. |
| LastMinAi.PureScanAt | last_min.py:191-200 | One step of the unpruned reference scan. |
| LastMinAi.PureScanMono | last_min.py:200 | The unpruned scan only improves on its start value. |
| LastMinAi.AlphaBeta | last_min.py:181-222 | Within any non-empty window, the pruned `minimax` and the plain minimax value agree once clipped to the window. |
| LastMinAi.AlphaBetaMax | last_min.py:187-204 | The maximizing scan keeps pruned and plain values in agreement within the window. |
| LastMinAi.AlphaBetaMaxAt | last_min.py:191-203 | The same, at a legal point. |
| LastMinAi.AlphaBetaMin | last_min.py:205-222 | The minimizing scan keeps pruned and plain values in agreement within the window. |
| LastMinAi.AlphaBetaMinAt | last_min.py:209-221 | The same, at a legal point. |
| LastMinAi.MinimaxExact | last_min.py:162-168 | With the full window `get_move` passes, `minimax` returns the exact minimax value. |
| LastMinAi.Trials | last_min.py:117-124 | Definition: each move paired with the score its trial reaches. Its entries are proved legal and correctly scored by `LastMinAi.GainsLegal`, and the chosen one maximal by `LastMinAi.GainsBest`. |
| LastMinAi.Gains | last_min.py:126-127 | `capture_moves` / `defensive_moves` hold exactly the trials whose score beats the current score. |
| LastMinAi.GainsStep | last_min.py:117-127 | One pass of the loop appends iff the score rises. |
| LastMinAi.FirstMax | last_min.py:130-131 | The head after a stable descending sort is the first entry of largest score. |
| LastMinAi.Values | last_min.py:156-170 | Definition: each move's value is the minimizing search after its trial. `LastMinAi.ChooseMoveSearches`, with `LastMinAi.MinimaxExact`, proves these are the exact minimax values and that the move chosen has the best of them. |
| LastMinAi.ChooseMove | last_min.py:101-178 | Definition: `get_move`, with the random draws as parameters. It captures first, then defends, then takes the random branch, then picks among the best-valued moves. `LastMinAi.ChooseMoveLegal`, `ChooseMoveCaptures`, `ChooseMoveBlocks` and `ChooseMoveSearches` characterise it. |
| LastMinAi.ChooseMoveLegal | last_min.py:101-178 | `get_move` returns None iff the board is full, and otherwise a legal point. |
| LastMinAi.GainsLegal | last_min.py:114-127 | Every entry of a gains list is a legal move whose trial raises the score to the recorded value. |
| LastMinAi.GainsBest | last_min.py:126-131 | The chosen head beats every legal move's trial score. |
| LastMinAi.ChooseMoveCaptures | last_min.py:114-131 | If some move raises the AI's own score, it plays one whose resulting score is maximal. |
| LastMinAi.ChooseMoveBlocks | last_min.py:133-148 | Otherwise, if some enemy move would raise the enemy's score, it takes a point where the enemy would gain the most. |
| LastMinAi.NoGains | last_min.py:126-129 | With no rising trial, the gains list is empty. |
| LastMinAi.ChooseMoveSearches | last_min.py:150-178 | With nothing to capture or block and no random move, the move played has the best exact minimax value among all legal moves. |
| LastMinAi.AIPlayer.constructor | last_min.py:37-40 | Keeps the player id and the depth. The depth defaults to 3, the default the game's computer player is built with. |
| LastMinAi.AIPlayer.Evaluate | last_min.py:42-97 | The two loops compute the evaluation without its noise. |
| LastMinAi.AIPlayer.Minimax | last_min.py:181-222 | The method leaves the game state as found and returns the value the search defines. At depth 0 or on a full board that is the evaluation. |
| LastMinAi.AIPlayer.Child | last_min.py:192-199 | Snapshot, trial move, deeper search, restore: the state is unchanged. |
| LastMinAi.AIPlayer.TrialMove | last_min.py:120-121 | The owner is written, then `check_for_cycles_around` runs: the rules' move. |
| LastMinAi.AIPlayer.TrialScore | last_min.py:117-124 | Returns the score the trial reaches, with the state restored. |
| LastMinAi.AIPlayer.GainsOf | last_min.py:114-144 | The capture and defence loops compute the gains list and leave the state as found. |
| LastMinAi.AIPlayer.GetMove | last_min.py:101-178 | Computes `ChooseMove` and leaves the game state as found. |
| LastMinAi.AIPlayer.BestMoves | last_min.py:153-176 | Computes the moves tying the best search value, and leaves the state as found. |
| MainAi.Links | main.py:46-50 | Definition: ten per live same-owner neighbour of every dot of the player, captured or not. |
| MainAi.Evaluation | main.py:40-51 | Definition: `evaluate_board`, 100 per own point, -110 per enemy point, plus the links. |
| MainAi.EvaluationBounds | main.py:40-51 | The evaluation lies within [0, 80] per point above `100 * own - 110 * enemy`. |
| MainAi.EvaluationOnBoard | main.py:40-51 | On the 5-by-5 board of this version (main.py:7), the link part of the evaluation lies between 0 and 2000. |
| MainAi.MinimaxValue | main.py:80-109 | Definition: `minimax`. It is the evaluation at depth 0 or on a full board, otherwise the pruned scan. `MainAi.AlphaBeta` relates it to the plain minimax value. |
| MainAi.Scan | main.py:86-109 | Definition: the two nested loops. A cut-off breaks only the column loop, and the scan goes on with the next row. |
| MainAi.MinimaxFinite | main.py:80-109 | `minimax` never returns an infinite sentinel. |
| MainAi.ScanFinite | main.py:86-109 | The scan returns a finite value once a move is tried. |
| MainAi.ScanFiniteAt | main.py:90-96 | The same, at a legal point. |
| MainAi.ScanPass | main.py:88-97 | The scan skips filled points, moves to the next row, and returns its best value at the end. |
| MainAi.ScanAt | main.py:90-96 | At a legal point the window narrows, and `break` on `beta <= alpha` leaves only the column loop: the scan goes on with the next row. |
| MainAi.PureScanAt | main.py:90-94 | One step of the unpruned reference scan. |
| MainAi.PureScanMono | main.py:94 | The unpruned scan only improves on its start value. |
| MainAi.ScanMono | main.py:88-97 | The pruned scan only improves on its best value, cut-offs included. |
| MainAi.AlphaBeta | main.py:80-109 | Within any non-empty window, the pruned `minimax` (with its inner-loop-only `break`) and the plain minimax value agree once clipped to the window. |
| MainAi.AlphaBetaMax | main.py:86-97 | The maximizing scan keeps pruned and plain values in agreement within the window. |
| MainAi.AlphaBetaMaxAt | main.py:90-96 | The same, at a legal point. |
| MainAi.AlphaBetaMin | main.py:98-109 | The minimizing scan keeps pruned and plain values in agreement within the window. |
| MainAi.AlphaBetaMinAt | main.py:102-108 | The same, at a legal point. |
| MainAi.MinimaxExact | main.py:71 | With the full window, `minimax` returns the exact minimax value. |
| MainAi.BestIndex | main.py:69-78 | `best_move` is a move of top value that strictly beats every earlier value. It is None iff every value is `-inf`. |
| MainAi.BestIndexStep | main.py:74-76 | One pass replaces the best only on a strictly greater value. |
| MainAi.FirstBeaten | main.py:74-76 | The chosen value strictly beats that of every earlier point on the board. |
| MainAi.Values | main.py:69-72 | Definition: each move's value is the minimizing search after writing the owner. `MainAi.ChooseMoveSearches`, with `MainAi.MinimaxExact`, proves these are the exact minimax values and that the move chosen has the best of them. |
| MainAi.Crowded | main.py:65 | Definition: more than 80% of the n-by-n board is free, in integers. |
| MainAi.ChooseMove | main.py:53-78 | Definition: `get_move`. It uses the shuffle shortcut when crowded, and otherwise takes the first move of strictly greatest value. `MainAi.ChooseMoveLegal` and `MainAi.ChooseMoveSearches` characterise it. |
| MainAi.ChooseMoveLegal | main.py:53-78 | `get_move` returns None iff the board is full, and otherwise a legal point, the shuffle shortcut included. |
| MainAi.ChooseMoveSearches | main.py:65-78 | Below the 80% threshold the move has the best exact minimax value, and every earlier move has a strictly lower one. |
| MainAi.AIPlayer.constructor | main.py:35-38 | Keeps the player id and the depth. The depth defaults to 2, the default the game's computer player is built with. |
| MainAi.AIPlayer.Evaluate | main.py:40-51 | `100 * own - 110 * enemy + 10` per same-owner uncaptured neighbour of every own dot, captured or not. |
| MainAi.AIPlayer.Minimax | main.py:80-109 | The method writes and resets owners, leaves the state as found, and returns the search's value. At depth 0 or on a full board that is the evaluation. |
| MainAi.AIPlayer.Child | main.py:91-93 | Owner written, deeper search, owner reset to 0: the state is unchanged. |
| MainAi.AIPlayer.GetMove | main.py:53-78 | Computes `ChooseMove` and leaves the board, scores and fences as found. |

## Left out

- The window, drawing and event loop are not modelled: the pygame setup in `KropkiGame.__init__`, `draw_game`, `draw_ui` and `run`. They are I/O.
- `handle_click` is not modelled. It converts pixels to grid points with floats and `round`; it is input plumbing.
- The `Player` class (colour, name) is not modelled. The two scores are fields of the game object, and `turn` is the player number.
- `random.uniform`, `random.random`, `random.choice` and `random.shuffle` are not modelled. Their outcomes are the parameters `explore` and `pick`, and `pick` is taken modulo the length of the list drawn from.
- LastMinAi.AIPlayer.Evaluate: leaves out the `random.uniform(-4, 4)` noise (last_min.py:96), so values are integers. The noise is not a property of the board, and with it the value is a float.
- LastMinAi.AIPlayer.GetMove: the 15% draw and the tie-break are the parameters `explore` and `pick`, not random draws.
- MainAi.AIPlayer.GetMove: the shuffle is the parameter `pick`, the index of the move the shuffle puts first.
- Engine.Game.IsPointInPoly: `r <= xints` is decided exactly with integers, by cross-multiplying with the column difference. This agrees with the float quotient for every fence the search builds, because the column difference is ±1 there (Polygon.AdjacentEdgeFlips). For arbitrary polygons, float rounding of the quotient is not modelled.
- Engine.Game.MakeMove: requires an on-board point. Python's negative indices would wrap, but every caller passes on-board points: `handle_click` checks the bounds, and the computer players choose legal points.
- Engine.Game.Restore: requires a square board of the game's size, which is what every snapshot holds. Python would accept any value.
- The running time of the exponential fence search is not modelled. Only its termination is proved (Cycle.PopPushDecreases).
- Scores are unbounded integers, as in Python.
- `float('-inf')` and `float('inf')` are the values `NegInf` and `PosInf` of `Ext`, not reals.
- Search depths are integers. A search at a negative depth still terminates, because every trial move removes a legal point.
- The weights of the heuristic evaluations are modelled as written. They are not themselves correctness properties; only their bounds are proved.
- `main.py`'s `len(possible_moves) > LOGICAL_GRID_SIZE**2 * 0.8` is decided in integers as `5 * moves > 4 * n * n`. This is exact for its board of side 5.
