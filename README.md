# Wall-baduk and knight's tour, modelled in Dafny

This project models the game rules of two browser puzzles and proves properties of them.

**Wall-baduk** is a two-player game on a 7 x 7 board. The files `src/app/wall-baduk/logics.tsx`, `page.tsx` and `values.tsx` define it:

- Each player starts with two seed stones and places two more, in the fixed order `[0, 1, 1, 0]`.
- Then the players alternate. Each turn, a player moves one stone and puts a wall on one of the free edges around the cell it landed on.
- A move goes one or two cells straight, or one cell diagonally. Passing in place counts as a move.
- Walls and stones block movement.
- The walls cut the board into areas. An area holding exactly one stone scores its size for that stone's owner.

**The knight's tour** (`src/app/knights-tour/page.tsx`) is a one-player puzzle: a knight must visit every cell of an N x N board once.

## Modules

| file | module | contents |
|---|---|---|
| `wrappers.dfy` | `Wrappers` | `Option` |
| `values.dfy` | `Values` | the board size, the player count and the seed stones |
| `logics.dfy` | `Logics` | the wall grids, `checkStone` and `checkWall` |
| `board.dfy` | `Board` | the helpers defined before the component: empty walls, `isValidMove`, the wall slots around a cell, `isGameOver` |
| `moves.dfy` | `Moves` | `getAvailableMoves` |
| `moverules.dfy` | `MoveRules` | the move generator set against `isValidMove`, and on two kinds of board |
| `areas.dfy` | `Areas` | `getAreas` and the score loop |
| `game.dfy` | `Game` | the component's state and handlers |
| `knights.dfy` | `KnightsTour` | the knight's-tour component |

**How the code is modelled.**

- **Components.** Each React component is a class whose fields are its state variables. Every handler is a method that reassigns those fields.
- **Handler contracts.** Each handler is proved equal to a pure transition function on a state datatype (`Game.State`, `KnightsTour.Tour`). The properties are proved about those functions.
- **Invariants.** `Game.ValidState` and `KnightsTour.ValidTour` are the invariants every handler keeps.
- **Loops.** Code that loops in the source is a method with loops and invariants:
  - `getAvailableMoves`;
  - the breadth-first flood fill of `getAreas`, over two `array2` grids;
  - the owner collection;
  - the score loop;
  - `isGameOver`.
- **Effects.** The wall auto-skip effect is an explicit method (`SkipWallIfNone`). React runs it after a render; here the caller invokes it.

**Four places where the code behaves differently from what its names and comments suggest; the model follows the code:**

- **Game over.** The comment at `page.tsx:121` says the game ends when no stone can move or every area's owner is decided. But `isGameOver` (`page.tsx:122-137`) only asks `isValidMove` about a stone staying where it is. That question is always answered yes. So the test holds only when there are no stones (`Board.GameOverOnlyWithoutStones`), and `gameEnd` is never set during play. `Game.ValidState` includes `!gameEnd`.
- **Owners.** An area's owner list keeps one entry per stone and is not de-duplicated (`page.tsx:110-113`). So an area scores only when exactly one stone stands in it: its size goes to that stone's owner (`Areas.OneStoneOneOwner`, `Areas.AreaScoreByStones`). An area holding two stones of the same player scores for nobody (`Areas.TwoStonesTwoOwners`).
- **Wall eligibility.** `handlePlaceWall` does not check that the slot touches the stone that just moved. Only the board's click guard does (`page.tsx:522`, `page.tsx:573`). The handler is modelled without the check, and `Game.WallBaduk.OnWallClick` models the guarded click.
- **Diagonal rule.** `isValidMove` refuses a diagonal only when both corner cells and the target are all occupied. The move generator refuses it when any one of them is. Every generated move passes `isValidMove` (`MoveRules.GeneratedMovesAreValid`), but not the other way round (`MoveRules.DiagonalRulesDisagree`). Only the generator's rule decides play.

## Model

| member | source | states |
|---|---|---|
| Values.InitialStones | src/app/wall-baduk/values.tsx:12-17 | four seed stones, in bounds, on distinct cells, owners are player ids; owner 0 on (1,1),(5,5), owner 1 on (1,5),(5,1); two per player |
| Logics.CheckStone | src/app/wall-baduk/logics.tsx:1-3 | true exactly when some stone, of any owner, stands on (r, c) |
| Logics.CheckWall | src/app/wall-baduk/logics.tsx:5-52 | an orthogonal step is blocked exactly when the one edge it crosses is walled; a diagonal step exactly when both corner routes are blocked (a route is blocked when either of its edges is); any other pair, including the same cell, is never blocked |
| Logics.CheckWallSymmetric | src/app/wall-baduk/logics.tsx:27-49 | blocking is the same in both directions of a step |
| Logics.NoWallsNeverBlock | src/app/wall-baduk/logics.tsx:13-51 | with all wall cells empty no step is blocked |
| Board.CreateEmptyWalls | src/app/wall-baduk/page.tsx:8-13 | two 7 x 7 grids with no wall |
| Board.ValidMoveShape | src/app/wall-baduk/page.tsx:16-52 | staying put is always valid; apart from that only a one-cell step (straight or diagonal) or a straight two-cell step can be valid |
| Board.ValidStraightMove | src/app/wall-baduk/page.tsx:29-33 | a one-cell straight step is valid exactly when its edge is not walled and the target is empty |
| Board.ValidTwoStep | src/app/wall-baduk/page.tsx:35-42 | a two-cell straight step is valid exactly when the middle cell and the target are empty and no wall blocks either edge it crosses; the middle cell is on the board |
| Board.ValidDiagonalMove | src/app/wall-baduk/page.tsx:44-49 | a diagonal step is valid exactly when at least one of its two corner routes crosses no wall and not all three of the two corner cells and the target are occupied |
| Board.GetAvailableWalls | src/app/wall-baduk/page.tsx:55-63 | the slots returned are exactly the board edges touching the cell, without repeats, 4 minus the number of borders the cell lies on |
| Board.FreeSlots | src/app/wall-baduk/page.tsx:272-275 | the slots offered are exactly the board edges touching the cell that carry no wall |
| Board.IsGameOver | src/app/wall-baduk/page.tsx:122-137 | the triple loop returns true exactly when every test `isValidMove([r,c],[r,c]) ==> stone i is at (r,c)` passes |
| Board.GameOverOnlyWithoutStones | src/app/wall-baduk/page.tsx:122-137 | that test holds exactly when there are no stones |
| Moves.WalkBlocked | src/app/wall-baduk/page.tsx:203-219 | the step loop reports a block exactly when a crossed edge is walled or the middle cell holds a stone |
| Moves.StraightLoop | src/app/wall-baduk/page.tsx:199-223 | the distance loop of one direction yields the distance-1 target when it is allowed, then the distance-2 target when that is allowed too |
| Moves.DiagonalLoop | src/app/wall-baduk/page.tsx:226-234 | the diagonal loop yields, in order, each diagonal whose target and both corners are empty and which is not wall-blocked |
| Moves.StraightLoops | src/app/wall-baduk/page.tsx:198-224 | the loop over the four straight directions yields each direction's allowed targets, in direction order |
| Moves.GetAvailableMoves | src/app/wall-baduk/page.tsx:181-236 | the list built is the pass, then the straight targets, then the diagonal targets, as the move rule defines them |
| Moves.PassFirstOthersFree | src/app/wall-baduk/page.tsx:196-233 | the stone's own cell comes first; every later entry is a different, in-bounds, stone-free cell; at most 13 entries |
| Moves.StraightMembership | src/app/wall-baduk/page.tsx:198-224 | a straight target at distance 1 or 2 is offered exactly when every distance up to it is allowed |
| Moves.DistanceTwoNeedsClearPath | src/app/wall-baduk/page.tsx:198-224 | a distance-2 target is offered only with the distance-1 target, an empty middle cell and both crossed edges open |
| Moves.DiagMembership | src/app/wall-baduk/page.tsx:226-234 | a diagonal target is offered exactly when it and both corner cells are stone-free and the step is not wall-blocked |
| MoveRules.GeneratedMovesAreValid | src/app/wall-baduk/page.tsx:16-52 | every generated move is in bounds and accepted by `isValidMove` |
| MoveRules.DiagonalRulesDisagree | src/app/wall-baduk/page.tsx:44-49 | on any wall-free board with a stone on (3,4) and none on (4,3) or (4,4), `isValidMove` accepts (3,3) to (4,4) but the generator does not offer it |
| MoveRules.DiagonalOnOpenBoard | src/app/wall-baduk/page.tsx:226-234 | on any wall-free board where only the moving stone stands, (3,3) may step to (4,4) |
| MoveRules.RightWallStopsStep | src/app/wall-baduk/page.tsx:198-224 | whatever the stones and other walls, a wall right of (2,2) removes (2,3) and (2,4) from that cell's moves |
| Areas.OpenIsLink | src/app/wall-baduk/page.tsx:95-100 | the BFS guard chain lets direction d through exactly when the neighbour is on the board, orthogonally adjacent and not walled off |
| Areas.OpenSymmetric | src/app/wall-baduk/page.tsx:97-100 | if the guard lets x reach its neighbour, it lets the neighbour reach x back |
| Areas.Enqueue | src/app/wall-baduk/page.tsx:101-106 | marking a fresh cell visited and labelled appends it to both the queue and the area, keeping the grids consistent with the areas found |
| Areas.VisitNeighbour | src/app/wall-baduk/page.tsx:91-106 | after direction d the area and queue still satisfy the fill invariant, and the open neighbour is in the area |
| Areas.ExploreNeighbours | src/app/wall-baduk/page.tsx:90-107 | after the four directions every open neighbour of the dequeued cell is in the area |
| Areas.FloodFill | src/app/wall-baduk/page.tsx:84-108 | the fill from an unvisited cell yields a region: distinct in-bounds cells, connected through open edges, closed under open edges, starting at the seed |
| Areas.CollectOwners | src/app/wall-baduk/page.tsx:110-113 | the owner list has one entry per stone on the area, in stone order |
| Areas.OwnersInMembers | src/app/wall-baduk/page.tsx:110-113 | an id is in the owner list exactly when some stone on the area has that owner |
| Areas.TwoStonesTwoOwners | src/app/wall-baduk/page.tsx:110-113 | two distinct stones on an area give at least two owner entries, even of the same player |
| Areas.NoStoneNoOwner | src/app/wall-baduk/page.tsx:110-113 | an area with no stone on it gets an empty owner list |
| Areas.OneStoneOneOwner | src/app/wall-baduk/page.tsx:110-113 | an area with exactly one stone on it gets that stone's owner as its one owner entry |
| Areas.AreaScoreByStones | src/app/wall-baduk/page.tsx:172-178 | an area scores nothing with no stone or with two or more stones; with a single stone it scores its size for that stone's owner and nothing for the other player |
| Areas.ScanRow | src/app/wall-baduk/page.tsx:81-116 | after a row every cell of it is visited and each area recorded is a region with its owners |
| Areas.GetAreas | src/app/wall-baduk/page.tsx:66-119 | every cell gets a label of an existing area; label a marks exactly the cells of area a; each area is a region; areas cover the 49 cells; cells joined by an open edge share a label |
| Areas.WallFreeBoardIsOneArea | src/app/wall-baduk/page.tsx:66-119 | without walls those promises leave a single area of 49 cells |
| Areas.ComputeScores | src/app/wall-baduk/page.tsx:172-178 | each score is the summed size of the areas whose only owner entry is that player |
| Areas.ScoresWithinAreas | src/app/wall-baduk/page.tsx:173-178 | the two scores together never exceed the cells of all areas |
| Game.InitialStateValid | src/app/wall-baduk/page.tsx:141-156 | the initial state, in the placement phase with no walls, satisfies the invariant |
| Game.AppendStone | src/app/wall-baduk/page.tsx:160-162 | appending the next stone on an empty cell keeps the stones distinct, in bounds and owned as their order dictates |
| Game.PlaceKeepsValid | src/app/wall-baduk/page.tsx:159-169 | a placement on an occupied cell changes nothing; otherwise the new stones are the old ones followed by one stone on the cell, owned as `placementOrder` says, and the walls are untouched; the fourth placement enters the move phase with turn 0 |
| Game.FourStonesEach | src/app/wall-baduk/page.tsx:156-169 | once placement is over each player has four stones |
| Game.FindOwnStone | src/app/wall-baduk/page.tsx:242 | the index found is the first stone of the player on (r, c); none means there is none |
| Game.MoveOrSelectKeepsValid | src/app/wall-baduk/page.tsx:239-265 | select, pass and move keep the invariant |
| Game.MoveRelocatesSelectedOnly | src/app/wall-baduk/page.tsx:246-264 | stone count and owners never change; when a stone moves it is the selected one, onto an empty listed destination, and the wall phase starts at that cell; clicking the selected stone's own cell passes, changing only the selection, the last-moved cell and the phase; the wall phase is entered only from a selection, at a listed cell, with the selection cleared |
| Game.ReselectNotClickable | src/app/wall-baduk/page.tsx:457-465 | with a stone selected, a cell holding another own stone is disabled, so the reselect branch at line 253 is not reachable by a click |
| Game.DestinationIsFree | src/app/wall-baduk/page.tsx:221 | a listed destination other than the stone's own cell is on the board and empty |
| Game.NotADestination | src/app/wall-baduk/page.tsx:221 | an occupied cell other than the stone's own is never listed |
| Game.CancelSelectKeepsValid | src/app/wall-baduk/page.tsx:267-269 | cancelling clears the selection and keeps the invariant |
| Game.SetWall | src/app/wall-baduk/page.tsx:281-285 | the copied grids hold the value at the slot and are unchanged elsewhere |
| Game.PlaceWallKeepsValid | src/app/wall-baduk/page.tsx:278-291 | every slot but the clicked one is unchanged, and no wall is overwritten; a wall is placed exactly in the wall phase on an empty slot, then it holds the current player, the move phase starts and the turn passes |
| Game.SkipWallKeepsValid | src/app/wall-baduk/page.tsx:294-305 | in the wall phase the turn is skipped exactly when every edge around the moved stone is walled; a skip passes the turn |
| Game.ClickCellKeepsValid | src/app/wall-baduk/page.tsx:456-465 | a cell click, as the board lets it through, keeps the invariant |
| Game.ClickWallKeepsValid | src/app/wall-baduk/page.tsx:573 | a wall click that changes anything was on an edge touching the stone that just moved |
| Game.WallBaduk.constructor | src/app/wall-baduk/page.tsx:141-149 | the component starts in the initial state |
| Game.WallBaduk.HandlePlacement | src/app/wall-baduk/page.tsx:159-169 | the new state is the placement transition of the old |
| Game.WallBaduk.HandleMoveOrSelect | src/app/wall-baduk/page.tsx:239-265 | the new state is the select/pass/move transition of the old, and valid |
| Game.WallBaduk.HandleCancelSelect | src/app/wall-baduk/page.tsx:267-269 | only the selection is cleared |
| Game.WallBaduk.HandlePlaceWall | src/app/wall-baduk/page.tsx:278-291 | the new state is the wall transition of the old, and valid |
| Game.WallBaduk.SkipWallIfNone | src/app/wall-baduk/page.tsx:294-305 | the new state is the skip transition of the old, and valid |
| Game.WallBaduk.HandleReset | src/app/wall-baduk/page.tsx:314-324 | the state is the initial state again |
| Game.WallBaduk.OnCellClick | src/app/wall-baduk/page.tsx:456 | the new state is the guarded cell-click transition, and valid |
| Game.WallBaduk.OnWallClick | src/app/wall-baduk/page.tsx:522 | the new state is the guarded wall-click transition, and valid |
| Game.WallBaduk.Scores | src/app/wall-baduk/page.tsx:172-178 | two scores, both non-negative, summing to at most 49 |
| KnightsTour.KnightMovesAreTheJumps | src/app/knights-tour/page.tsx:8-17 | the offset table holds exactly the eight (±1,±2),(±2,±1) jumps, each once |
| KnightsTour.KeepFree | src/app/knights-tour/page.tsx:24 | the filter keeps exactly the candidates on the board and unvisited |
| KnightsTour.NextMovesAreFreeJumps | src/app/knights-tour/page.tsx:19-25 | at most eight next moves, exactly the unvisited on-board cells a knight jump away |
| KnightsTour.Mark | src/app/knights-tour/page.tsx:114-115 | the copied grid has the clicked cell set and every other cell unchanged |
| KnightsTour.CountMark | src/app/knights-tour/page.tsx:114-118 | marking an unvisited cell adds exactly one visited cell |
| KnightsTour.CountFull | src/app/knights-tour/page.tsx:120 | an N x N grid has at most N² visited cells, and N² exactly when all are visited |
| KnightsTour.CountZero | src/app/knights-tour/page.tsx:53 | no cell is counted exactly when no cell is visited |
| KnightsTour.InitialTourValid | src/app/knights-tour/page.tsx:28-40 | the first render's state satisfies the invariant |
| KnightsTour.SizeChangeValid | src/app/knights-tour/page.tsx:50-58 | a size change before the start gives a valid all-unvisited board of the new size |
| KnightsTour.ResetValid | src/app/knights-tour/page.tsx:133-142 | reset gives a valid all-unvisited board of the same size |
| KnightsTour.StartMarksOnlyClicked | src/app/knights-tour/page.tsx:98-108 | the first click puts the knight on the clicked cell, the only visited one, with move count 1 |
| KnightsTour.ClickMovesOnlyByJumps | src/app/knights-tour/page.tsx:110-118 | once started, a click moves the knight exactly when the game runs and the cell is an unvisited jump away; the move marks that one cell and counts it; otherwise nothing changes |
| KnightsTour.ClickOutcome | src/app/knights-tour/page.tsx:120-130 | after a move the tour succeeds exactly when every cell is visited, fails with no-move exactly when cells remain but no jump is free, and continues otherwise |
| KnightsTour.ClickValid | src/app/knights-tour/page.tsx:97-131 | every click keeps the invariant, among it move count = number of visited cells |
| KnightsTour.StartValid | src/app/knights-tour/page.tsx:98-108 | the first click keeps the invariant |
| KnightsTour.JumpValid | src/app/knights-tour/page.tsx:114-130 | an accepted jump keeps the invariant |
| KnightsTour.EnabledExactlyWhenClickCounts | src/app/knights-tour/page.tsx:213-235 | a cell is enabled exactly when clicking it adds one move; clicking a disabled cell once started changes nothing |
| KnightsTour.KnightsTourGame.constructor | src/app/knights-tour/page.tsx:28-40 | the component starts on an empty 8 x 8 board |
| KnightsTour.KnightsTourGame.HandleSizeChange | src/app/knights-tour/page.tsx:50-58 | the new state is a fresh board of the chosen size, fail reason kept |
| KnightsTour.KnightsTourGame.OnSizeClick | src/app/knights-tour/page.tsx:172 | a size button changes the size only before the start, and keeps the invariant |
| KnightsTour.KnightsTourGame.HandleCellClick | src/app/knights-tour/page.tsx:97-131 | the new state is the click transition of the old, and valid |
| KnightsTour.KnightsTourGame.Jump | src/app/knights-tour/page.tsx:114-130 | an accepted jump gives the click transition of the old state |
| KnightsTour.KnightsTourGame.HandleReset | src/app/knights-tour/page.tsx:133-142 | the state is a fresh board of the same size, and valid |

## Left out

- Rendering, CSS, hover highlighting and the rules dialogs of both pages are not modelled. They are presentation only.
- Countdown timers, the total-time counter and the timeout auto-play are not modelled: wall-baduk's `page.tsx:326-371` and the knight's tour's `page.tsx:43-95`. They depend on the clock, `setInterval`, `Math.random` and stale React closures. For the same reason the knight's tour never reaches the `Timeout` fail reason in this model.
- `handleTimerChange`, `TIMER_OPTIONS`, the `players` colours and icons, and the `infoMessage` toast with its 2-second clear are not modelled. They are display settings.
- `handleCellClick`'s `force` parameter is always false, as every call site passes it.
- React batches a handler's state updates and runs effects after rendering. The model applies a handler's updates at once and runs the skip effect as an explicit step.
- JavaScript numbers are doubles. Every value here is a small integer, so they are modelled as unbounded integers.
- Game.WallBaduk.Scores: states only the bounds on the two scores. Their per-area definition is stated on `Areas.ComputeScores`, which it calls.
- Game.WallBaduk.HandlePlacement: the new state is stated, but validity is stated only on `Game.PlaceKeepsValid`, for the placement phase the board routes it to.
- KnightsTour.KnightsTourGame.HandleSizeChange: the new state is stated, but validity only through `OnSizeClick`, the one route the page offers (before the start).
- The handlers require the cell or slot to lie on the board, because the page only renders those.
