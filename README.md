# An 8×8 Othello move chooser, modelled and verified in Dafny

The program `version3.cpp` reads an Othello position, the side it plays
(the global `player`) and the list of legal spots. It then picks a spot by
depth-bounded alpha-beta search. This project models its three parts:

- **The board object `OthelloBoard`** (`othello_board.dfy`, module `Othello`).
  - A class whose two fixed-size arrays, the grid (64 cells, row-major) and
    `disc_count`, are updated in place.
  - Fields for the side to move, the cached legal-spot list, `done` and
    `winner`.
  - Every method is proved against value-level rules in module `Rules`
    (`rules.dfy`). The state `State`, the walk `Closing`, the flips `Flips`,
    `FlipDirs`, `PlaceDisc`, `PassTurn` and `Put` mirror `put_disc` step by
    step.
  - The game-level meaning of those rules is proved separately:
    - `Legality`: the bracketing rule, stated directly on the rays around a
      cell, is exactly what `is_spot_valid` decides, and `get_valid_spots`
      lists exactly the legal cells in row-major order;
    - `MoveEffect`: the cells a legal move changes are the placed cell and
      the bracketed runs;
    - `RulesProofs`: the counters stay equal to the cell counts, so they sum
      to 64;
    - `Opening`: the opening position and its four legal spots.
- **The evaluator** (`evaluator.dfy`, module `Evaluator`).
  - `heuristic` is built from a local 8×8 weight table, overwritten next to
    owned corners, followed by a scoring loop.
  - `find_value` adds the material term once more than 50 discs are on the
    board.
  - Both are methods proved equal to pure functions (`HeuristicValue`,
    `Score`), with bounds proved about those functions.
- **The search** (`search.dfy`, module `Search`; proofs in `search_proofs.dfy`,
  module `SearchProofs`).
  - `minmax` and the selection loop of `write_valid_spot` are methods over
    copies of the board object.
  - They are proved equal to a fail-soft alpha-beta function `AlphaBeta`
    over the game tree that `minmax` explores (`Tree`).
  - `AlphaBeta` is then proved sound against plain minimax `Minimax`, with
    the same label flipping at every level.
  - As a result, `write_valid_spot` picks the first candidate of greatest
    minimax value, and the chosen spot is a legal move.

Modelling decisions:

- The global `player` is the explicit parameter `self` of the evaluator and
  the search.
- The global `board` and `next_valid_spots` read from the input become the
  parameters of `Search.WriteValidSpot`.
- Cells are `int`, as in the source. The board invariant `Rules.Inv`
  requires every cell to be EMPTY, BLACK or WHITE, and `write_valid_spot`
  requires this of its input grid.
- `get_disc`, `set_disc` and `is_spot_on_board` are array accesses and the
  predicate `Geometry.OnBoard`. `is_disc_at` is `Rules.IsDiscAt`, and
  `get_next_player` is `Rules.Opponent` (`3 - pl`).
- `put_disc` and `is_spot_valid` read the centre cell with no bounds check,
  so the model requires the spot to be on the board. The root requires
  every listed candidate to be on the board (`Search.AllOnBoard`).
- The density test of `heuristic` reads neighbours with no bounds check.
  For edge cells that is an out-of-range read. The model reads an
  off-board neighbour as EMPTY (`Evaluator.Occupied`, `Evaluator.Cell`).
- The fourth disjunct of the density test checks `(i-1, j-1)` twice. It is
  modelled as written, and `Evaluator.DenseReads` shows that this makes the
  diagonal pair redundant.
- The `return 0` of `minmax` for a label that is neither side is modelled
  (`Search.ValueOther`). Labels flip with `3 - label` whether or not the
  side to move passed, as in the source.
- `int` arithmetic is unbounded in the model. Every score lies within
  ±7360 (`Evaluator.ScoreBounded`), and so does every value `minmax`
  returns on the boards the program searches, whatever its window
  (`SearchProofs.ValueBounded`, `SearchProofs.RootValueBounded`): far inside
  32-bit range.

## Model

| member | source | states |
|---|---|---|
| Geometry.DirectionsComplete | version3.cpp:41-45 | the eight entries of `directions` are exactly the eight unit offsets around a cell |
| Rules.Closing | version3.cpp:117-121 | the walk beyond the neighbour passes only on-board cells that are neither empty nor the mover's, lying consecutively on the ray, and succeeds only on a disc of the mover |
| Rules.Flips | version3.cpp:128-144 | the discs one direction collects lie consecutively on the ray from the centre, start with an opponent disc, are closed by a mover's disc, and are non-empty exactly when the direction brackets |
| Othello.OthelloBoard.constructor | version3.cpp:54-72 | the new board holds the given grid, counters from the cell counts with EMPTY as 64 minus the discs, the given side, not done, winner -1, and the legal list of that side; on a well-formed grid the board invariant holds |
| Othello.OthelloBoard.CountDiscs | version3.cpp:56-67 | the counting loops leave the BLACK and WHITE cell counts in `disc_count[1]` and `[2]`, and 64 minus both in `[0]` |
| Othello.OthelloBoard.Copy | version3.cpp:75-84 | the copy has fresh arrays holding the same state and keeps the invariant |
| Othello.OthelloBoard.Init | version3.cpp:148-150 | the default constructor yields the opening state, which satisfies the invariant |
| Othello.OthelloBoard.Reset | version3.cpp:151-166 | reset yields the opening grid, counters 60/2/2, BLACK to move, not done, winner -1, and the legal list of BLACK |
| Othello.OthelloBoard.SetUpGrid | version3.cpp:152-158 | every cell is cleared, then BLACK is placed on (3,4) and (4,3) and WHITE on (3,3) and (4,4) |
| Othello.OthelloBoard.ClearBoard | version3.cpp:152-156 | after the nested loops every cell is EMPTY |
| Othello.OthelloBoard.GetValidSpots | version3.cpp:167-179 | the nested scan returns `Rules.ValidSpots` of the grid for the side to move, whose meaning `Legality.ValidSpotsIff` states |
| Othello.OthelloBoard.FlipDiscs | version3.cpp:125-146 | the grid and counters after the eight directions are those of `FlipDirs`, each direction reading the grid the previous ones left; `MoveEffect.PlaceDiscEffect` states its effect |
| Othello.OthelloBoard.FlipDirection | version3.cpp:126-145 | one direction turns its bracketed run and moves its size between the counters, or changes nothing when it brackets nothing |
| Othello.OthelloBoard.RunToFlip | version3.cpp:128-144 | the while loop returns the discs of the bracketed run, or nothing when the walk leaves the board or meets an empty cell |
| Othello.OthelloBoard.TurnRun | version3.cpp:134-140 | every disc of the run is set to the mover, and `discs.size()` moves from the opponent's counter to the mover's |
| Othello.OthelloBoard.PutDisc | version3.cpp:180-208 | the new state and returned flag are those of `Rules.Put` on the old state, and the board invariant is kept |
| Othello.OthelloBoard.PlaceAndFlip | version3.cpp:186-189 | set_disc, the two counter updates, then flip_discs |
| Othello.OthelloBoard.SetDisc | version3.cpp:186-188 | the placed cell holds the mover; the mover's counter goes up by one and the EMPTY counter down by one |
| Othello.OthelloBoard.EndTurn | version3.cpp:190-206 | control passes to the opponent when it has a spot, else back to the mover when it has one, else the game ends with the winner by disc count (EMPTY on a tie); the list is recomputed for the final side |
| Legality.RunClosedUnique | version3.cpp:117-119 | a direction closes at most one run, because the first disc of the mover ends the walk |
| Legality.ClosingReaches | version3.cpp:117-121 | a walk over passable cells that reaches a disc of the mover succeeds |
| Legality.BracketsRun | version3.cpp:111-121 | a direction the test accepts closes a run whose length is one more than the discs collected |
| Legality.RunBrackets | version3.cpp:111-121 | a direction that closes a run passes the test |
| Legality.BracketsIff | version3.cpp:111-121 | the direction test succeeds if and only if the direction closes a run, which then ends just past the collected discs |
| Legality.BracketsFromIff | version3.cpp:111-123 | the direction loop from the k-th direction succeeds if and only if one of the remaining directions brackets |
| Legality.IsSpotValidIff | version3.cpp:108-124 | is_spot_valid holds if and only if the cell is empty and some direction has an adjacent opponent disc, then opponent discs, then a disc of the mover on the board |
| Legality.ValidSpotsBelowIff | version3.cpp:167-179 | a cell is listed among the first n cells if and only if it lies there and is legal |
| Legality.ValidSpotsBelowSorted | version3.cpp:169-177 | the list is in strictly increasing row-major order, so it has no duplicates |
| Legality.ValidSpotsIff | version3.cpp:167-179 | get_valid_spots lists every legal cell and only legal cells, each once, in row-major order |
| Legality.CanMoveIff | version3.cpp:194-197 | a side has a legal cell exactly when get_valid_spots lists something for it |
| Legality.PassTurnRule | version3.cpp:190-206 | the opponent moves next exactly when it has a legal cell, the mover keeps the turn exactly when the opponent has none, and the game ends, with the winner by disc count, exactly when neither side has a legal cell |
| Legality.PutDoneRule | version3.cpp:180-207 | put_disc returns true exactly on a legal cell, and ending a game in progress means the cell was illegal or neither side can move afterwards |
| MoveEffect.ClosingAgree | version3.cpp:133-143 | the walk reads only the cells of its own ray |
| MoveEffect.FlipsAgree | version3.cpp:128-144 | the run a direction turns depends only on the cells of that ray |
| MoveEffect.FlipsOnRun | version3.cpp:128-144 | a cell is turned by a direction if and only if it lies strictly inside the run that direction closes |
| MoveEffect.FlippedIffOnRun | version3.cpp:126-145 | a cell is turned by one of the eight directions if and only if it lies on some closed run from the centre |
| MoveEffect.RayOutside | version3.cpp:126-145 | a cell on one direction's ray is neither the centre nor turned by an earlier direction, so the order of directions does not matter |
| MoveEffect.CellsStep | version3.cpp:126-145 | one more direction of flip_discs turns exactly its run of the original grid, and earlier turns are kept |
| MoveEffect.FlipDirsCells | version3.cpp:125-146 | after k directions, a cell holds the mover if one of them turned it on the original grid, and is otherwise unchanged |
| MoveEffect.FlipDirsEmptyCount | version3.cpp:138-139 | flip_discs never touches the EMPTY counter |
| MoveEffect.PlaceDiscEffect | version3.cpp:186-189 | after a legal move the placed cell is the mover's, every other cell is the mover's if it lies on a run closed from the spot and is unchanged otherwise, and the empty count drops by exactly one |
| MoveEffect.RunCellsOpponent | version3.cpp:133-143 | on a well-formed grid every cell of a closed run was an opponent disc |
| RulesProofs.CountBelowUpdate | version3.cpp:62-63 | changing one cell changes a prefix count by the loss of the old value and the gain of the new |
| RulesProofs.CountUpdate | version3.cpp:62-63 | changing one cell changes the count of v by the loss of the old value and the gain of the new |
| RulesProofs.CountsSumBelow | version3.cpp:58-67 | on cells that are EMPTY, BLACK or WHITE the three prefix counts add up to the prefix length |
| RulesProofs.CountsSum | version3.cpp:67 | on such cells the three counts add up to the length, so `64 - black - white` is the empty count |
| RulesProofs.PaintAt | version3.cpp:135-137 | a painted cell holds the paint, and every other cell is untouched |
| RulesProofs.PaintAtIndex | version3.cpp:135-137 | the same, for a grid position |
| RulesProofs.PaintCount | version3.cpp:135-139 | painting distinct opponent discs moves exactly their number from the opponent's count to the mover's |
| RulesProofs.FlipStepKeeps | version3.cpp:134-139 | one direction keeps the counters equal to the cell counts and only turns opponent discs into the mover's |
| RulesProofs.FlipDirsKeeps | version3.cpp:125-146 | all directions keep the counters exact and only turn opponent discs into the mover's |
| RulesProofs.PlaceKeeps | version3.cpp:186-188 | placing on an empty cell keeps the grid well-formed and the counters exact |
| RulesProofs.PutLegal | version3.cpp:186-207 | a legal put_disc places, flips, passes the turn and returns true |
| RulesProofs.PutIllegal | version3.cpp:180-185 | an illegal put_disc returns false, sets done and the opponent as winner, and leaves grid, counters, side and list unchanged |
| RulesProofs.PassTurnSpots | version3.cpp:190-206 | the turn handover leaves grid and counters alone, and the list is the legal list of the final side |
| RulesProofs.PlaceDiscKeeps | version3.cpp:186-189 | the board part of a legal move keeps the counters exact and turns only opponent discs, besides the placed one |
| RulesProofs.PassTurnInv | version3.cpp:190-206 | the handover re-establishes the board invariant |
| RulesProofs.LegalPutKeepsInv | version3.cpp:186-207 | a legal put_disc keeps the board invariant |
| RulesProofs.PutKeepsInv | version3.cpp:180-208 | every put_disc keeps the counters equal to the cell counts, summing to 64, and the list equal to the legal spots |
| RulesProofs.InitInv | version3.cpp:54-72 | the constructor's state satisfies the board invariant on a well-formed grid |
| RulesProofs.OpeningCountBelow | version3.cpp:152-162 | the prefix counts of the opening grid, with the centre discs at positions 27, 28, 35 and 36 |
| RulesProofs.OpeningWellFormed | version3.cpp:152-158 | the opening grid holds only EMPTY, BLACK and WHITE |
| RulesProofs.OpeningInv | version3.cpp:151-166 | the opening grid has 60 empty cells and 2 discs of each side, and the reset state satisfies the invariant |
| RulesProofs.OpeningFrom | version3.cpp:152-158 | the four centre assignments on a cleared grid give the opening grid |
| RulesProofs.FlipDirsNext | version3.cpp:126 | flip_discs over k+1 directions is one more direction on the grid the first k left |
| RulesProofs.FlipStepNone | version3.cpp:129-130 | a direction without an adjacent opponent disc, or whose walk fails, changes nothing |
| RulesProofs.FlipStepOf | version3.cpp:134-140 | a direction with a closed run paints it and transfers its size |
| RulesProofs.WalkStep | version3.cpp:142-143 | passing one more opponent disc extends the collected run by that disc |
| Opening.OpeningDiscs | version3.cpp:157-158 | the only WHITE discs of the opening stand on (3,3) and (4,4), the only BLACK ones on (3,4) and (4,3) |
| Opening.OpeningLegal | version3.cpp:157-159 | in the opening, BLACK may play exactly on (2,3), (3,2), (4,5) and (5,4) |
| Opening.OpeningRunLength | version3.cpp:111-121 | in the opening every run BLACK closes is one WHITE disc on (3,3) or (4,4), followed by a BLACK disc on (3,4) or (4,3) |
| Opening.OpeningRun | version3.cpp:111-121 | in the opening a run closes only from (2,3), (3,2), (4,5) or (5,4) |
| Opening.OpeningSpotLegal | version3.cpp:157-158 | each of those four spots is legal for BLACK |
| Opening.ValidOpeningBelow | version3.cpp:163 | the opening legal list among the first n cells, in row-major order |
| Opening.OpeningSpots | version3.cpp:151-166 | reset lists exactly the four spots (2,3), (3,2), (4,5), (5,4) in that order |
| Evaluator.NeighboursExact | version3.cpp:325-335 | each corner's override touches exactly its three listed neighbours |
| Evaluator.CornerWeights | version3.cpp:325-335 | a neighbour of a corner weighs 50 when self holds the corner, -50 when the opponent does, and its base weight when the corner is empty; every other cell keeps its base weight |
| Evaluator.BaseBounded | version3.cpp:314-323 | every base weight lies in [-100, 100] |
| Evaluator.WeightBounded | version3.cpp:314-335 | every adjusted weight lies in [-100, 100] |
| Evaluator.DenseReads | version3.cpp:347-349 | because the fourth disjunct repeats (i-1, j-1), the density test is a vertical pair, a horizontal pair, or the single cell (i-1, j-1) |
| Evaluator.RowScoreBounded | version3.cpp:339-352 | one row contributes between -100 and 110 per cell |
| Evaluator.ScoreBelowBounded | version3.cpp:337-355 | n rows contribute between -800n and 880n |
| Evaluator.HeuristicBounded | version3.cpp:312-356 | heuristic lies in [-6400, 7040] |
| Evaluator.ScoreBounded | version3.cpp:359-366 | find_value of a board whose counters are cell counts lies within ±7360 |
| Evaluator.Cell | version3.cpp:347-348 | a neighbour read is non-zero exactly when the cell is on the board and occupied |
| Evaluator.Heuristic | version3.cpp:312-356 | the scoring loops return `HeuristicValue`: self's discs add their weight, the opponent's subtract it, empty cells add 0, and each dense cell adds 10 |
| Evaluator.CellValue | version3.cpp:341-349 | one cell's term: its signed weight by owner plus the density bonus |
| Evaluator.BoardValue | version3.cpp:314-335 | the local table holds the corner-adjusted weight of every cell |
| Evaluator.OverrideCorner | version3.cpp:325-335 | one corner rule sets its three neighbours to 50 or -50 by owner and keeps every other cell |
| Evaluator.SetThree | version3.cpp:325-326 | the chained assignment sets exactly the three cells |
| Evaluator.FindValue | version3.cpp:359-366 | 5 × (self's discs − opponent's) + heuristic once more than 50 discs are down, heuristic alone otherwise |
| Search.Child | version3.cpp:383-385 | the copy after put_disc on the d-th cached spot keeps the board invariant |
| Search.Candidate | version3.cpp:416-417 | the board built from the input grid and self, after put_disc on a candidate, satisfies the invariant |
| Search.TreeShape | version3.cpp:375-406 | the explored tree is a find_value leaf at depth 0 or at the end of the game, and otherwise has one subtree per cached spot, that of the child board one level shallower |
| Search.RootTreeAt | version3.cpp:416-422 | each root tree is the candidate's tree at depth 11 when at most 11 cells are empty after the move, else 5 |
| Search.ValueLeaf | version3.cpp:375-378 | minmax returns find_value at depth 0 or when the game is done |
| Search.ValueMax | version3.cpp:379-392 | with self's label minmax runs the maximizing loop from value -INF |
| Search.ValueMin | version3.cpp:393-406 | with the opponent's label minmax runs the minimizing loop from value INF |
| Search.ValueOther | version3.cpp:407 | with any other label minmax returns 0 |
| Search.MaxFromStep | version3.cpp:382-390 | one turn of the maximizing loop raises value and alpha and stops once alpha reaches B |
| Search.MinFromStep | version3.cpp:396-404 | one turn of the minimizing loop lowers value and beta and stops once beta reaches A |
| Search.Minmax | version3.cpp:368-408 | minmax returns the alpha-beta value of the tree it explores, which `SearchProofs.MinmaxSound` relates to minimax |
| Search.MaxNode | version3.cpp:379-392 | the maximizing branch returns the maximum over the children searched before the cut-off |
| Search.MinNode | version3.cpp:393-406 | the minimizing branch returns the minimum over the children searched before the cut-off |
| Search.ChildValue | version3.cpp:384-387 | one iteration searches the copy after the d-th spot one level shallower with the label flipped |
| Search.NextBoard | version3.cpp:384-385 | the copy after put_disc is a valid board whose state is the child state |
| Search.WriteValidSpot | version3.cpp:410-429 | the selection loop returns the index `RootChoice` defines, whose meaning `SearchProofs.WriteValidSpotBest` states |
| Search.CandidateValue | version3.cpp:416-422 | one candidate is valued by minmax on a fresh board after the move, with the opponent's label and window (A, INF) |
| SearchProofs.MaxAllFloor | version3.cpp:381 | the maximum over the children never falls below -INF |
| SearchProofs.MinAllCeiling | version3.cpp:395 | the minimum over the children never rises above INF |
| SearchProofs.AlphaBetaSound | version3.cpp:368-408 | fail-soft soundness: at or below A the result bounds minimax from above, strictly inside (A, B) it equals minimax, at or above B it bounds it from below |
| SearchProofs.MaxLoopSound | version3.cpp:379-392 | the maximizing loop is fail-soft sound for the maximum of the value so far and the remaining children, and never returns less than the value so far |
| SearchProofs.MinLoopSound | version3.cpp:393-406 | the minimizing loop is fail-soft sound for the minimum, and never returns more than the value so far |
| SearchProofs.MinimaxBounded | version3.cpp:368-408 | minimax of a tree with leaves in [-K, K] and no childless node lies in [-K, K] |
| SearchProofs.MaxAllBounded | version3.cpp:379-392 | the maximum over the children is at most K, and at least -K when a child remains |
| SearchProofs.MinAllBounded | version3.cpp:393-406 | the minimum over the children is at least -K, and at most K when a child remains |
| SearchProofs.FullWindow | version3.cpp:368-408 | with the full window (-INF, INF) alpha-beta gives the exact minimax value of such a tree |
| SearchProofs.AlphaBetaBounded | version3.cpp:368-408 | on a tree whose leaves lie in [-K, K] and whose nodes have children, minmax returns a value in [-K, K] for any window, never its starting -INF or INF |
| SearchProofs.MaxLoopBounded | version3.cpp:379-392 | the maximizing loop returns at least its value so far and at most K, and at least -K once it searches a child |
| SearchProofs.MinLoopBounded | version3.cpp:393-406 | the minimizing loop returns at most its value so far and at least -K, and at most K once it searches a child |
| SearchProofs.PutLive | version3.cpp:190-206 | after put_disc the game is over or the side to move has a legal spot |
| SearchProofs.ChildLive | version3.cpp:384-385 | every board minmax reaches by put_disc is live |
| SearchProofs.KidState | version3.cpp:384-387 | each subtree is the tree of a live child board that keeps the invariant |
| SearchProofs.NodeOfBounded | version3.cpp:380-390 | a node whose children are all bounded is bounded |
| SearchProofs.TreeBounded | version3.cpp:375-406 | from a live board every leaf lies within ±7360 and every inner board has a spot to play |
| SearchProofs.NodeBounded | version3.cpp:379-406 | the same, for an inner node |
| SearchProofs.KidBounded | version3.cpp:384-387 | the same, for one subtree |
| SearchProofs.MinmaxSound | version3.cpp:368-408 | minmax on a board is a fail-soft answer, for its window, of the minimax value of the tree it explores |
| SearchProofs.MinmaxExact | version3.cpp:368-408 | on a live board with the full window minmax returns the exact minimax value, within ±7360 |
| SearchProofs.ValueBounded | version3.cpp:368-408 | minmax on a live board returns a value within ±7360 for any window |
| SearchProofs.RootLoopBest | version3.cpp:414-429 | the selection loop keeps A equal to the best minimax value seen and index at its first occurrence, and ends with the first index of greatest value |
| SearchProofs.WriteValidSpotBest | version3.cpp:414-429 | the chosen index is -1 exactly when there are no candidates, and otherwise the first candidate whose minimax value is greatest |
| SearchProofs.RootTreeBounded | version3.cpp:416-422 | each candidate's tree has leaves within ±7360 and no childless node, and its minimax value is the candidate's move value |
| SearchProofs.RootValueBounded | version3.cpp:416-428 | every value_cur the selection loop compares lies within ±7360, whatever the current A |
| SearchProofs.WriteValidSpotLegal | version3.cpp:414-429 | when the candidates are the legal spots of the input board, every candidate is on the board and, when a legal spot exists, the chosen index is in range and names a legal spot |

## Left out

- Input and output: `main`, `read_board`, `read_valid_spots` and the file
  write in `write_valid_spot` (version3.cpp:292-309, 433-448). These are
  file and argument handling. The grid, the player and the spot list are
  parameters of `Search.WriteValidSpot`.
- Printing `next_valid_spots[index]` when no spot exists (index -1) reads
  out of range. The model returns the index and proves it is -1 exactly
  when the list is empty.
- The text encoders `encode_player`, `encode_spot`, `encode_output` and
  `encode_state` (version3.cpp:211-275). They only format text for display,
  and nothing in the decision uses them.
- `srand(time(NULL))` and the commented-out random choice. They do not
  affect the decision.
- The `Point(float, float)` constructor, which truncates to `int`.
  Coordinates are `int` throughout.
- The density bonus reads neighbours outside the board on edge cells, which
  is undefined behaviour in C++. The model reads them as EMPTY, so the bonus
  on edge cells may differ from what a compiled program does.
- `put_disc` and `is_spot_valid` on a spot off the board read outside the
  grid. Being on the board is a precondition.
- 32-bit `int` overflow. It cannot occur: scores stay within ±7360 and
  search values within ±10^8.
- Othello.OthelloBoard.constructor: ensures the board invariant only when
  the given grid holds 0, 1 and 2 alone and the side is 1 or 2. The C++
  accepts any ints, and the model then states only the resulting fields.
