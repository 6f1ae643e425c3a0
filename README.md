# Othello engine and alpha-beta player, modelled in Dafny

This project models the two parts of the Othello program that hold its logic:

- The rules engine, the class `OthelloGame` of `othello_game.py`:
  - an 8x8 board whose cells hold 1 (dark), -1 (light) or 0 (empty);
  - the side to move;
  - the legality test, disk flipping, making a move, listing the legal moves, the end-of-game test and the winner.
- The search player of `ai_agent.py`:
  - a depth-limited minimax with alpha-beta pruning over copies of the game;
  - the weighted position evaluator with its five terms;
  - the count of "stable" disks.

The engine is imperative. `Othello.OthelloGame` keeps the board in an `array2<int>` that its methods update in place, next to the side to move. A ghost field `cells` holds the same board as a value (`seq<seq<int>>`). Each method is proved against a pure function of module `Rules`:

- `ValidMove`: a move is legal when the target is empty and one of the eight direction rays starts with a run of opponent disks closed by an own disk.
- `FlipAll`: the eight scans of `flip_disks`, in order.
- `Play`: place the disk, then flip.
- `ValidMoves`: the legal cells in row-major order.
- `GameOver`: no legal move, or a full board.
- `Winner`: compares the disk counts.

Module `MoveProperties` proves what a move does to the board:

- which cells change, and how;
- the disk counts after a move;
- the agreement of the legality test with an independent statement of the bracketing rule;
- the end-of-game test.

Module `OpeningPosition` proves facts about the opening position and about dark's first move.

The search is modelled in module `Search`:

- The game tree that `alphabeta` explores is a value, `GameTree`.
- `AlphaBetaTree` states, move by move, what the pruned search returns on that tree: the first strict improvement wins, and the scan stops once `beta <= alpha`.
- `Minimax` is the plain, unpruned reference.
- `AlphaBeta` and its loops `MaxSearch` and `MinSearch` are methods. They copy the game for each child, make the move on the copy and recurse one ply shallower. They are proved to return exactly `AlphaBetaTree` of the game tree.
- Lemmas prove that, within any non-empty window, the pruned value agrees with `Minimax` once both are clamped to the window. With the default window the two are equal.
- `GetBestMove` is proved to return the first legal move, in the listed order, whose minimax value is the greatest.

Module `Evaluation` models the evaluator: `Evaluate`, and the method `EvaluateGameState` proved equal to it. It also holds the stability count, as the function `Stability` and the method `CalculateStability`.

Floats are modelled as exact `real`s. The infinite defaults of `alpha` and `beta` are the two extra values of `ExtReal`.

## Model

| member | source | states |
|---|---|---|
| Othello.OthelloGame.constructor | othello_game.py:2-8 | A new game holds the opening position: dark on (3,3) and (4,4), light on (3,4) and (4,3), every other cell empty. Dark is to move. |
| Othello.OthelloGame.IsValidMove | othello_game.py:10-42 | The result is the legality rule `ValidMove`: false on an occupied cell; otherwise true exactly when one of the eight direction scans finds a flanked run. The board is not changed. |
| Othello.OthelloGame.ScanFlanks | othello_game.py:29-40 | The scan along one direction reports true exactly when that ray starts with at least one opponent disk and an own disk follows the run. |
| Othello.OthelloGame.FlipDirection | othello_game.py:58-73 | One direction of `flip_disks`: the opponent run next to the target turns to the mover's colour when an own disk closes it; otherwise nothing changes (`FlipRay`). |
| Othello.OthelloGame.PaintCells | othello_game.py:72-73 | Every collected cell is set to the mover's colour, in list order; the board stays well formed. |
| Othello.OthelloGame.FlipDisks | othello_game.py:44-73 | The board becomes the eight direction flips applied in the source's direction order (`FlipAll`). |
| Othello.OthelloGame.MakeMove | othello_game.py:75-82 | A legal move places the mover's disk, flips the bracketed runs (`Play`) and passes the turn to the other side. An illegal move leaves the board and the side to move unchanged. |
| Othello.OthelloGame.GetValidMoves | othello_game.py:106-115 | The result is `ValidMoves`: every legal cell, no other cell, without repeats, in strictly increasing row-major order. |
| Othello.OthelloGame.IsGameOver | othello_game.py:84-90 | The game is over when the side to move has no move or the board is full. This is exactly "the side to move has no move": there is no pass. |
| Othello.OthelloGame.GetWinner | othello_game.py:92-104 | 1 exactly when dark has more disks, -1 exactly when light has more, 0 exactly on equal counts. |
| Rules.ValidMoves | othello_game.py:106-115 | The list holds exactly the on-board cells where the move is legal, in strictly increasing row-major order, with no repeats. |
| Rules.Winner | othello_game.py:92-104 | The three outcomes, each if and only if the corresponding comparison of the disk counts holds. |
| MoveProperties.ValidMoveIff | othello_game.py:14-42 | The engine's scan-based legality agrees with the bracketing rule in both directions: the target is empty, and in some direction k >= 1 in-bounds opponent disks follow it, then an in-bounds own disk. |
| MoveProperties.PlayAt | othello_game.py:75-82 | After a move, a cell holds the mover's colour if it is the target or was flipped along one of the eight rays; every other cell keeps its value. |
| MoveProperties.FlippedWasOpponent | othello_game.py:58-73 | Only opponent disks are flipped, and the target is never among them. |
| MoveProperties.PlayShape | othello_game.py:75-82 | The target takes the mover's colour. Every other cell keeps its value or turns from opponent to mover. No occupied cell becomes empty. Cells stay in {-1, 0, 1}. |
| MoveProperties.FirstOfRayFlips | othello_game.py:58-73 | On a ray that flanks, the disk next to the target is an opponent disk and turns to the mover. |
| MoveProperties.PlayTurnsSome | othello_game.py:79-81 | A legal move turns at least one disk. |
| MoveProperties.PlayCounts | othello_game.py:79-81 | A legal move turns k >= 1 opponent disks. The mover gains 1 + k disks, the opponent loses k, and the empty cells drop by exactly one. |
| MoveProperties.GameOverIff | othello_game.py:84-90 | A full board offers no legal move, so the end-of-game test holds exactly when the move list is empty. |
| MoveProperties.WinnerNegate | othello_game.py:92-104 | Swapping the colour of every disk negates the winner. |
| OpeningPosition.OpeningAt | othello_game.py:2-8 | The opening position, cell by cell. |
| OpeningPosition.OpeningCounts | othello_game.py:2-8 | The opening position has two dark disks, two light disks and 60 empty cells. |
| OpeningPosition.OpeningMoveIff | othello_game.py:10-42 | A cell is a legal first move for dark exactly when it is (2,4), (3,5), (4,2) or (5,3). |
| OpeningPosition.OpeningValidMoves | othello_game.py:106-115 | Dark's move list in the opening position is [(2,4), (3,5), (4,2), (5,3)]. |
| OpeningPosition.FirstMoveFlips | othello_game.py:44-73 | Dark's first move at (2,4) flips exactly the light disk at (3,4). |
| OpeningPosition.FirstMoveCounts | othello_game.py:75-82 | After dark plays (2,4) from the opening, dark has 4 disks and light has 1. |
| OpeningPosition.FlippedAligned | othello_game.py:58-73 | A flipped disk lies on the row, the column or a diagonal through the target. |
| Evaluation.Neighbors | ai_agent.py:150-156 | The neighbour list holds exactly the on-board cells one step from (row, col) in some direction, the cell itself excluded. |
| Evaluation.AroundIff | ai_agent.py:151-155 | The eight candidate offsets cover exactly the cells one step away. |
| Evaluation.IsStableDisk | ai_agent.py:167-171 | The test holds when every on-board neighbour of the cell holds p, or the cell is an edge or corner cell; in particular it holds on every border cell. `InnerStableIff` states what it means off the border. |
| Evaluation.BorderIsStable | ai_agent.py:167-171 | Every border cell (an edge or a corner) passes the stability test, whatever its neighbours hold. |
| Evaluation.InnerStableIff | ai_agent.py:167-171 | A cell off the border passes the stability test exactly when all eight cells around it hold the side to move. |
| Evaluation.StabilityParts | ai_agent.py:158-176 | The stability term counts every corner and edge disk of the side to move, plus the centre-block disks (rows and columns 2 to 5) that pass the test. Nothing else is counted, so the ring of rows and columns 1 and 6 off the border never counts. |
| Evaluation.StabilityBounds | ai_agent.py:158-178 | The stability term is at most 44 and at most the number of disks the side to move has. |
| Evaluation.StableCountIn | ai_agent.py:174-176 | The inner loop counts the region's cells that hold the side to move and pass the stability test. |
| Evaluation.CalculateStability | ai_agent.py:139-178 | The count over corners, edges and the centre block, in order, equals the stability term `Stability`. |
| Evaluation.SumInBalance | ai_agent.py:115-125 | A raw sum of cell values over a list is its dark disks minus its light disks, whichever side is to move, and lies within the list's length. |
| Evaluation.OccupancyBounds | ai_agent.py:115-125 | Corner occupancy lies in [-4, 4] and edge occupancy in [-24, 24]. |
| Evaluation.OpponentMobility | ai_agent.py:109-111 | The opponent move count, taken on a fresh game, is always 4. |
| Evaluation.EvaluateTerms | ai_agent.py:96-134 | The evaluation is coin parity + 2 * (own moves - 4) + 5 * (dark minus light corner disks) + 3 * stability + 2.5 * (dark minus light edge disks). |
| Evaluation.EvaluateGameState | ai_agent.py:85-136 | The method returns `Evaluate` of the game's board for its side to move. |
| Search.GameTreeShape | ai_agent.py:36-39 | The searched tree is a leaf holding the evaluation exactly at depth 0 or once the game is over. Otherwise it has one branch per legal move. |
| Search.GameTreeBranch | ai_agent.py:39-51 | Branch k is legal move k, in the listed order. It leads to the position after that move, with the other side to move, one ply shallower. |
| Search.AlphaBetaClamp | ai_agent.py:20-82 | For any window with alpha < beta, the pruned value and the minimax value agree once clamped to the window. |
| Search.AlphaBetaExact | ai_agent.py:20-22 | With the default window (-inf, +inf), the pruned search returns exactly the minimax value. |
| Search.AlphaBetaFinite | ai_agent.py:36-82 | The value is always finite. At a leaf there is no move; at a node the move is one of the node's legal moves, never none. |
| Search.MinimaxFinite | ai_agent.py:36-82 | The minimax value is finite. |
| Search.RootChoice | ai_agent.py:41-61 | At a maximizing node with the default window, the search returns the greatest child value and the first move that reaches it. |
| Search.RootChoiceMin | ai_agent.py:62-82 | At a minimizing node with the default window, the search returns the least child value and the first move that reaches it: a later move of equal value does not replace it. |
| Search.CopyGame | ai_agent.py:46-48 | The copy is a new game on a new board, with the same position and the same side to move. |
| Search.SearchChild | ai_agent.py:45-51 | Move i is played on a copy and searched one ply deeper; the value is that of the pruned search of branch i. |
| Search.MaxSearch | ai_agent.py:41-61 | The maximizing loop returns the pruned search's value and move for the node. |
| Search.MinSearch | ai_agent.py:62-82 | The minimizing loop returns the pruned search's value and move for the node. |
| Search.AlphaBeta | ai_agent.py:20-82 | The method returns `AlphaBetaTree` of the game tree: the evaluation and no move at depth 0 or at game end, otherwise the pruned scan. It has no `modifies` clause, so the game it is given is left untouched. |
| Search.GetBestMove | ai_agent.py:4-17 | No move at depth 0 or at game end. Otherwise the first legal move whose minimax value is the greatest. |

## Left out

- The pygame presentation is not part of this model. That is `othello_gui.py`, `menu_gui.py`, `button_gui.py` and the GUI sources: windows, menus, buttons, sound, rendering and event loops.
- Floating point is modelled as exact `real`. The weights 1.0, 2.0, 5.0, 3.0 and 2.5 give multiples of 0.5, so no rounding arises. The infinities become `ExtReal.NegInf` and `ExtReal.PosInf`.
- The `player_mode` constructor argument that `ai_agent.py` passes is dropped (`ai_agent.py:46, 67, 110`). The engine's constructor takes no such argument and never reads it. A fresh game is always the opening position with dark to move.
- Opening moves: the model follows the code's placement of dark on (3,3) and (4,4). Dark's first moves are therefore (2,4), (3,5), (4,2) and (5,3), and the first-move example uses (2,4).
- Othello.OthelloGame.IsValidMove: requires 0 <= row, col < 8. The Python code does not bounds-check, and a negative index would wrap around to the far side of the board.
- Othello.OthelloGame.MakeMove: requires 0 <= row, col < 8, for the same reason.
- The evaluation is always for the node's side to move, which alternates with each ply. The search never negates it, exactly as written.
- Search.AlphaBeta: takes a ghost parameter `t` naming the game tree of its position, so the caller can relate the result to the tree. The compiled parameters are those of `alphabeta`.
- The loops of `alphabeta` are split into the methods `MaxSearch`, `MinSearch` and `SearchChild`. The inner scans of `is_valid_move`, `flip_disks` and `calculate_stability` are split out the same way. Each keeps the order and the break conditions of the source.
- The copy of the game (`ai_agent.py:46-48`) is `CopyGame`. Like the source, it builds a fresh game and then replaces its board with a copy of the parent's.
- Search depth 8 is only a default. The properties hold for every depth.
- The docstring of `get_best_move` promises a tuple. The model follows the code, which returns only the move.
