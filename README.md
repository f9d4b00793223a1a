# Caro (five in a row) on a 10x10 board — a verified model

This project models the game core of `CaroMidterm-minh/tictactoe.py`:

- the `Board`: a 10x10 grid of cells holding 0 (empty), 1 (cross) or 2 (circle), plus a mark counter;
- the `AI`, which picks a square by:
  - taking an immediate win;
  - otherwise blocking the opponent's immediate win;
  - otherwise running a depth-limited minimax with alpha-beta pruning over a short list of strategic candidate moves;
  - scoring leaves with a table of five-cell windows plus a bias for the central 4x4 block;
- the `Game` object, which keeps the turn bookkeeping.

The model has two layers.

- **Board values** (modules `Seqs`, `Rules`, `Evaluation`, `MoveGen`, `Search`, `AlphaBeta`):
  - a board is a `Grid` (`seq<seq<int>>`) with a mark counter (`State`);
  - every operation of the source is a function on these values;
  - the properties of the game are lemmas about those functions.
  - Winning lines are `Window`s: a start square and one of the four directions.
  - `FinalState` scans them in the source's order: vertical, horizontal, descending, ascending.
  - `AlphaBeta` defines plain minimax with no pruning (`Value`). It proves that the pruned search is fail-soft with respect to it. So from the root's full window the search returns exactly the plain minimax value, with the first best candidate as its move.
- **Objects** (modules `Boards`, `Engine`, `Games`):
  - `Board` is a class over an `array2<int>` that `MarkSqr` updates in place.
  - `AI` is a class whose methods walk the board with the source's loops. Each method is proved to compute the matching board-value function.
  - `Game` is a class whose methods update the turn fields.
  - Every child position in the search is a fresh copy of the board (the source's `copy.deepcopy`). So `AI.Minimax`, `AI.FindWinningMove` and `AI.Eval` have no `modifies` clause, and the board they are given provably stays as it was.

Python's `float('inf')` bounds become the constant `Inf = 1000000`. The board evaluation always lies within `±200000`. Every score of the search lies within that bound too, strictly inside ±`Inf`, for every depth from 0 and every maximum depth up to 10000. That covers the calls `eval` makes: depth 0, maximum depth at most 2.

## Model

| member | source | states |
|---|---|---|
| Rules.Mark | CaroMidterm-minh/tictactoe.py:78-80 | marking a square sets that cell to the player, leaves every other cell as it was, and adds one to the mark counter |
| Rules.InitialConsistent | CaroMidterm-minh/tictactoe.py:17-20 | a new board's counter (0) equals the number of occupied cells, so the counter invariant holds from the start |
| Rules.MarkKeepsConsistent | CaroMidterm-minh/tictactoe.py:78-80 | marking an empty square keeps the counter equal to the number of occupied cells |
| Rules.EmptySqrsSpec | CaroMidterm-minh/tictactoe.py:85-92 | the empty-square list holds exactly the empty on-board squares, each once, in row-major order |
| Rules.FullIffNoEmpty | CaroMidterm-minh/tictactoe.py:94-95 | when the counter agrees with the cells, the board is full (counter 100) iff no square is empty |
| Rules.EmptyIffNoMarks | CaroMidterm-minh/tictactoe.py:97-98 | when the counter agrees with the cells, the board is empty (counter 0) iff every square is empty |
| Rules.InGridIffFits | CaroMidterm-minh/tictactoe.py:32-73 | a window belongs to the ranges the four scans use iff all five of its cells lie on the board |
| Rules.ScanCovers | CaroMidterm-minh/tictactoe.py:32-73 | every window that fits on the board is visited by its direction's scan and by the whole scan |
| Rules.LineIsFive | CaroMidterm-minh/tictactoe.py:34 | a window counts as a line iff its first cell is nonzero and all five cells equal it |
| Rules.FirstOwnerSpec | CaroMidterm-minh/tictactoe.py:32-73 | a scan returns 0 iff none of its windows is a line; otherwise it returns the owner of the first line in scan order |
| Rules.FirstOwnerConcat | CaroMidterm-minh/tictactoe.py:32-73 | scanning one list of windows after another returns the first list's winner if it has one, else the second's |
| Rules.FirstOwnerPrefix | CaroMidterm-minh/tictactoe.py:32-73 | a winner found in a prefix of the scan is the winner of the whole scan |
| Rules.FinalStateSound | CaroMidterm-minh/tictactoe.py:22-76 | a nonzero result is a side that has five in a row, and it is the owner of the first line in the order vertical, horizontal, descending, ascending |
| Rules.FinalStateNoLine | CaroMidterm-minh/tictactoe.py:22-76 | the result is 0 iff no window on the board is a line |
| Rules.FinalStateZero | CaroMidterm-minh/tictactoe.py:22-76 | the result is 0 iff no value has five in a row |
| Rules.HasFiveRange | CaroMidterm-minh/tictactoe.py:34 | on a board of 0/1/2 cells, only 1 or 2 can own five in a row |
| Rules.FinalStateNoWinner | CaroMidterm-minh/tictactoe.py:76 | with no five in a row for either side the result is 0 |
| Rules.FinalStateUnique | CaroMidterm-minh/tictactoe.py:22-76 | when exactly one side has five in a row, the result is that side |
| Evaluation.EvaluateWindow | CaroMidterm-minh/tictactoe.py:166-202 | a window holding both sides scores 0, five own marks 1000, five opposing marks -1000; a window without opposing marks scores at least 0, one without own marks at most 0; every score is within ±1000 |
| Evaluation.EvaluateWindowTable | CaroMidterm-minh/tictactoe.py:184-189 | a window with only own marks (fewer than five) scores 500 for 4+1 empty, 50 for 3+2 empty, 10 for 2+3 empty, else 0 |
| Evaluation.EvaluateWindowSwap | CaroMidterm-minh/tictactoe.py:166-202 | exchanging the two sides negates a window's score |
| Evaluation.WindowTotalBound | CaroMidterm-minh/tictactoe.py:131-152 | a sum of n window scores lies within ±1000·n |
| Evaluation.WindowTotalSwap | CaroMidterm-minh/tictactoe.py:131-152 | exchanging the sides negates a sum of window scores |
| Evaluation.WindowTotalConcat | CaroMidterm-minh/tictactoe.py:131-152 | the window sum over two lists of windows is the sum of the two sums |
| Evaluation.WindowTotalRow | CaroMidterm-minh/tictactoe.py:131-152 | adding one row (column) of windows adds its six window scores to the running total |
| Evaluation.BonusTotalCounts | CaroMidterm-minh/tictactoe.py:156-162 | the central bias is 3 per own mark minus 3 per opposing mark |
| Evaluation.CenterBonusBound | CaroMidterm-minh/tictactoe.py:156-162 | the central bias lies within ±48 |
| Evaluation.BonusBound | CaroMidterm-minh/tictactoe.py:156-162 | the bias over n squares lies within ±3·n |
| Evaluation.WindowsScoreBound | CaroMidterm-minh/tictactoe.py:131-152 | the 192 window scores sum to within ±192000 |
| Evaluation.EvaluateBoardBounded | CaroMidterm-minh/tictactoe.py:115-164 | every board evaluation lies within ±200000 |
| Evaluation.EvaluateBoardTerminal | CaroMidterm-minh/tictactoe.py:119-125 | a board won by the AI alone scores 10000, one won by the opponent alone -10000, a full board without five in a row 0 |
| Evaluation.WindowsScoreSwap | CaroMidterm-minh/tictactoe.py:131-152 | exchanging the sides negates the window part of the evaluation |
| Evaluation.CenterBonusSwap | CaroMidterm-minh/tictactoe.py:156-162 | exchanging the sides negates the central bias |
| Evaluation.EvaluateBoardSwap | CaroMidterm-minh/tictactoe.py:115-164 | the evaluation is zero-sum: exchanging the two sides negates it |
| MoveGen.CenterTopUp | CaroMidterm-minh/tictactoe.py:296-298 | the central top-up adds at most 5 distinct empty central squares (rows and columns 3-6) not already chosen, in row-major order; they are the first such squares: any such square that comes before an added one in row-major order is added too; when it adds fewer than 5, it has added every such square |
| MoveGen.CenterFreeFirst | CaroMidterm-minh/tictactoe.py:296-298 | `center_moves[:5]` keeps a prefix: a free central square earlier in row-major order than a kept one is kept |
| MoveGen.EmptyTopUp | CaroMidterm-minh/tictactoe.py:301-303 | the last top-up adds at most 5 distinct empty squares not already chosen, in row-major order; they are the first such squares of the empty list: one that comes earlier than an added one is added too; when it adds fewer than 5, it has added every such square; it adds at least one when nothing was chosen and a square is empty |
| MoveGen.RemainingFirst | CaroMidterm-minh/tictactoe.py:301-303 | `remaining[:5]` keeps a prefix: in a list without repeats, an unchosen square earlier than a kept one is kept |
| MoveGen.FillUpCenterFirst | CaroMidterm-minh/tictactoe.py:293-303 | a list of 5 or more is not topped up; otherwise the central squares added come before the other empty squares added; a result shorter than 5 holds every empty square |
| MoveGen.FillUpShape | CaroMidterm-minh/tictactoe.py:293-303 | the top-ups keep the chosen squares as a prefix, add only new empty squares, keep the list free of repeats, and leave it non-empty when any square is empty |
| MoveGen.FillUpProps | CaroMidterm-minh/tictactoe.py:273-303 | the adjacent squares come first, in order, and every square added after them is not adjacent to a mark |
| MoveGen.StrategicMoves | CaroMidterm-minh/tictactoe.py:262-309 | at most 10 candidates, each an empty on-board square |
| MoveGen.StrategicMovesDistinct | CaroMidterm-minh/tictactoe.py:262-309 | no candidate appears twice |
| MoveGen.StrategicMovesTopUp | CaroMidterm-minh/tictactoe.py:273-307 | past the opening: with 5 or more adjacent squares the candidates are the first 10 of them, with no top-up; after the adjacent squares, the central squares added come before every other square added; fewer than 5 candidates means every empty square is a candidate |
| MoveGen.StrategicMovesOpening | CaroMidterm-minh/tictactoe.py:266-269 | the opening branch: at most 5 empty central squares in row-major order, the first ones; with fewer than 5, all of them |
| MoveGen.StrategicMovesSpec | CaroMidterm-minh/tictactoe.py:262-309 | with fewer than 3 marks: at most 5 candidates, all in rows and columns 3-6, in row-major order, and they are the first empty central squares (an earlier empty central square is a candidate too; with fewer than 5 candidates every empty central square is one); otherwise the adjacent empty squares come first and no later candidate is adjacent to a mark |
| MoveGen.CenterAllOccupied | CaroMidterm-minh/tictactoe.py:268-269 | if no central square is free, all 16 central squares are occupied |
| MoveGen.CenterHasRoom | CaroMidterm-minh/tictactoe.py:267-269 | with fewer than 3 marks some central square is free |
| MoveGen.StrategicMovesNonEmpty | CaroMidterm-minh/tictactoe.py:262-309 | when the counter agrees with the cells and a square is empty, there is at least one candidate |
| Search.MinimaxTerminal | CaroMidterm-minh/tictactoe.py:207-216 | above the depth limit, a board won by the AI alone scores 10000 - depth, one won by the opponent alone -10000 + depth, a full board 0, and none proposes a move |
| Search.MaxLoopMove | CaroMidterm-minh/tictactoe.py:224-241 | the maximizing loop always returns a move, one of the candidates |
| Search.MinLoopMove | CaroMidterm-minh/tictactoe.py:243-260 | the minimizing loop always returns a move, one of the candidates |
| Search.MinimaxMove | CaroMidterm-minh/tictactoe.py:205-260 | a move is returned exactly at nodes above the depth limit that are not terminal and have candidates, and it is one of `get_strategic_moves`' candidates, an empty square |
| Search.MinimaxBounded | CaroMidterm-minh/tictactoe.py:205-260 | every score of the search lies within ±200000, strictly inside ±Inf |
| Search.MaxLoopBounded | CaroMidterm-minh/tictactoe.py:224-241 | the maximizing loop returns a score within ±200000 |
| Search.MinLoopBounded | CaroMidterm-minh/tictactoe.py:243-260 | the minimizing loop returns a score within ±200000 |
| Search.FindWinningMoveNone | CaroMidterm-minh/tictactoe.py:311-318 | no move is returned iff no empty square wins at once for the player |
| Search.FindWinningMoveFirst | CaroMidterm-minh/tictactoe.py:311-318 | a returned move is an empty square that wins at once, and no empty square before it in row-major order does |
| Search.FindWinningMoveSpec | CaroMidterm-minh/tictactoe.py:311-318 | both directions together: nothing iff no immediate win, otherwise the first immediate win in row-major order |
| Search.Rnd | CaroMidterm-minh/tictactoe.py:107-112 | a square is returned iff one is empty, and it is an empty on-board square |
| Search.EvalPriorities | CaroMidterm-minh/tictactoe.py:336-357 | on a non-empty board at level 1: an immediate win is played first, otherwise an immediate loss is blocked, each at the first such square; otherwise the move of a search of depth min(max_depth, 2) |
| Search.EvalLegal | CaroMidterm-minh/tictactoe.py:321-362 | whenever a square is empty `eval` proposes an empty on-board square; on an empty board it lies in rows and columns 3-6 |
| AlphaBeta.ValueBounded | CaroMidterm-minh/tictactoe.py:205-260 | plain minimax values lie within ±200000 |
| AlphaBeta.BestOfBounded | CaroMidterm-minh/tictactoe.py:224-241 | the best child value lies within ±200000 |
| AlphaBeta.WorstOfBounded | CaroMidterm-minh/tictactoe.py:243-260 | the worst child value lies within ±200000 |
| AlphaBeta.MinimaxFailSoft | CaroMidterm-minh/tictactoe.py:205-260 | pruning is fail-soft: a score at or below alpha bounds the plain minimax value from above, one at or above beta bounds it from below, one strictly between is that value |
| AlphaBeta.MaxNodeFailSoft | CaroMidterm-minh/tictactoe.py:224-241 | the same fail-soft relation at a maximizing node, against the best child value |
| AlphaBeta.MinNodeFailSoft | CaroMidterm-minh/tictactoe.py:243-260 | the same fail-soft relation at a minimizing node, against the worst child value |
| AlphaBeta.MaxLoopFailSoft | CaroMidterm-minh/tictactoe.py:228-241 | from any point of the maximizing loop, the returned score relates to the best value among the candidates seen and still to come as fail-soft requires, the cut-off included |
| AlphaBeta.MinLoopFailSoft | CaroMidterm-minh/tictactoe.py:247-260 | from any point of the minimizing loop, the returned score relates to the worst value among the candidates seen and still to come as fail-soft requires, the cut-off included |
| AlphaBeta.MinimaxExact | CaroMidterm-minh/tictactoe.py:205-260 | from the window (-Inf, Inf) the pruned search returns exactly the plain minimax value |
| AlphaBeta.ChildAgainstMax | CaroMidterm-minh/tictactoe.py:231-235 | a child searched with alpha at the running maximum beats it exactly when its true value does, and its score then is that value |
| AlphaBeta.ScanFirstFinds | CaroMidterm-minh/tictactoe.py:233-235 | keeping a value only when it is strictly larger ends on the first index of the largest value |
| AlphaBeta.MaxLoopScan | CaroMidterm-minh/tictactoe.py:228-241 | with beta = Inf the maximizing loop is that strict-improvement scan over the children's true values |
| AlphaBeta.MinimaxFirstBest | CaroMidterm-minh/tictactoe.py:224-241 | at a root the search expands, the call with the full window returns the plain minimax value and the first candidate whose child attains it; ties go to the earliest candidate |
| Boards.Board.constructor | CaroMidterm-minh/tictactoe.py:17-20 | a new board has every cell empty and a counter of 0, and its counter agrees with its cells |
| Boards.Board.MarkSqr | CaroMidterm-minh/tictactoe.py:78-80 | the array is updated in place so that the board becomes the marked board value: one cell changed, counter plus one |
| Boards.Board.EmptySqr | CaroMidterm-minh/tictactoe.py:82-83 | true iff the cell is 0, that is iff the square is in the empty-square list |
| Boards.Board.IsFull | CaroMidterm-minh/tictactoe.py:94-95 | true iff the counter is 100; with a consistent counter, iff no cell is empty |
| Boards.Board.IsEmpty | CaroMidterm-minh/tictactoe.py:97-98 | true iff the counter is 0; with a consistent counter, iff every cell is empty |
| Boards.Board.GetEmptySqrs | CaroMidterm-minh/tictactoe.py:85-92 | the loops return exactly the empty squares, in row-major order, without repeats |
| Boards.Board.EmptyInRow | CaroMidterm-minh/tictactoe.py:88-90 | the inner loop collects the empty squares of one row in column order |
| Boards.Board.LineAt | CaroMidterm-minh/tictactoe.py:34 | reads the five cells of a window from the array |
| Boards.Board.CompleteIsLine | CaroMidterm-minh/tictactoe.py:34 | the array test of a window agrees with the line predicate on the board value |
| Boards.Board.ScanDirection | CaroMidterm-minh/tictactoe.py:32-40 | the nested loops of one direction return the owner of its first line, or 0 |
| Boards.Board.ScanWindows | CaroMidterm-minh/tictactoe.py:32-73 | scanning a list of windows returns the owner of the first line, or 0 |
| Boards.Board.FinalState | CaroMidterm-minh/tictactoe.py:22-76 | returns the board value's final state; a nonzero result has five in a row; 0 iff no line exists |
| Boards.Board.Copy | CaroMidterm-minh/tictactoe.py:229 | a deep copy: a fresh board with its own array and the same contents |
| Engine.AI.constructor | CaroMidterm-minh/tictactoe.py:101-104 | the AI keeps its level and piece, and its opponent is the other piece |
| Engine.AI.Rnd | CaroMidterm-minh/tictactoe.py:107-112 | returns the random choice among the empty squares |
| Engine.AI.WindowSum | CaroMidterm-minh/tictactoe.py:131-152 | the nested loops of one direction sum the scores of all its windows |
| Engine.AI.WindowRow | CaroMidterm-minh/tictactoe.py:132-134 | the inner loop sums the six windows of one row (column) |
| Engine.AI.CenterSum | CaroMidterm-minh/tictactoe.py:156-162 | the loops over rows and columns 3-6 compute the central bias |
| Engine.AI.HeuristicSum | CaroMidterm-minh/tictactoe.py:128-164 | away from a final or full board, the score is the four directions' window totals plus the central bias |
| Engine.AI.CenterRowSum | CaroMidterm-minh/tictactoe.py:158-162 | the inner loop computes the bias of one central row |
| Engine.AI.EvaluateBoard | CaroMidterm-minh/tictactoe.py:115-164 | computes the board evaluation, which lies within ±200000; with the AI's two different pieces it is zero-sum, and a win for one side alone scores ±10000 |
| Engine.AI.IsAdjacent | CaroMidterm-minh/tictactoe.py:277-288 | the neighbour loops find an occupied neighbour iff the square is adjacent to a mark |
| Engine.AI.AdjacentSqrs | CaroMidterm-minh/tictactoe.py:273-291 | collects, in order, the empty squares adjacent to a mark |
| Engine.AI.GetStrategicMoves | CaroMidterm-minh/tictactoe.py:262-309 | returns the candidate list, so everything proved about it holds |
| Engine.AI.Minimax | CaroMidterm-minh/tictactoe.py:205-260 | returns the search's score and move without modifying the board passed in |
| Engine.AI.MaxSearch | CaroMidterm-minh/tictactoe.py:224-241 | the maximizing loop, with its cut-off, returns the value-level loop's outcome |
| Engine.AI.MinSearch | CaroMidterm-minh/tictactoe.py:243-260 | the minimizing loop, with its cut-off, returns the value-level loop's outcome |
| Engine.AI.Child | CaroMidterm-minh/tictactoe.py:229-231 | searching a marked copy gives the search result of the marked board value |
| Engine.AI.WinsAt | CaroMidterm-minh/tictactoe.py:314-316 | marking a copy and testing its final state decides whether the square wins at once |
| Engine.AI.FindWinningMove | CaroMidterm-minh/tictactoe.py:311-318 | returns the first immediately winning empty square, leaving the board unchanged |
| Engine.AI.Eval | CaroMidterm-minh/tictactoe.py:321-362 | returns the move `eval` chooses, leaving the board unchanged |
| Games.NextPlayer | CaroMidterm-minh/tictactoe.py:412 | the turn passes from side 1 to side 2 and back, and always lands on side 1 or 2 |
| Games.PlaySchedule | CaroMidterm-minh/tictactoe.py:408-415 | over n turns the sides alternate, n turns are counted, and the human is credited with every other turn, from the first when the human is to move |
| Games.StartSchedule | CaroMidterm-minh/tictactoe.py:365-415 | from a new game, after n turns side 1 is to move iff n is even, and the human has made ceil(n/2) moves playing side 1 and floor(n/2) playing side 2 |
| Games.Game.constructor | CaroMidterm-minh/tictactoe.py:365-374 | empty board whose counter agrees with its cells, AI of level 1 playing side 2, side 1 to move, nothing counted, human on side 1, mode "pvp", running |
| Games.Game.MakeMove | CaroMidterm-minh/tictactoe.py:403-406 | the side to move marks the square, then the turn passes |
| Games.Game.NextTurn | CaroMidterm-minh/tictactoe.py:408-415 | the other side is to move, one more turn is counted, and one more human move if the human just moved |
| Games.Game.ChangeGamemode | CaroMidterm-minh/tictactoe.py:417-418 | only the mode changes |
| Games.Game.IsOver | CaroMidterm-minh/tictactoe.py:420-421 | true iff some line exists or the counter reached 100 |
| Games.Game.Reset | CaroMidterm-minh/tictactoe.py:423-424 | the game returns to the state of a new game, with a fresh empty board whose counter agrees with its cells, and a fresh AI |
| Games.Game.SetPlayerPiece | CaroMidterm-minh/tictactoe.py:426-431 | the human takes the piece, the AI the other one; the turn bookkeeping is unchanged |

## Left out

- Drawing: `show_lines`, `draw_fig`, the `show=True` branch of `final_state` and everything else drawn with pygame. These are screen output only.
- The menus, `menuGame.py`, `constants.py` and the main event loop. They are the user interface, not game logic.
- Randomness is passed in by the caller:
  - the opening square of `eval` becomes the parameters `openRow`/`openCol`;
  - the index drawn by `rnd` becomes `pick`, used modulo the number of empty squares.
- The `print` warnings and the `try`/`except` fallback of `eval`. Every operation of the model is total on a well-formed board, so the fallback path is not modelled.
- The numpy float cells become integers 0, 1 and 2. `float('inf')` becomes the constant `Inf = 1000000`. Every score is proved to stay strictly inside ±`Inf` for depths from 0 and maximum depths up to 10000 (see above); other calls are not covered.
- `Board.empty_sqrs`, an unused alias of the cell array. It is not modelled.
- Boards.Board.MarkSqr: requires an on-board square and a value 0-2, so Python's negative-index wrap-around and arbitrary numpy values are not modelled. It does not require the square to be empty, and neither does `Mark`: like `mark_sqr`, marking an occupied square overwrites it and still counts one more mark. The engine's own calls mark empty squares only. The event loop of `main()` does not always: it keeps the board and AI it read before any `reset()` (tictactoe.py:525-526, 550, 564, 567), so it checks emptiness on a stale board while `make_move` marks the new one (578-579, 596-597).
- Rules.FullIffNoEmpty, Rules.EmptyIffNoMarks, MoveGen.StrategicMovesNonEmpty, Search.EvalLegal: these assume the counter equals the number of occupied cells (`Consistent`). A new board satisfies it (`Rules.InitialConsistent`), and every mark of an empty square keeps it true (`Rules.MarkKeepsConsistent`). The event loop above can break it after a reset, and then these four lemmas say nothing about that board.
- Engine.AI.constructor: the piece is restricted to 1 or 2. The game never creates an AI with another piece.
- Games.Game.SetPlayerPiece: the piece is restricted to 1 or 2, as the menu only offers those.
- Games.Game.ChangeGamemode: the mode is an arbitrary string, and the model does not distinguish the modes further.
- Games.Game.Reset: creates a new board and AI as `__init__` does. The redraw of the grid is left out.
- The search copies the board for each child (`copy.deepcopy`) as a value copy, so aliasing between copies is not modelled.
