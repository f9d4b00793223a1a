/** The computer player: its settings are fields, and each of its
    methods reads a board without changing it, proved equal to the
    corresponding function on board values. */
module Engine {
  import opened Seqs
  import opened Rules
  import opened Evaluation
  import opened MoveGen
  import opened Search
  import opened Boards

  class AI {
    var level: int
    var player: Side
    var opponent: Side

    /** The AI and its opponent play different pieces. */
    ghost predicate Valid()
      reads this
    {
      player != opponent
    }

    /** `AI(level, player)`: the opponent gets the other piece. */
    constructor(level: int, player: Side)
      ensures this.level == level && this.player == player
      ensures opponent == if player == 2 then 1 else 2
      ensures Valid()
    {
      this.level := level;
      this.player := player;
      opponent := if player == 2 then 1 else 2;
    }

    /** `rnd`: the empty square at position `pick` (drawn by the caller)
        of the row-major list, or nothing on a full board. */
    method Rnd(board: Board, pick: nat) returns (move: Option<Sqr>)
      requires board.Valid()
      ensures move == Search.Rnd(board.Model(), pick)
    {
      var empty := board.GetEmptySqrs();
      if |empty| > 0 {
        return Some(empty[pick % |empty|]);
      }
      return None;
    }

    /** The window loops of `evaluate_board` for one direction. */
    method WindowSum(board: Board, d: Dir) returns (total: int)
      requires board.Valid()
      ensures total == WindowTotal(board.cells, Scan(d), player, opponent)
    {
      total := 0;
      for n := 0 to OuterCount(d)
        invariant total == ScanPrefixTotal(board.cells, d, n, player, opponent)
      {
        total := AddRow(board, d, n, total);
      }
      ScanPrefixTotalAll(board.cells, d, player, opponent);
    }

    /** One pass of the outer loop: the running total of the first `n`
        rows plus the next row's windows. */
    method AddRow(board: Board, d: Dir, n: int, acc: int) returns (total: int)
      requires board.Valid() && 0 <= n < OuterCount(d)
      requires acc == ScanPrefixTotal(board.cells, d, n, player, opponent)
      ensures total == ScanPrefixTotal(board.cells, d, n + 1, player, opponent)
    {
      var outer := OuterLo(d) + n;
      var rowTotal := WindowRow(board, d, outer);
      WindowTotalRow(board.cells, d, outer, player, opponent);
      assert outer + 1 - OuterLo(d) == n + 1 && outer - OuterLo(d) == n;
      total := acc + rowTotal;
    }

    /** The inner loop of one direction: the six windows of one row
        (of one column, for vertical windows). */
    method WindowRow(board: Board, d: Dir, outer: int) returns (total: int)
      requires board.Valid() && OuterLo(d) <= outer < OuterLo(d) + OuterCount(d)
      ensures total == WindowTotal(board.cells, RowWindows(d, outer), player, opponent)
    {
      var row := RowWindows(d, outer);
      total := 0;
      for inner := 0 to Size - WinLength + 1
        invariant total == WindowTotal(board.cells, row[..inner], player, opponent)
      {
        var window := board.LineAt(row[inner]);
        WindowTotalStep(board.cells, row, inner, player, opponent);
        total := total + EvaluateWindow(window, player, opponent);
      }
      assert row[..6] == row;
    }

    /** The central loops of `evaluate_board`: +3 per own mark and -3
        per opposing mark in rows and columns 3 to 6. */
    method CenterSum(board: Board) returns (total: int)
      requires board.Valid()
      ensures total == CenterBonus(board.cells, player, opponent)
    {
      CenterSqrsProps();
      total := 0;
      for row := 3 to 7
        invariant total == BonusTotal(board.cells, CenterSqrs()[..(row - 3) * 4], player, opponent)
      {
        var rowTotal := CenterRowSum(board, row);
        CenterRows(row);
        BonusTotalConcat(board.cells, CenterSqrs()[..(row - 3) * 4], CenterRow(row), player, opponent);
        total := total + rowTotal;
      }
      assert CenterSqrs()[..16] == CenterSqrs();
    }

    /** The inner central loop: columns 3 to 6 of one row. */
    method CenterRowSum(board: Board, row: int) returns (total: int)
      requires board.Valid() && 3 <= row <= 6
      ensures total == BonusTotal(board.cells, CenterRow(row), player, opponent)
    {
      ghost var squares := CenterRow(row);
      total := 0;
      for col := 3 to 7
        invariant total == BonusTotal(board.cells, squares[..col - 3], player, opponent)
      {
        BonusTotalStep(board.cells, squares, col - 3, player, opponent);
        if board.squares[row, col] == player {
          total := total + CenterValue;
        } else if board.squares[row, col] == opponent {
          total := total - CenterValue;
        }
      }
      assert squares[..4] == squares;
    }

    /** `evaluate_board`. With the two pieces different, as the AI keeps
        them, the score is zero-sum and a win for one side alone scores
        10000 for it. */
    method EvaluateBoard(board: Board) returns (score: int)
      requires board.Valid()
      ensures score == Evaluation.EvaluateBoard(board.Model(), player, opponent)
      ensures -ScoreBound <= score <= ScoreBound
      ensures Valid() ==> Evaluation.EvaluateBoard(board.Model(), opponent, player) == -score
      ensures Valid() && HasFive(board.cells, player) && !HasFive(board.cells, opponent) ==> score == WinScore
      ensures Valid() && HasFive(board.cells, opponent) && !HasFive(board.cells, player) ==> score == -WinScore
    {
      EvaluateBoardBounded(board.Model(), player, opponent);
      if Valid() {
        EvaluateBoardSwap(board.Model(), player, opponent);
        EvaluateBoardTerminal(board.Model(), player, opponent);
      }
      var finalState := board.FinalState();
      if finalState == player {
        return WinScore;
      } else if finalState == opponent {
        return -WinScore;
      } else if board.IsFull() {
        return 0;
      }
      score := HeuristicSum(board);
    }

    /** The non-terminal part of `evaluate_board`: the four window scans
        and the central bonus, added up in the source's order. */
    method HeuristicSum(board: Board) returns (score: int)
      requires board.Valid()
      ensures score == WindowsScore(board.cells, player, opponent) + CenterBonus(board.cells, player, opponent)
    {
      score := 0;
      var rows := WindowSum(board, Horizontal);
      score := score + rows;
      var cols := WindowSum(board, Vertical);
      score := score + cols;
      var descending := WindowSum(board, Descending);
      score := score + descending;
      var ascending := WindowSum(board, Ascending);
      score := score + ascending;
      var center := CenterSum(board);
      score := score + center;
    }

    /** The neighbour loops of `get_strategic_moves`: stops at the first
        occupied 8-neighbour. */
    method IsAdjacent(board: Board, sq: Sqr) returns (isAdjacent: bool)
      requires board.Valid()
      ensures isAdjacent <==> Adjacent(board.cells, sq)
    {
      isAdjacent := false;
      for dr := -1 to 2
        invariant !isAdjacent
        invariant forall a, b :: -1 <= a < dr && -1 <= b <= 1 && !(a == 0 && b == 0)
                    ==> !IsOccupiedAt(board.cells, Offset(sq, a, b))
      {
        for dc := -1 to 2
          invariant !isAdjacent
          invariant forall a, b :: (((-1 <= a < dr && -1 <= b <= 1) || (a == dr && -1 <= b < dc))
                                    && !(a == 0 && b == 0)) ==> !IsOccupiedAt(board.cells, Offset(sq, a, b))
        {
          if dr == 0 && dc == 0 {
            continue;
          }
          var r, c := sq.row + dr, sq.col + dc;
          if 0 <= r < Size && 0 <= c < Size && board.squares[r, c] != 0 {
            isAdjacent := true;
            assert IsOccupiedAt(board.cells, Offset(sq, dr, dc));
            break;
          }
        }
        if isAdjacent {
          break;
        }
      }
    }

    /** `get_strategic_moves`. */
    method GetStrategicMoves(board: Board) returns (moves: seq<Sqr>)
      requires board.Valid()
      ensures moves == StrategicMoves(board.Model())
    {
      StrategicMovesCases(board.Model());
      var empty := board.GetEmptySqrs();
      if board.IsEmpty() || board.markedSqrs < 3 {
        return Take(CenterFree(empty, []), FillTarget);
      }
      var strategic := AdjacentSqrs(board, empty);
      if |strategic| < FillTarget {
        strategic := strategic + CenterTopUp(strategic, empty);
        if |strategic| < FillTarget {
          strategic := strategic + EmptyTopUp(strategic, empty);
        }
      }
      if |strategic| > MaxMoves {
        strategic := strategic[..MaxMoves];
      }
      return strategic;
    }

    /** The first loop of `get_strategic_moves`: the squares of `empty`
        next to a mark, in their order. */
    method AdjacentSqrs(board: Board, empty: seq<Sqr>) returns (strategic: seq<Sqr>)
      requires board.Valid()
      ensures strategic == Filter(AdjacentTest(board.cells), empty)
    {
      strategic := [];
      for i := 0 to |empty|
        invariant strategic == Filter(AdjacentTest(board.cells), empty[..i])
      {
        FilterPrefixStep(AdjacentTest(board.cells), empty, i);
        var isAdjacent := IsAdjacent(board, empty[i]);
        if isAdjacent {
          strategic := strategic + [empty[i]];
        }
      }
      assert empty[..|empty|] == empty;
    }

    /** `minimax`: every child is searched on a fresh copy of the board,
        so the board passed in is left as it was (the method may change
        no object that existed before the call). */
    method Minimax(board: Board, maximizing: bool, depth: int, maxDepth: int, alpha: int, beta: int)
      returns (score: int, move: Option<Sqr>)
      requires board.Valid()
      ensures Outcome(score, move) == Search.Minimax(board.Model(), maximizing, depth, maxDepth, alpha, beta, player, opponent)
      decreases Remaining(depth, maxDepth), 2
    {
      MinimaxCases(board.Model(), maximizing, depth, maxDepth, alpha, beta, player, opponent);
      if depth >= maxDepth {
        score := EvaluateBoard(board);
        return score, None;
      }
      var state := board.FinalState();
      if state == player {
        return WinScore - depth, None;
      }
      if state == opponent {
        return -WinScore + depth, None;
      }
      if board.IsFull() {
        return 0, None;
      }
      var moves := GetStrategicMoves(board);
      if moves == [] {
        return 0, None;
      }
      if maximizing {
        score, move := MaxSearch(board, moves, depth, maxDepth, alpha, beta);
      } else {
        score, move := MinSearch(board, moves, depth, maxDepth, alpha, beta);
      }
    }

    /** The maximizing branch of `minimax`: the AI's candidate moves in
        order, keeping the first best one, raising `alpha` and stopping
        once it reaches `beta`. */
    method MaxSearch(board: Board, moves: seq<Sqr>, depth: int, maxDepth: int, alpha: int, beta: int)
      returns (score: int, move: Option<Sqr>)
      requires board.Valid() && depth < maxDepth && moves != [] && forall m :: m in moves ==> OnBoard(m)
      ensures Outcome(score, move)
           == MaxLoop(board.Model(), moves, 0, depth, maxDepth, alpha, beta, -Inf, moves[0], player, opponent)
      decreases Remaining(depth, maxDepth), 1
    {
      ghost var s := board.Model();
      var maxEval, best, a := -Inf, moves[0], alpha;
      for i := 0 to |moves|
        invariant board.Valid() && board.Model() == s
        invariant MaxLoop(s, moves, 0, depth, maxDepth, alpha, beta, -Inf, moves[0], player, opponent)
               == MaxLoop(s, moves, i, depth, maxDepth, a, beta, maxEval, best, player, opponent)
      {
        var m := moves[i];
        var e := Child(board, m, player, false, depth, maxDepth, a, beta);
        MaxLoopUnfold(s, moves, i, depth, maxDepth, a, beta, maxEval, best, player, opponent);
        if e > maxEval {
          maxEval, best := e, m;
        }
        a := Max(a, maxEval);
        if beta <= a {
          break;
        }
      }
      return maxEval, Some(best);
    }

    /** The minimizing branch of `minimax`: the opponent's replies,
        keeping the first lowest one, lowering `beta`. */
    method MinSearch(board: Board, moves: seq<Sqr>, depth: int, maxDepth: int, alpha: int, beta: int)
      returns (score: int, move: Option<Sqr>)
      requires board.Valid() && depth < maxDepth && moves != [] && forall m :: m in moves ==> OnBoard(m)
      ensures Outcome(score, move)
           == MinLoop(board.Model(), moves, 0, depth, maxDepth, alpha, beta, Inf, moves[0], player, opponent)
      decreases Remaining(depth, maxDepth), 1
    {
      ghost var s := board.Model();
      var minEval, best, b := Inf, moves[0], beta;
      for i := 0 to |moves|
        invariant board.Valid() && board.Model() == s
        invariant MinLoop(s, moves, 0, depth, maxDepth, alpha, beta, Inf, moves[0], player, opponent)
               == MinLoop(s, moves, i, depth, maxDepth, alpha, b, minEval, best, player, opponent)
      {
        var m := moves[i];
        var e := Child(board, m, opponent, true, depth, maxDepth, alpha, b);
        MinLoopUnfold(s, moves, i, depth, maxDepth, alpha, b, minEval, best, player, opponent);
        if e < minEval {
          minEval, best := e, m;
        }
        b := Min(b, minEval);
        if b <= alpha {
          break;
        }
      }
      return minEval, Some(best);
    }

    /** The body shared by both loops of `minimax`: `side` marks `m` on a
        fresh copy of the board, which is searched one level deeper. */
    method Child(board: Board, m: Sqr, side: Side, maximizing: bool, depth: int, maxDepth: int,
                 alpha: int, beta: int) returns (e: int)
      requires board.Valid() && OnBoard(m) && depth < maxDepth
      ensures e == Search.Minimax(Mark(board.Model(), m, side), maximizing, depth + 1, maxDepth,
                                  alpha, beta, player, opponent).score
      decreases Remaining(depth, maxDepth), 0
    {
      var child := board.Copy();
      child.MarkSqr(m.row, m.col, side);
      var move;
      e, move := Minimax(child, maximizing, depth + 1, maxDepth, alpha, beta);
    }

    /** One probe of `find_winning_move`: marks `sq` on a copy of the
        board and asks whether `side` has won there. */
    method WinsAt(board: Board, sq: Sqr, side: Side) returns (wins: bool)
      requires board.Valid() && OnBoard(sq)
      ensures wins == Wins(board.Model(), sq, side)
    {
      var child := board.Copy();
      child.MarkSqr(sq.row, sq.col, side);
      var state := child.FinalState();
      wins := state == side;
    }

    /** `find_winning_move`: the empty squares in turn, each tried on a
        copy of the board. */
    method FindWinningMove(board: Board, side: Side) returns (move: Option<Sqr>)
      requires board.Valid()
      ensures move == Search.FindWinningMove(board.Model(), side)
    {
      var empty := board.GetEmptySqrs();
      ghost var s, test := board.Model(), WinTest(board.Model(), side);
      assert empty[0..] == empty;
      for i := 0 to |empty|
        invariant Search.FindWinningMove(s, side) == FirstWhere(test, empty[i..])
      {
        assert empty[i] in empty;
        var wins := WinsAt(board, empty[i], side);
        FirstWhereStep(test, empty, i);
        if wins {
          return Some(empty[i]);
        }
      }
      return None;
    }

    /** `eval(main_board, max_depth)`; the random opening square and the
        random pick are drawn by the caller. */
    method Eval(board: Board, maxDepth: int, openRow: int, openCol: int, pick: nat) returns (move: Option<Sqr>)
      requires board.Valid()
      ensures move == Search.Eval(board.Model(), level, player, opponent, maxDepth, openRow, openCol, pick)
    {
      if board.IsEmpty() {
        return Some(Sqr(openRow, openCol));
      }
      if level == 0 {
        move := Rnd(board, pick);
        if move.None? {
          return Some(Sqr(0, 0));
        }
        return move;
      }
      var winMove := FindWinningMove(board, player);
      if winMove.Some? {
        return winMove;
      }
      var blockMove := FindWinningMove(board, opponent);
      if blockMove.Some? {
        return blockMove;
      }
      var adjustedDepth := Min(maxDepth, DepthCap);
      var _, best := Minimax(board, true, 0, adjustedDepth, -Inf, Inf);
      if best.None? {
        move := Rnd(board, pick);
        return move;
      }
      return best;
    }
  }
}
