/** The AI's decision procedure on board values: depth-limited minimax
    with alpha-beta pruning over the candidate moves, the one-ply
    win/block lookahead, and `eval`, which chooses among them. */
module Search {
  import opened Seqs
  import opened Rules
  import opened Evaluation
  import opened MoveGen

  /** Stands for Python's `float('inf')` as an alpha/beta bound: every
      score lies strictly between -Inf and Inf. */
  const Inf := 1000000
  /** `eval` never searches deeper than this. */
  const DepthCap := 2

  /** What `minimax` returns: a score and possibly a move. */
  datatype Outcome = Outcome(score: int, move: Option<Sqr>)

  function Max(a: int, b: int): int { if a >= b then a else b }
  function Min(a: int, b: int): int { if a <= b then a else b }

  function Remaining(depth: int, maxDepth: int): nat {
    if depth >= maxDepth then 0 else maxDepth - depth
  }

  /** `minimax(board, maximizing, depth, max_depth, alpha, beta)`; each
      child is a fresh copy of the board with one more mark. */
  function Minimax(s: State, maximizing: bool, depth: int, maxDepth: int,
                   alpha: int, beta: int, player: Side, opponent: Side): Outcome
    requires WellFormed(s.squares)
    decreases Remaining(depth, maxDepth), 1, 0
  {
    if depth >= maxDepth then Outcome(EvaluateBoard(s, player, opponent), None)
    else
      var state := FinalState(s.squares);
      if state == player then Outcome(WinScore - depth, None)
      else if state == opponent then Outcome(-WinScore + depth, None)
      else if IsFull(s) then Outcome(0, None)
      else
        var moves := StrategicMoves(s);
        if moves == [] then Outcome(0, None)
        else if maximizing then
          MaxLoop(s, moves, 0, depth, maxDepth, alpha, beta, -Inf, moves[0], player, opponent)
        else
          MinLoop(s, moves, 0, depth, maxDepth, alpha, beta, Inf, moves[0], player, opponent)
  }

  /** The maximizing loop from candidate `i` on, with the running
      `max_eval`, `best_move` and `alpha`. */
  function MaxLoop(s: State, moves: seq<Sqr>, i: nat, depth: int, maxDepth: int,
                   alpha: int, beta: int, maxEval: int, best: Sqr,
                   player: Side, opponent: Side): Outcome
    requires WellFormed(s.squares) && forall m :: m in moves ==> OnBoard(m)
    requires depth < maxDepth && i <= |moves|
    decreases Remaining(depth, maxDepth), 0, |moves| - i
  {
    if i == |moves| then Outcome(maxEval, Some(best))
    else
      var e := Minimax(Mark(s, moves[i], player), false, depth + 1, maxDepth, alpha, beta, player, opponent).score;
      var maxEval' := if e > maxEval then e else maxEval;
      var best' := if e > maxEval then moves[i] else best;
      var alpha' := Max(alpha, maxEval');
      if beta <= alpha' then Outcome(maxEval', Some(best'))
      else MaxLoop(s, moves, i + 1, depth, maxDepth, alpha', beta, maxEval', best', player, opponent)
  }

  /** The minimizing loop, symmetric: opponent's marks, `min_eval`, `beta`. */
  function MinLoop(s: State, moves: seq<Sqr>, i: nat, depth: int, maxDepth: int,
                   alpha: int, beta: int, minEval: int, best: Sqr,
                   player: Side, opponent: Side): Outcome
    requires WellFormed(s.squares) && forall m :: m in moves ==> OnBoard(m)
    requires depth < maxDepth && i <= |moves|
    decreases Remaining(depth, maxDepth), 0, |moves| - i
  {
    if i == |moves| then Outcome(minEval, Some(best))
    else
      var e := Minimax(Mark(s, moves[i], opponent), true, depth + 1, maxDepth, alpha, beta, player, opponent).score;
      var minEval' := if e < minEval then e else minEval;
      var best' := if e < minEval then moves[i] else best;
      var beta' := Min(beta, minEval');
      if beta' <= alpha then Outcome(minEval', Some(best'))
      else MinLoop(s, moves, i + 1, depth, maxDepth, alpha, beta', minEval', best', player, opponent)
  }

  /** One iteration of each loop, as an equation. */
  lemma MaxLoopUnfold(s: State, moves: seq<Sqr>, i: nat, depth: int, maxDepth: int,
                      alpha: int, beta: int, maxEval: int, best: Sqr, player: Side, opponent: Side)
    requires WellFormed(s.squares) && forall m :: m in moves ==> OnBoard(m)
    requires depth < maxDepth && i < |moves|
    ensures
      var e := Minimax(Mark(s, moves[i], player), false, depth + 1, maxDepth, alpha, beta, player, opponent).score;
      var maxEval' := if e > maxEval then e else maxEval;
      var best' := if e > maxEval then moves[i] else best;
      MaxLoop(s, moves, i, depth, maxDepth, alpha, beta, maxEval, best, player, opponent)
        == if beta <= Max(alpha, maxEval') then Outcome(maxEval', Some(best'))
           else MaxLoop(s, moves, i + 1, depth, maxDepth, Max(alpha, maxEval'), beta, maxEval', best', player, opponent)
  {
  }

  lemma MinLoopUnfold(s: State, moves: seq<Sqr>, i: nat, depth: int, maxDepth: int,
                      alpha: int, beta: int, minEval: int, best: Sqr, player: Side, opponent: Side)
    requires WellFormed(s.squares) && forall m :: m in moves ==> OnBoard(m)
    requires depth < maxDepth && i < |moves|
    ensures
      var e := Minimax(Mark(s, moves[i], opponent), true, depth + 1, maxDepth, alpha, beta, player, opponent).score;
      var minEval' := if e < minEval then e else minEval;
      var best' := if e < minEval then moves[i] else best;
      MinLoop(s, moves, i, depth, maxDepth, alpha, beta, minEval, best, player, opponent)
        == if Min(beta, minEval') <= alpha then Outcome(minEval', Some(best'))
           else MinLoop(s, moves, i + 1, depth, maxDepth, alpha, Min(beta, minEval'), minEval', best', player, opponent)
  {
  }

  /** The cases of `Minimax`, one equation each. */
  lemma MinimaxCases(s: State, maximizing: bool, depth: int, maxDepth: int,
                     alpha: int, beta: int, player: Side, opponent: Side)
    requires WellFormed(s.squares)
    ensures depth >= maxDepth ==>
      Minimax(s, maximizing, depth, maxDepth, alpha, beta, player, opponent)
        == Outcome(EvaluateBoard(s, player, opponent), None)
    ensures depth < maxDepth && FinalState(s.squares) == player ==>
      Minimax(s, maximizing, depth, maxDepth, alpha, beta, player, opponent) == Outcome(WinScore - depth, None)
    ensures depth < maxDepth && FinalState(s.squares) != player && FinalState(s.squares) == opponent ==>
      Minimax(s, maximizing, depth, maxDepth, alpha, beta, player, opponent) == Outcome(-WinScore + depth, None)
    ensures depth < maxDepth && FinalState(s.squares) != player && FinalState(s.squares) != opponent && IsFull(s) ==>
      Minimax(s, maximizing, depth, maxDepth, alpha, beta, player, opponent) == Outcome(0, None)
    ensures depth < maxDepth && FinalState(s.squares) != player && FinalState(s.squares) != opponent && !IsFull(s)
            && StrategicMoves(s) == [] ==>
      Minimax(s, maximizing, depth, maxDepth, alpha, beta, player, opponent) == Outcome(0, None)
    ensures depth < maxDepth && FinalState(s.squares) != player && FinalState(s.squares) != opponent && !IsFull(s)
            && StrategicMoves(s) != [] ==>
      var moves := StrategicMoves(s);
      Minimax(s, maximizing, depth, maxDepth, alpha, beta, player, opponent)
        == if maximizing then MaxLoop(s, moves, 0, depth, maxDepth, alpha, beta, -Inf, moves[0], player, opponent)
           else MinLoop(s, moves, 0, depth, maxDepth, alpha, beta, Inf, moves[0], player, opponent)
  {
  }

  // ---------------------------------------------------------------------
  // Properties of the search

  /** Terminal nodes above the depth limit: a win for the AI scores
      10000 - depth, a loss -10000 + depth, a full board without five
      in a row 0, and none of them proposes a move. */
  lemma MinimaxTerminal(s: State, maximizing: bool, depth: int, maxDepth: int,
                        alpha: int, beta: int, player: Side, opponent: Side)
    requires WellFormed(s.squares) && player != opponent && depth < maxDepth
    ensures HasFive(s.squares, player) && !HasFive(s.squares, opponent) ==>
      Minimax(s, maximizing, depth, maxDepth, alpha, beta, player, opponent) == Outcome(WinScore - depth, None)
    ensures HasFive(s.squares, opponent) && !HasFive(s.squares, player) ==>
      Minimax(s, maximizing, depth, maxDepth, alpha, beta, player, opponent) == Outcome(-WinScore + depth, None)
    ensures !HasFive(s.squares, player) && !HasFive(s.squares, opponent) && IsFull(s) ==>
      Minimax(s, maximizing, depth, maxDepth, alpha, beta, player, opponent) == Outcome(0, None)
  {
    var g := s.squares;
    if HasFive(g, player) && !HasFive(g, opponent) {
      FinalStateUnique(g, player);
    } else if HasFive(g, opponent) && !HasFive(g, player) {
      FinalStateUnique(g, opponent);
    } else if !HasFive(g, player) && !HasFive(g, opponent) {
      FinalStateNoWinner(g);
    }
    MinimaxCases(s, maximizing, depth, maxDepth, alpha, beta, player, opponent);
  }

  /** The move a maximizing loop reports is one of the candidates. */
  lemma {:induction false} MaxLoopMove(s: State, moves: seq<Sqr>, i: nat, depth: int, maxDepth: int,
                                       alpha: int, beta: int, maxEval: int, best: Sqr,
                                       player: Side, opponent: Side)
    requires WellFormed(s.squares) && forall m :: m in moves ==> OnBoard(m)
    requires depth < maxDepth && i <= |moves| && best in moves
    ensures MaxLoop(s, moves, i, depth, maxDepth, alpha, beta, maxEval, best, player, opponent).move.Some?
    ensures MaxLoop(s, moves, i, depth, maxDepth, alpha, beta, maxEval, best, player, opponent).move.value in moves
    decreases |moves| - i
  {
    if i < |moves| {
      var e := Minimax(Mark(s, moves[i], player), false, depth + 1, maxDepth, alpha, beta, player, opponent).score;
      var maxEval' := if e > maxEval then e else maxEval;
      var best' := if e > maxEval then moves[i] else best;
      MaxLoopMove(s, moves, i + 1, depth, maxDepth, Max(alpha, maxEval'), beta, maxEval', best', player, opponent);
    }
  }

  lemma {:induction false} MinLoopMove(s: State, moves: seq<Sqr>, i: nat, depth: int, maxDepth: int,
                                       alpha: int, beta: int, minEval: int, best: Sqr,
                                       player: Side, opponent: Side)
    requires WellFormed(s.squares) && forall m :: m in moves ==> OnBoard(m)
    requires depth < maxDepth && i <= |moves| && best in moves
    ensures MinLoop(s, moves, i, depth, maxDepth, alpha, beta, minEval, best, player, opponent).move.Some?
    ensures MinLoop(s, moves, i, depth, maxDepth, alpha, beta, minEval, best, player, opponent).move.value in moves
    decreases |moves| - i
  {
    if i < |moves| {
      var e := Minimax(Mark(s, moves[i], opponent), true, depth + 1, maxDepth, alpha, beta, player, opponent).score;
      var minEval' := if e < minEval then e else minEval;
      var best' := if e < minEval then moves[i] else best;
      MinLoopMove(s, moves, i + 1, depth, maxDepth, alpha, Min(beta, minEval'), minEval', best', player, opponent);
    }
  }

  /** A move from `minimax` is always one of the candidate moves, hence
      an empty square; a move is proposed exactly at nodes that are
      above the depth limit, not terminal and have candidates. */
  lemma MinimaxMove(s: State, maximizing: bool, depth: int, maxDepth: int,
                    alpha: int, beta: int, player: Side, opponent: Side)
    requires WellFormed(s.squares)
    ensures var r := Minimax(s, maximizing, depth, maxDepth, alpha, beta, player, opponent);
      r.move.Some? <==> (depth < maxDepth && FinalState(s.squares) != player
                         && FinalState(s.squares) != opponent && !IsFull(s) && StrategicMoves(s) != [])
    ensures var r := Minimax(s, maximizing, depth, maxDepth, alpha, beta, player, opponent);
      r.move.Some? ==> r.move.value in StrategicMoves(s)
                       && OnBoard(r.move.value) && At(s.squares, r.move.value) == 0
  {
    if depth < maxDepth && FinalState(s.squares) != player && FinalState(s.squares) != opponent
       && !IsFull(s) && StrategicMoves(s) != [] {
      var moves := StrategicMoves(s);
      if maximizing {
        MaxLoopMove(s, moves, 0, depth, maxDepth, alpha, beta, -Inf, moves[0], player, opponent);
      } else {
        MinLoopMove(s, moves, 0, depth, maxDepth, alpha, beta, Inf, moves[0], player, opponent);
      }
    }
  }

  predicate InBounds(v: int) {
    -ScoreBound <= v <= ScoreBound
  }

  /** Every score `minimax` returns lies within the evaluator's bound,
      strictly inside the infinite sentinels. */
  lemma {:induction false} MinimaxBounded(s: State, maximizing: bool, depth: int, maxDepth: int,
                                          alpha: int, beta: int, player: Side, opponent: Side)
    requires WellFormed(s.squares) && 0 <= depth && maxDepth <= WinScore
    ensures InBounds(Minimax(s, maximizing, depth, maxDepth, alpha, beta, player, opponent).score)
    decreases Remaining(depth, maxDepth), 1, 0
  {
    if depth >= maxDepth {
      EvaluateBoardBounded(s, player, opponent);
    } else if FinalState(s.squares) != player && FinalState(s.squares) != opponent && !IsFull(s)
              && StrategicMoves(s) != [] {
      var moves := StrategicMoves(s);
      if maximizing {
        MaxLoopBounded(s, moves, 0, depth, maxDepth, alpha, beta, -Inf, moves[0], player, opponent);
      } else {
        MinLoopBounded(s, moves, 0, depth, maxDepth, alpha, beta, Inf, moves[0], player, opponent);
      }
    }
  }

  lemma {:induction false} MaxLoopBounded(s: State, moves: seq<Sqr>, i: nat, depth: int, maxDepth: int,
                                          alpha: int, beta: int, maxEval: int, best: Sqr,
                                          player: Side, opponent: Side)
    requires WellFormed(s.squares) && forall m :: m in moves ==> OnBoard(m)
    requires 0 <= depth < maxDepth <= WinScore && i <= |moves|
    requires InBounds(maxEval) || (maxEval == -Inf && i < |moves|)
    ensures InBounds(MaxLoop(s, moves, i, depth, maxDepth, alpha, beta, maxEval, best, player, opponent).score)
    decreases Remaining(depth, maxDepth), 0, |moves| - i
  {
    if i < |moves| {
      var child := Mark(s, moves[i], player);
      MinimaxBounded(child, false, depth + 1, maxDepth, alpha, beta, player, opponent);
      var e := Minimax(child, false, depth + 1, maxDepth, alpha, beta, player, opponent).score;
      var maxEval' := if e > maxEval then e else maxEval;
      var best' := if e > maxEval then moves[i] else best;
      MaxLoopBounded(s, moves, i + 1, depth, maxDepth, Max(alpha, maxEval'), beta, maxEval', best', player, opponent);
    }
  }

  lemma {:induction false} MinLoopBounded(s: State, moves: seq<Sqr>, i: nat, depth: int, maxDepth: int,
                                          alpha: int, beta: int, minEval: int, best: Sqr,
                                          player: Side, opponent: Side)
    requires WellFormed(s.squares) && forall m :: m in moves ==> OnBoard(m)
    requires 0 <= depth < maxDepth <= WinScore && i <= |moves|
    requires InBounds(minEval) || (minEval == Inf && i < |moves|)
    ensures InBounds(MinLoop(s, moves, i, depth, maxDepth, alpha, beta, minEval, best, player, opponent).score)
    decreases Remaining(depth, maxDepth), 0, |moves| - i
  {
    if i < |moves| {
      var child := Mark(s, moves[i], opponent);
      MinimaxBounded(child, true, depth + 1, maxDepth, alpha, beta, player, opponent);
      var e := Minimax(child, true, depth + 1, maxDepth, alpha, beta, player, opponent).score;
      var minEval' := if e < minEval then e else minEval;
      var best' := if e < minEval then moves[i] else best;
      MinLoopBounded(s, moves, i + 1, depth, maxDepth, alpha, Min(beta, minEval'), minEval', best', player, opponent);
    }
  }

  // ---------------------------------------------------------------------
  // One-ply lookahead

  /** Placing `player` on `sq` completes five in a row for `player`. */
  predicate Wins(s: State, sq: Sqr, player: Side)
    requires WellFormed(s.squares) && OnBoard(sq)
  {
    FinalState(Mark(s, sq, player).squares) == player
  }

  function WinTest(s: State, player: Side): Sqr -> bool
    requires WellFormed(s.squares)
  {
    sq => OnBoard(sq) && Wins(s, sq, player)
  }

  /** `find_winning_move`: the first empty square, in row-major order,
      where `player` would win at once. */
  function FindWinningMove(s: State, player: Side): Option<Sqr>
    requires WellFormed(s.squares)
  {
    FirstWhere(WinTest(s, player), EmptySqrs(s.squares))
  }

  lemma FindWinningMoveNone(s: State, player: Side)
    requires WellFormed(s.squares)
    ensures FindWinningMove(s, player).None? <==>
      forall sq :: OnBoard(sq) && At(s.squares, sq) == 0 ==> !Wins(s, sq, player)
  {
    var g := s.squares;
    var empty := EmptySqrs(g);
    var f := WinTest(s, player);
    EmptySqrsSpec(g);
    FirstWhereSpec(f, empty);
    if FindWinningMove(s, player).None? {
      forall sq | OnBoard(sq) && At(g, sq) == 0 ensures !Wins(s, sq, player) {
        assert sq in empty;
        var j :| 0 <= j < |empty| && empty[j] == sq;
        assert !f(empty[j]);
      }
    } else {
      var k :| 0 <= k < |empty| && f(empty[k]);
      var m := empty[k];
      assert m in empty;
      assert OnBoard(m) && At(g, m) == 0 && Wins(s, m, player);
    }
  }

  lemma FindWinningMoveFirst(s: State, player: Side)
    requires WellFormed(s.squares) && FindWinningMove(s, player).Some?
    ensures var m := FindWinningMove(s, player).value;
      && OnBoard(m) && At(s.squares, m) == 0 && Wins(s, m, player)
      && forall sq :: OnBoard(sq) && At(s.squares, sq) == 0 && Key(sq) < Key(m) ==> !Wins(s, sq, player)
  {
    var g := s.squares;
    var empty := EmptySqrs(g);
    var f := WinTest(s, player);
    EmptySqrsSpec(g);
    FirstWhereSpec(f, empty);
    var m := FindWinningMove(s, player).value;
    var k :| 0 <= k < |empty| && empty[k] == m && f(empty[k]) && forall j :: 0 <= j < k ==> !f(empty[j]);
    assert m in empty;
    forall sq | OnBoard(sq) && At(g, sq) == 0 && Key(sq) < Key(m) ensures !Wins(s, sq, player) {
      var j :| 0 <= j < |empty| && empty[j] == sq;
      RowMajorBefore(empty, j, k);
      assert !f(empty[j]);
    }
  }

  /** `find_winning_move` returns an empty square where `player` wins at
      once and before which, in row-major order, no empty square wins;
      it returns nothing exactly when no empty square wins. */
  lemma FindWinningMoveSpec(s: State, player: Side)
    requires WellFormed(s.squares)
    ensures FindWinningMove(s, player).None? <==>
      forall sq :: OnBoard(sq) && At(s.squares, sq) == 0 ==> !Wins(s, sq, player)
    ensures FindWinningMove(s, player).Some? ==>
      var m := FindWinningMove(s, player).value;
      && OnBoard(m) && At(s.squares, m) == 0 && Wins(s, m, player)
      && forall sq :: OnBoard(sq) && At(s.squares, sq) == 0 && Key(sq) < Key(m) ==> !Wins(s, sq, player)
  {
    FindWinningMoveNone(s, player);
    if FindWinningMove(s, player).Some? {
      FindWinningMoveFirst(s, player);
    }
  }

  // ---------------------------------------------------------------------
  // Choosing a move

  /** `rnd`: the random choice among the empty squares, drawn by the
      caller as `pick`. */
  function Rnd(s: State, pick: nat): (r: Option<Sqr>)
    requires WellFormed(s.squares)
    ensures r.Some? <==> EmptySqrs(s.squares) != []
    ensures r.Some? ==> OnBoard(r.value) && At(s.squares, r.value) == 0
  {
    var empty := EmptySqrs(s.squares);
    EmptySqrsSpec(s.squares);
    if empty == [] then None else Some(empty[pick % |empty|])
  }

  /** `eval(main_board, max_depth)`. The random opening square
      (`openRow`, `openCol`) and the random pick are drawn by the caller. */
  function Eval(s: State, level: int, player: Side, opponent: Side, maxDepth: int,
                openRow: int, openCol: int, pick: nat): Option<Sqr>
    requires WellFormed(s.squares)
  {
    if IsEmpty(s) then Some(Sqr(openRow, openCol))
    else if level == 0 then
      (match Rnd(s, pick)
       case None => Some(Sqr(0, 0))
       case Some(m) => Some(m))
    else
      var win := FindWinningMove(s, player);
      if win.Some? then win
      else
        var block := FindWinningMove(s, opponent);
        if block.Some? then block
        else
          var root := Minimax(s, true, 0, Min(maxDepth, DepthCap), -Inf, Inf, player, opponent);
          if root.move.None? then Rnd(s, pick) else root.move
  }

  /** The lookahead comes first: an immediate win is taken, otherwise
      an immediate loss is blocked, each at the first such square in
      row-major order; only then does the search run, never deeper than 2. */
  lemma EvalPriorities(s: State, level: int, player: Side, opponent: Side, maxDepth: int,
                       openRow: int, openCol: int, pick: nat)
    requires WellFormed(s.squares) && !IsEmpty(s) && level != 0
    ensures (exists sq :: OnBoard(sq) && At(s.squares, sq) == 0 && Wins(s, sq, player)) ==>
      Eval(s, level, player, opponent, maxDepth, openRow, openCol, pick) == FindWinningMove(s, player)
    ensures (forall sq :: OnBoard(sq) && At(s.squares, sq) == 0 ==> !Wins(s, sq, player))
            && (exists sq :: OnBoard(sq) && At(s.squares, sq) == 0 && Wins(s, sq, opponent)) ==>
      Eval(s, level, player, opponent, maxDepth, openRow, openCol, pick) == FindWinningMove(s, opponent)
    ensures (forall sq :: OnBoard(sq) && At(s.squares, sq) == 0 ==> !Wins(s, sq, player) && !Wins(s, sq, opponent))
            && Minimax(s, true, 0, Min(maxDepth, DepthCap), -Inf, Inf, player, opponent).move.Some? ==>
      Eval(s, level, player, opponent, maxDepth, openRow, openCol, pick)
        == Minimax(s, true, 0, Min(maxDepth, DepthCap), -Inf, Inf, player, opponent).move
  {
    FindWinningMoveSpec(s, player);
    FindWinningMoveSpec(s, opponent);
  }

  /** Whatever branch it takes, `eval` proposes an empty square of the
      board whenever one exists (given an opening square in rows and
      columns 3-6). */
  lemma EvalLegal(s: State, level: int, player: Side, opponent: Side, maxDepth: int,
                  openRow: int, openCol: int, pick: nat)
    requires Consistent(s) && EmptySqrs(s.squares) != []
    requires 3 <= openRow <= 6 && 3 <= openCol <= 6
    ensures var r := Eval(s, level, player, opponent, maxDepth, openRow, openCol, pick);
      r.Some? && OnBoard(r.value) && At(s.squares, r.value) == 0
    ensures IsEmpty(s) ==> InCenter(Eval(s, level, player, opponent, maxDepth, openRow, openCol, pick).value)
  {
    if IsEmpty(s) {
      EmptyIffNoMarks(s);
    } else if level != 0 {
      FindWinningMoveSpec(s, player);
      FindWinningMoveSpec(s, opponent);
      MinimaxMove(s, true, 0, Min(maxDepth, DepthCap), -Inf, Inf, player, opponent);
    }
  }
}
