/** What the pruning in `minimax` preserves. `Value` is plain
    depth-limited minimax over the same candidate moves, with no alpha
    and no beta; the search with pruning is fail-soft with respect to
    it, so from the full window (-Inf, Inf) it returns exactly that
    value. */
module AlphaBeta {
  import opened Seqs
  import opened Rules
  import opened Evaluation
  import opened MoveGen
  import opened Search

  /** Plain minimax: the same leaves as `Minimax`, and at inner nodes the
      maximum (AI to move) or minimum (opponent to move) over all
      candidate moves. */
  function Value(s: State, maximizing: bool, depth: int, maxDepth: int,
                 player: Side, opponent: Side): int
    requires WellFormed(s.squares)
    decreases Remaining(depth, maxDepth), 2, 0
  {
    if depth >= maxDepth then EvaluateBoard(s, player, opponent)
    else
      var state := FinalState(s.squares);
      if state == player then WinScore - depth
      else if state == opponent then -WinScore + depth
      else if IsFull(s) then 0
      else
        var moves := StrategicMoves(s);
        if moves == [] then 0
        else if maximizing then BestOf(s, moves, 0, depth, maxDepth, player, opponent)
        else WorstOf(s, moves, 0, depth, maxDepth, player, opponent)
  }

  /** The value of the position after candidate `i`: marked by the AI
      below a maximizing node, by the opponent below a minimizing one. */
  function ChildValue(s: State, moves: seq<Sqr>, i: nat, maximizing: bool, depth: int, maxDepth: int,
                      player: Side, opponent: Side): int
    requires WellFormed(s.squares) && forall m :: m in moves ==> OnBoard(m)
    requires depth < maxDepth && i < |moves|
    decreases Remaining(depth, maxDepth), 0, 0
  {
    if maximizing then Value(Mark(s, moves[i], player), false, depth + 1, maxDepth, player, opponent)
    else Value(Mark(s, moves[i], opponent), true, depth + 1, maxDepth, player, opponent)
  }

  /** The largest child value from candidate `i` on (-Inf for none). */
  function BestOf(s: State, moves: seq<Sqr>, i: nat, depth: int, maxDepth: int,
                  player: Side, opponent: Side): int
    requires WellFormed(s.squares) && forall m :: m in moves ==> OnBoard(m)
    requires depth < maxDepth && i <= |moves|
    decreases Remaining(depth, maxDepth), 1, |moves| - i
  {
    if i == |moves| then -Inf
    else Max(ChildValue(s, moves, i, true, depth, maxDepth, player, opponent),
             BestOf(s, moves, i + 1, depth, maxDepth, player, opponent))
  }

  /** The smallest child value from candidate `i` on (Inf for none). */
  function WorstOf(s: State, moves: seq<Sqr>, i: nat, depth: int, maxDepth: int,
                   player: Side, opponent: Side): int
    requires WellFormed(s.squares) && forall m :: m in moves ==> OnBoard(m)
    requires depth < maxDepth && i <= |moves|
    decreases Remaining(depth, maxDepth), 1, |moves| - i
  {
    if i == |moves| then Inf
    else Min(ChildValue(s, moves, i, false, depth, maxDepth, player, opponent),
             WorstOf(s, moves, i + 1, depth, maxDepth, player, opponent))
  }

  // ---------------------------------------------------------------------
  // Bounds

  /** Plain minimax values stay within the evaluator's bound. */
  lemma {:induction false} ValueBounded(s: State, maximizing: bool, depth: int, maxDepth: int,
                                        player: Side, opponent: Side)
    requires WellFormed(s.squares) && 0 <= depth && maxDepth <= WinScore
    ensures InBounds(Value(s, maximizing, depth, maxDepth, player, opponent))
    decreases Remaining(depth, maxDepth), 2, 0
  {
    if depth >= maxDepth {
      EvaluateBoardBounded(s, player, opponent);
    } else if FinalState(s.squares) != player && FinalState(s.squares) != opponent && !IsFull(s)
              && StrategicMoves(s) != [] {
      var moves := StrategicMoves(s);
      if maximizing {
        BestOfBounded(s, moves, 0, depth, maxDepth, player, opponent);
      } else {
        WorstOfBounded(s, moves, 0, depth, maxDepth, player, opponent);
      }
    }
  }

  lemma {:induction false} BestOfBounded(s: State, moves: seq<Sqr>, i: nat, depth: int, maxDepth: int,
                                         player: Side, opponent: Side)
    requires WellFormed(s.squares) && forall m :: m in moves ==> OnBoard(m)
    requires 0 <= depth < maxDepth <= WinScore && i < |moves|
    ensures InBounds(BestOf(s, moves, i, depth, maxDepth, player, opponent))
    decreases Remaining(depth, maxDepth), 1, |moves| - i
  {
    ValueBounded(Mark(s, moves[i], player), false, depth + 1, maxDepth, player, opponent);
    if i + 1 < |moves| {
      BestOfBounded(s, moves, i + 1, depth, maxDepth, player, opponent);
    }
  }

  lemma {:induction false} WorstOfBounded(s: State, moves: seq<Sqr>, i: nat, depth: int, maxDepth: int,
                                          player: Side, opponent: Side)
    requires WellFormed(s.squares) && forall m :: m in moves ==> OnBoard(m)
    requires 0 <= depth < maxDepth <= WinScore && i < |moves|
    ensures InBounds(WorstOf(s, moves, i, depth, maxDepth, player, opponent))
    decreases Remaining(depth, maxDepth), 1, |moves| - i
  {
    ValueBounded(Mark(s, moves[i], opponent), true, depth + 1, maxDepth, player, opponent);
    if i + 1 < |moves| {
      WorstOfBounded(s, moves, i + 1, depth, maxDepth, player, opponent);
    }
  }

  // ---------------------------------------------------------------------
  // Fail-soft alpha-beta

  /** The search with window (alpha, beta) is fail-soft: a score at or
      below alpha bounds the true value from above, one at or above beta
      bounds it from below, and one strictly inside the window is the
      true value. */
  lemma {:induction false} MinimaxFailSoft(s: State, maximizing: bool, depth: int, maxDepth: int,
                                           alpha: int, beta: int, player: Side, opponent: Side)
    requires WellFormed(s.squares) && 0 <= depth && maxDepth <= WinScore
    requires -Inf <= alpha < beta <= Inf
    ensures var r := Minimax(s, maximizing, depth, maxDepth, alpha, beta, player, opponent).score;
            var v := Value(s, maximizing, depth, maxDepth, player, opponent);
            && (r <= alpha ==> v <= r)
            && (r >= beta ==> v >= r)
            && (alpha < r < beta ==> v == r)
    decreases Remaining(depth, maxDepth), 2, 0
  {
    MinimaxCases(s, maximizing, depth, maxDepth, alpha, beta, player, opponent);
    if depth < maxDepth && FinalState(s.squares) != player && FinalState(s.squares) != opponent
       && !IsFull(s) && StrategicMoves(s) != [] {
      var moves := StrategicMoves(s);
      if maximizing {
        MaxNodeFailSoft(s, moves, depth, maxDepth, alpha, beta, player, opponent);
      } else {
        MinNodeFailSoft(s, moves, depth, maxDepth, alpha, beta, player, opponent);
      }
    }
  }

  /** An expanded maximizing node: its loop, started with maxEval = -Inf,
      is fail-soft for the largest child value. */
  lemma MaxNodeFailSoft(s: State, moves: seq<Sqr>, depth: int, maxDepth: int,
                        alpha: int, beta: int, player: Side, opponent: Side)
    requires WellFormed(s.squares) && (forall m :: m in moves ==> OnBoard(m)) && moves != []
    requires 0 <= depth < maxDepth <= WinScore && -Inf <= alpha < beta <= Inf
    ensures var r := MaxLoop(s, moves, 0, depth, maxDepth, alpha, beta, -Inf, moves[0], player, opponent).score;
            var v := BestOf(s, moves, 0, depth, maxDepth, player, opponent);
            && (r <= alpha ==> v <= r)
            && (r >= beta ==> v >= r)
            && (alpha < r < beta ==> v == r)
    decreases Remaining(depth, maxDepth), 1, 0
  {
    BestOfBounded(s, moves, 0, depth, maxDepth, player, opponent);
    MaxLoopFailSoft(s, moves, 0, depth, maxDepth, alpha, alpha, beta, -Inf, moves[0], -Inf, player, opponent);
  }

  /** An expanded minimizing node, symmetric. */
  lemma MinNodeFailSoft(s: State, moves: seq<Sqr>, depth: int, maxDepth: int,
                        alpha: int, beta: int, player: Side, opponent: Side)
    requires WellFormed(s.squares) && (forall m :: m in moves ==> OnBoard(m)) && moves != []
    requires 0 <= depth < maxDepth <= WinScore && -Inf <= alpha < beta <= Inf
    ensures var r := MinLoop(s, moves, 0, depth, maxDepth, alpha, beta, Inf, moves[0], player, opponent).score;
            var v := WorstOf(s, moves, 0, depth, maxDepth, player, opponent);
            && (r >= beta ==> v >= r)
            && (r <= alpha ==> v <= r)
            && (alpha < r < beta ==> v == r)
    decreases Remaining(depth, maxDepth), 1, 0
  {
    WorstOfBounded(s, moves, 0, depth, maxDepth, player, opponent);
    MinLoopFailSoft(s, moves, 0, depth, maxDepth, beta, alpha, beta, Inf, moves[0], Inf, player, opponent);
  }

  /** The maximizing loop, entered with window (`alpha0`, `beta`) and
      having seen candidates whose true values have maximum `known`:
      the running `maxEval` never falls below `known` and equals it once
      above `alpha0`. */
  lemma {:induction false} MaxLoopFailSoft(s: State, moves: seq<Sqr>, i: nat, depth: int, maxDepth: int,
                                           alpha0: int, alpha: int, beta: int, maxEval: int, best: Sqr,
                                           known: int, player: Side, opponent: Side)
    requires WellFormed(s.squares) && forall m :: m in moves ==> OnBoard(m)
    requires 0 <= depth < maxDepth <= WinScore && i <= |moves|
    requires -Inf <= alpha0 && alpha == Max(alpha0, maxEval) && alpha < beta <= Inf
    requires -Inf <= known <= maxEval && (maxEval > alpha0 ==> known == maxEval)
    ensures var r := MaxLoop(s, moves, i, depth, maxDepth, alpha, beta, maxEval, best, player, opponent).score;
            var t := Max(known, BestOf(s, moves, i, depth, maxDepth, player, opponent));
            && (r <= alpha0 ==> t <= r)
            && (r >= beta ==> t >= r)
            && (alpha0 < r < beta ==> t == r)
    decreases Remaining(depth, maxDepth), 0, |moves| - i
  {
    if i < |moves| {
      var child := Mark(s, moves[i], player);
      MinimaxFailSoft(child, false, depth + 1, maxDepth, alpha, beta, player, opponent);
      MaxLoopUnfold(s, moves, i, depth, maxDepth, alpha, beta, maxEval, best, player, opponent);
      var e := Minimax(child, false, depth + 1, maxDepth, alpha, beta, player, opponent).score;
      var v := ChildValue(s, moves, i, true, depth, maxDepth, player, opponent);
      var maxEval' := if e > maxEval then e else maxEval;
      var best' := if e > maxEval then moves[i] else best;
      MaxStepNext(alpha0, alpha, beta, maxEval, known, e, v);
      if beta > Max(alpha, maxEval') {
        MaxLoopFailSoft(s, moves, i + 1, depth, maxDepth, alpha0, Max(alpha, maxEval'), beta, maxEval', best',
                        Max(known, v), player, opponent);
      }
      MaxStepResult(alpha0, alpha, beta, maxEval, known, e, v, BestOf(s, moves, i + 1, depth, maxDepth, player, opponent),
                    MaxLoop(s, moves, i + 1, depth, maxDepth, Max(alpha, maxEval'), beta, maxEval', best', player, opponent).score);
    }
  }

  /** One step of the maximizing loop, on scores alone: the child's score
      `e`, fail-soft for its true value `v` in the window (`alpha`, `beta`),
      keeps the loop's requirements for the next candidate. */
  lemma MaxStepNext(alpha0: int, alpha: int, beta: int, maxEval: int, known: int, e: int, v: int)
    requires -Inf <= alpha0 && alpha == Max(alpha0, maxEval) && alpha < beta <= Inf
    requires -Inf <= known <= maxEval && (maxEval > alpha0 ==> known == maxEval)
    requires (e <= alpha ==> v <= e) && (e >= beta ==> v >= e) && (alpha < e < beta ==> v == e)
    ensures var maxEval' := if e > maxEval then e else maxEval;
            var known' := Max(known, v);
            beta > Max(alpha, maxEval') ==>
              && Max(alpha, maxEval') == Max(alpha0, maxEval')
              && -Inf <= known' <= maxEval' && (maxEval' > alpha0 ==> known' == maxEval')
  {
  }

  /** ... and, given what the rest of the loop returns (`rest`, fail-soft
      for the maximum `w` of the remaining true values), what this step
      returns is fail-soft for the maximum from here on. */
  lemma MaxStepResult(alpha0: int, alpha: int, beta: int, maxEval: int, known: int, e: int, v: int, w: int, rest: int)
    requires -Inf <= alpha0 && alpha == Max(alpha0, maxEval) && alpha < beta <= Inf
    requires -Inf <= known <= maxEval && (maxEval > alpha0 ==> known == maxEval)
    requires (e <= alpha ==> v <= e) && (e >= beta ==> v >= e) && (alpha < e < beta ==> v == e)
    requires var maxEval' := if e > maxEval then e else maxEval;
             var t := Max(Max(known, v), w);
             beta > Max(alpha, maxEval') ==>
               && (rest <= alpha0 ==> t <= rest) && (rest >= beta ==> t >= rest) && (alpha0 < rest < beta ==> t == rest)
    ensures var maxEval' := if e > maxEval then e else maxEval;
            var r := if beta <= Max(alpha, maxEval') then maxEval' else rest;
            var t := Max(known, Max(v, w));
            && (r <= alpha0 ==> t <= r) && (r >= beta ==> t >= r) && (alpha0 < r < beta ==> t == r)
  {
  }

  /** The minimizing loop, symmetric: window (`alpha`, `beta0`), running
      `minEval` never above the minimum `known` of the true values seen,
      and equal to it once below `beta0`. */
  lemma {:induction false} MinLoopFailSoft(s: State, moves: seq<Sqr>, i: nat, depth: int, maxDepth: int,
                                           beta0: int, alpha: int, beta: int, minEval: int, best: Sqr,
                                           known: int, player: Side, opponent: Side)
    requires WellFormed(s.squares) && forall m :: m in moves ==> OnBoard(m)
    requires 0 <= depth < maxDepth <= WinScore && i <= |moves|
    requires beta0 <= Inf && beta == Min(beta0, minEval) && -Inf <= alpha < beta
    requires minEval <= known <= Inf && (minEval < beta0 ==> known == minEval)
    ensures var r := MinLoop(s, moves, i, depth, maxDepth, alpha, beta, minEval, best, player, opponent).score;
            var t := Min(known, WorstOf(s, moves, i, depth, maxDepth, player, opponent));
            && (r >= beta0 ==> t >= r)
            && (r <= alpha ==> t <= r)
            && (alpha < r < beta0 ==> t == r)
    decreases Remaining(depth, maxDepth), 0, |moves| - i
  {
    if i < |moves| {
      var child := Mark(s, moves[i], opponent);
      MinimaxFailSoft(child, true, depth + 1, maxDepth, alpha, beta, player, opponent);
      MinLoopUnfold(s, moves, i, depth, maxDepth, alpha, beta, minEval, best, player, opponent);
      var e := Minimax(child, true, depth + 1, maxDepth, alpha, beta, player, opponent).score;
      var v := ChildValue(s, moves, i, false, depth, maxDepth, player, opponent);
      var minEval' := if e < minEval then e else minEval;
      var best' := if e < minEval then moves[i] else best;
      MinStepNext(alpha, beta, beta0, minEval, known, e, v);
      if Min(beta, minEval') > alpha {
        MinLoopFailSoft(s, moves, i + 1, depth, maxDepth, beta0, alpha, Min(beta, minEval'), minEval', best',
                        Min(known, v), player, opponent);
      }
      MinStepResult(alpha, beta, beta0, minEval, known, e, v, WorstOf(s, moves, i + 1, depth, maxDepth, player, opponent),
                    MinLoop(s, moves, i + 1, depth, maxDepth, alpha, Min(beta, minEval'), minEval', best', player, opponent).score);
    }
  }

  /** One step of the minimizing loop, on scores alone: the child's score
      `e`, fail-soft for its true value `v` in the window (`alpha`, `beta`),
      keeps the loop's requirements for the next candidate. */
  lemma MinStepNext(alpha: int, beta: int, beta0: int, minEval: int, known: int, e: int, v: int)
    requires beta0 <= Inf && beta == Min(beta0, minEval) && -Inf <= alpha < beta
    requires minEval <= known <= Inf && (minEval < beta0 ==> known == minEval)
    requires (e <= alpha ==> v <= e) && (e >= beta ==> v >= e) && (alpha < e < beta ==> v == e)
    ensures var minEval' := if e < minEval then e else minEval;
            var known' := Min(known, v);
            Min(beta, minEval') > alpha ==>
              && Min(beta, minEval') == Min(beta0, minEval')
              && minEval' <= known' <= Inf && (minEval' < beta0 ==> known' == minEval')
  {
  }

  /** ... and, given what the rest of the loop returns (`rest`, fail-soft
      for the minimum `w` of the remaining true values), what this step
      returns is fail-soft for the minimum from here on. */
  lemma MinStepResult(alpha: int, beta: int, beta0: int, minEval: int, known: int, e: int, v: int, w: int, rest: int)
    requires beta0 <= Inf && beta == Min(beta0, minEval) && -Inf <= alpha < beta
    requires minEval <= known <= Inf && (minEval < beta0 ==> known == minEval)
    requires (e <= alpha ==> v <= e) && (e >= beta ==> v >= e) && (alpha < e < beta ==> v == e)
    requires var minEval' := if e < minEval then e else minEval;
             var t := Min(Min(known, v), w);
             Min(beta, minEval') > alpha ==>
               && (rest >= beta0 ==> t >= rest) && (rest <= alpha ==> t <= rest) && (alpha < rest < beta0 ==> t == rest)
    ensures var minEval' := if e < minEval then e else minEval;
            var r := if Min(beta, minEval') <= alpha then minEval' else rest;
            var t := Min(known, Min(v, w));
            && (r >= beta0 ==> t >= r) && (r <= alpha ==> t <= r) && (alpha < r < beta0 ==> t == r)
  {
  }

  /** From the full window the pruned search returns the plain minimax
      value: pruning never changes the score. */
  lemma MinimaxExact(s: State, maximizing: bool, depth: int, maxDepth: int, player: Side, opponent: Side)
    requires WellFormed(s.squares) && 0 <= depth && maxDepth <= WinScore
    ensures Minimax(s, maximizing, depth, maxDepth, -Inf, Inf, player, opponent).score
         == Value(s, maximizing, depth, maxDepth, player, opponent)
  {
    MinimaxFailSoft(s, maximizing, depth, maxDepth, -Inf, Inf, player, opponent);
    MinimaxBounded(s, maximizing, depth, maxDepth, -Inf, Inf, player, opponent);
  }

  // ---------------------------------------------------------------------
  // Ties go to the earliest candidate

  /** The loop of `minimax` at a maximizing node, replayed on the true
      child values `vs` from index `i`, with running maximum `m` first
      reached at index `k`: a value replaces the running maximum only if
      it is strictly larger. Returns the final maximum and its index. */
  function ScanFirst(vs: seq<int>, i: nat, m: int, k: int): (r: (int, int))
    requires i <= |vs| && 0 <= k < |vs|
    ensures 0 <= r.1 < |vs|
    decreases |vs| - i
  {
    if i == |vs| then (m, k)
    else if vs[i] > m then ScanFirst(vs, i + 1, vs[i], i)
    else ScanFirst(vs, i + 1, m, k)
  }

  /** `vs[k]` is the largest value, `m`, and no earlier value reaches it. */
  predicate FirstMax(vs: seq<int>, k: int, m: int) {
    && 0 <= k < |vs| && vs[k] == m
    && (forall j :: 0 <= j < k ==> vs[j] < m)
    && (forall j :: 0 <= j < |vs| ==> vs[j] <= m)
  }

  /** One value more: a strictly larger one takes over, any other leaves
      the first maximum where it was. */
  lemma FirstMaxExtend(vs: seq<int>, x: int, k: int, m: int)
    requires FirstMax(vs, k, m)
    ensures x <= m ==> FirstMax(vs + [x], k, m)
    ensures x > m ==> FirstMax(vs + [x], |vs|, x)
  {
    assert forall j :: 0 <= j < |vs| ==> (vs + [x])[j] == vs[j];
  }

  /** The scan ends on the first index of the largest value. */
  lemma {:induction false} ScanFirstFinds(vs: seq<int>, i: nat, m: int, k: int)
    requires i <= |vs| && 0 <= k < |vs|
    requires forall j :: 0 <= j < |vs| ==> vs[j] > -Inf
    requires i == 0 ==> m == -Inf
    requires i > 0 ==> FirstMax(vs[..i], k, m)
    ensures FirstMax(vs, ScanFirst(vs, i, m, k).1, ScanFirst(vs, i, m, k).0)
    decreases |vs| - i
  {
    if i == |vs| {
      assert vs[..i] == vs;
    } else {
      assert vs[..i + 1] == vs[..i] + [vs[i]];
      if i == 0 {
        assert FirstMax(vs[..1], 0, vs[0]);
      } else {
        FirstMaxExtend(vs[..i], vs[i], k, m);
      }
      if vs[i] > m {
        ScanFirstFinds(vs, i + 1, vs[i], i);
      } else {
        ScanFirstFinds(vs, i + 1, m, k);
      }
    }
  }

  /** The true values of the children of a maximizing node, in candidate
      order. */
  function ChildValues(s: State, moves: seq<Sqr>, depth: int, maxDepth: int,
                       player: Side, opponent: Side): (vs: seq<int>)
    requires WellFormed(s.squares) && forall m :: m in moves ==> OnBoard(m)
    requires depth < maxDepth
    ensures |vs| == |moves|
    ensures forall j :: 0 <= j < |moves| ==> vs[j] == ChildValue(s, moves, j, true, depth, maxDepth, player, opponent)
  {
    seq(|moves|, j requires 0 <= j < |moves| => ChildValue(s, moves, j, true, depth, maxDepth, player, opponent))
  }

  /** One child searched with window (`maxEval`, Inf): it beats the
      running maximum exactly when its true value does, and then its
      score is that value. */
  lemma ChildAgainstMax(child: State, depth: int, maxDepth: int, maxEval: int, player: Side, opponent: Side)
    requires WellFormed(child.squares) && 0 <= depth && maxDepth <= WinScore
    requires maxEval == -Inf || InBounds(maxEval)
    ensures var e := Minimax(child, false, depth, maxDepth, maxEval, Inf, player, opponent).score;
            var v := Value(child, false, depth, maxDepth, player, opponent);
            && (e > maxEval <==> v > maxEval)
            && (e > maxEval ==> e == v && InBounds(e))
  {
    ValueBounded(child, false, depth, maxDepth, player, opponent);
    MinimaxFailSoft(child, false, depth, maxDepth, maxEval, Inf, player, opponent);
    MinimaxBounded(child, false, depth, maxDepth, maxEval, Inf, player, opponent);
  }

  /** One step of the scan, given that the child's score `e` and its true
      value `vs[i]` agree on beating `m`, and agree when they do. */
  lemma ScanFirstStep(vs: seq<int>, i: nat, m: int, k: int, e: int)
    requires i < |vs| && 0 <= k < |vs|
    requires (e > m <==> vs[i] > m) && (e > m ==> e == vs[i])
    ensures ScanFirst(vs, i, m, k) == ScanFirst(vs, i + 1, if e > m then e else m, if e > m then i else k)
  {
  }

  /** With beta = Inf and alpha equal to the running maximum, a bounded
      score never cuts the loop off, and alpha keeps following the
      maximum. */
  lemma RunningMaxStep(alpha: int, maxEval: int, e: int)
    requires alpha == maxEval && (maxEval == -Inf || InBounds(maxEval))
    requires e > maxEval ==> InBounds(e)
    ensures var maxEval' := if e > maxEval then e else maxEval;
            && Max(alpha, maxEval') == maxEval' < Inf
            && (maxEval' == -Inf || InBounds(maxEval'))
  {
  }

  /** With beta = Inf, where alpha always equals the running maximum, the
      maximizing loop of `minimax` is the scan over the true child
      values. */
  lemma {:induction false} MaxLoopScan(s: State, moves: seq<Sqr>, i: nat, depth: int, maxDepth: int,
                                       alpha: int, maxEval: int, best: Sqr, k: int,
                                       player: Side, opponent: Side)
    requires WellFormed(s.squares) && forall m :: m in moves ==> OnBoard(m)
    requires 0 <= depth < maxDepth <= WinScore && i <= |moves|
    requires alpha == maxEval && (maxEval == -Inf || InBounds(maxEval))
    requires 0 <= k < |moves| && best == moves[k]
    ensures var r := ScanFirst(ChildValues(s, moves, depth, maxDepth, player, opponent), i, maxEval, k);
            MaxLoop(s, moves, i, depth, maxDepth, alpha, Inf, maxEval, best, player, opponent) == Outcome(r.0, Some(moves[r.1]))
    decreases |moves| - i
  {
    if i < |moves| {
      var vs := ChildValues(s, moves, depth, maxDepth, player, opponent);
      var child := Mark(s, moves[i], player);
      ChildAgainstMax(child, depth + 1, maxDepth, maxEval, player, opponent);
      MaxLoopUnfold(s, moves, i, depth, maxDepth, alpha, Inf, maxEval, best, player, opponent);
      var e := Minimax(child, false, depth + 1, maxDepth, alpha, Inf, player, opponent).score;
      ScanFirstStep(vs, i, maxEval, k, e);
      RunningMaxStep(alpha, maxEval, e);
      var maxEval' := if e > maxEval then e else maxEval;
      var best' := if e > maxEval then moves[i] else best;
      var k' := if e > maxEval then i else k;
      MaxLoopScan(s, moves, i + 1, depth, maxDepth, Max(alpha, maxEval'), maxEval', best', k', player, opponent);
    }
  }

  /** At a root the search expands, `minimax` returns the plain minimax
      value together with the first candidate, in the order of
      `get_strategic_moves`, whose child has the largest value. */
  lemma MinimaxFirstBest(s: State, maxDepth: int, player: Side, opponent: Side) returns (k: int)
    requires WellFormed(s.squares) && 0 < maxDepth <= WinScore
    requires FinalState(s.squares) != player && FinalState(s.squares) != opponent && !IsFull(s)
    requires StrategicMoves(s) != []
    ensures Minimax(s, true, 0, maxDepth, -Inf, Inf, player, opponent).score == Value(s, true, 0, maxDepth, player, opponent)
    ensures 0 <= k < |StrategicMoves(s)|
    ensures Minimax(s, true, 0, maxDepth, -Inf, Inf, player, opponent).move == Some(StrategicMoves(s)[k])
    ensures FirstMax(ChildValues(s, StrategicMoves(s), 0, maxDepth, player, opponent), k,
                     Value(s, true, 0, maxDepth, player, opponent))
  {
    var moves := StrategicMoves(s);
    var vs := ChildValues(s, moves, 0, maxDepth, player, opponent);
    MinimaxCases(s, true, 0, maxDepth, -Inf, Inf, player, opponent);
    MinimaxExact(s, true, 0, maxDepth, player, opponent);
    MaxLoopScan(s, moves, 0, 0, maxDepth, -Inf, -Inf, moves[0], 0, player, opponent);
    forall j | 0 <= j < |vs| ensures vs[j] > -Inf {
      ValueBounded(Mark(s, moves[j], player), false, 1, maxDepth, player, opponent);
    }
    ScanFirstFinds(vs, 0, -Inf, 0);
    k := ScanFirst(vs, 0, -Inf, 0).1;
  }
}
