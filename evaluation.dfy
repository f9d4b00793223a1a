/** The positional evaluator of the AI: a table-driven score for each
    window of five, summed over every window, plus a bias for the
    central 4x4 block, with terminal positions scored outright. */
module Evaluation {
  import opened Seqs
  import opened Rules

  const FiveScore := 1000
  const WinScore := 10000
  const CenterValue := 3
  /** No evaluation leaves [-ScoreBound, ScoreBound]. */
  const ScoreBound := 200000

  /** Bonus for `own` marks of one side beside `empty` empty cells. */
  function Threat(own: int, empty: int): (r: int)
    ensures r >= 0
  {
    if own == 4 && empty == 1 then 500
    else if own == 3 && empty == 2 then 50
    else if own == 2 && empty == 3 then 10
    else 0
  }

  /** `evaluate_window`, from the point of view of `player`. */
  function EvaluateWindow(window: seq<int>, player: int, opponent: int): (r: int)
    ensures Count(window, player) > 0 && Count(window, opponent) > 0 ==> r == 0
    ensures Count(window, player) == WinLength && Count(window, opponent) == 0 ==> r == FiveScore
    ensures Count(window, opponent) == WinLength && Count(window, player) == 0 ==> r == -FiveScore
    ensures Count(window, opponent) == 0 ==> r >= 0
    ensures Count(window, player) == 0 ==> r <= 0
    ensures -FiveScore <= r <= FiveScore
  {
    var ai, human, empty := Count(window, player), Count(window, opponent), Count(window, 0);
    if ai > 0 && human > 0 then 0
    else if ai == WinLength then FiveScore
    else
      var score := Threat(ai, empty);
      if human == WinLength then -FiveScore
      else score - Threat(human, empty)
  }

  /** Exchanging the two sides negates a window's score. */
  lemma EvaluateWindowSwap(window: seq<int>, player: int, opponent: int)
    ensures EvaluateWindow(window, opponent, player) == -EvaluateWindow(window, player, opponent)
  {
  }

  /** The table in terms of counts: a window that holds only one side's
      marks scores that side's threat, five of them score 1000. */
  lemma EvaluateWindowTable(window: seq<int>, player: int, opponent: int)
    requires Count(window, opponent) == 0 && Count(window, player) < WinLength
    ensures EvaluateWindow(window, player, opponent) == Threat(Count(window, player), Count(window, 0))
  {
  }

  function WindowTotal(g: Grid, ws: seq<Window>, player: int, opponent: int): int
    requires WellFormed(g) && forall w :: w in ws ==> InGrid(w)
  {
    if ws == [] then 0
    else WindowTotal(g, ws[..|ws| - 1], player, opponent)
         + EvaluateWindow(Line(g, ws[|ws| - 1]), player, opponent)
  }

  lemma WindowTotalStep(g: Grid, ws: seq<Window>, k: nat, player: int, opponent: int)
    requires WellFormed(g) && forall w :: w in ws ==> InGrid(w)
    requires k < |ws|
    ensures WindowTotal(g, ws[..k + 1], player, opponent)
         == WindowTotal(g, ws[..k], player, opponent) + EvaluateWindow(Line(g, ws[k]), player, opponent)
  {
    assert ws[..k + 1][..k] == ws[..k];
  }

  lemma {:induction false} WindowTotalConcat(g: Grid, a: seq<Window>, b: seq<Window>, player: int, opponent: int)
    requires WellFormed(g) && (forall w :: w in a ==> InGrid(w)) && forall w :: w in b ==> InGrid(w)
    ensures WindowTotal(g, a + b, player, opponent)
         == WindowTotal(g, a, player, opponent) + WindowTotal(g, b, player, opponent)
    decreases |b|
  {
    if b == [] {
      assert a + b == a;
    } else {
      var init := b[..|b| - 1];
      assert (a + b)[..|a + b| - 1] == a + init;
      assert (a + b)[|a + b| - 1] == b[|b| - 1];
      assert forall w :: w in init ==> w in b;
      WindowTotalConcat(g, a, init, player, opponent);
    }
  }
  /** The windows of the first `n` rows (columns, for vertical windows)
      of direction `d`, summed. */
  function ScanPrefixTotal(g: Grid, d: Dir, n: int, player: int, opponent: int): int
    requires WellFormed(g) && 0 <= n <= OuterCount(d)
  {
    WindowTotal(g, Scan(d)[..n * 6], player, opponent)
  }

  /** The windows of one direction, summed row by row. */
  lemma WindowTotalRow(g: Grid, d: Dir, outer: int, player: int, opponent: int)
    requires WellFormed(g) && OuterLo(d) <= outer < OuterLo(d) + OuterCount(d)
    ensures ScanPrefixTotal(g, d, outer + 1 - OuterLo(d), player, opponent)
         == ScanPrefixTotal(g, d, outer - OuterLo(d), player, opponent)
            + WindowTotal(g, RowWindows(d, outer), player, opponent)
  {
    ScanRow(d, outer);
    WindowTotalConcat(g, Scan(d)[..(outer - OuterLo(d)) * 6], RowWindows(d, outer), player, opponent);
  }

  /** All rows of a direction make up its whole scan. */
  lemma ScanPrefixTotalAll(g: Grid, d: Dir, player: int, opponent: int)
    requires WellFormed(g)
    ensures ScanPrefixTotal(g, d, OuterCount(d), player, opponent) == WindowTotal(g, Scan(d), player, opponent)
  {
    assert Scan(d)[..OuterCount(d) * 6] == Scan(d);
  }

  lemma {:induction false} WindowTotalBound(g: Grid, ws: seq<Window>, player: int, opponent: int)
    requires WellFormed(g) && forall w :: w in ws ==> InGrid(w)
    ensures -FiveScore * |ws| <= WindowTotal(g, ws, player, opponent) <= FiveScore * |ws|
    decreases |ws|
  {
    if ws != [] {
      WindowTotalBound(g, ws[..|ws| - 1], player, opponent);
    }
  }

  lemma {:induction false} WindowTotalSwap(g: Grid, ws: seq<Window>, player: int, opponent: int)
    requires WellFormed(g) && forall w :: w in ws ==> InGrid(w)
    ensures WindowTotal(g, ws, opponent, player) == -WindowTotal(g, ws, player, opponent)
    decreases |ws|
  {
    if ws != [] {
      WindowTotalSwap(g, ws[..|ws| - 1], player, opponent);
      EvaluateWindowSwap(Line(g, ws[|ws| - 1]), player, opponent);
    }
  }

  function CellBonus(v: int, player: int, opponent: int): int {
    if v == player then CenterValue
    else if v == opponent then -CenterValue
    else 0
  }

  function BonusTotal(g: Grid, sqs: seq<Sqr>, player: int, opponent: int): int
    requires WellFormed(g) && forall sq :: sq in sqs ==> OnBoard(sq)
  {
    if sqs == [] then 0
    else BonusTotal(g, sqs[..|sqs| - 1], player, opponent)
         + CellBonus(At(g, sqs[|sqs| - 1]), player, opponent)
  }

  lemma BonusTotalStep(g: Grid, sqs: seq<Sqr>, k: nat, player: int, opponent: int)
    requires WellFormed(g) && forall sq :: sq in sqs ==> OnBoard(sq)
    requires k < |sqs|
    ensures BonusTotal(g, sqs[..k + 1], player, opponent)
         == BonusTotal(g, sqs[..k], player, opponent) + CellBonus(At(g, sqs[k]), player, opponent)
  {
    assert sqs[..k + 1][..k] == sqs[..k];
  }

  lemma {:induction false} BonusTotalConcat(g: Grid, a: seq<Sqr>, b: seq<Sqr>, player: int, opponent: int)
    requires WellFormed(g) && (forall sq :: sq in a ==> OnBoard(sq)) && forall sq :: sq in b ==> OnBoard(sq)
    ensures BonusTotal(g, a + b, player, opponent)
         == BonusTotal(g, a, player, opponent) + BonusTotal(g, b, player, opponent)
    decreases |b|
  {
    if b == [] {
      assert a + b == a;
    } else {
      var init := b[..|b| - 1];
      assert (a + b)[..|a + b| - 1] == a + init;
      BonusTotalConcat(g, a, init, player, opponent);
    }
  }

  /** Number of squares of `sqs` that hold `v`. */
  function Owned(g: Grid, sqs: seq<Sqr>, v: int): nat
    requires WellFormed(g) && forall sq :: sq in sqs ==> OnBoard(sq)
  {
    if sqs == [] then 0
    else Owned(g, sqs[..|sqs| - 1], v) + (if At(g, sqs[|sqs| - 1]) == v then 1 else 0)
  }

  /** With two different sides, the bias is 3 per own mark and -3 per
      opposing mark. */
  lemma {:induction false} BonusTotalCounts(g: Grid, sqs: seq<Sqr>, player: int, opponent: int)
    requires WellFormed(g) && forall sq :: sq in sqs ==> OnBoard(sq)
    requires player != opponent
    ensures BonusTotal(g, sqs, player, opponent)
         == CenterValue * Owned(g, sqs, player) - CenterValue * Owned(g, sqs, opponent)
    decreases |sqs|
  {
    if sqs != [] {
      BonusTotalCounts(g, sqs[..|sqs| - 1], player, opponent);
    }
  }

  function CenterBonus(g: Grid, player: int, opponent: int): int
    requires WellFormed(g)
  {
    CenterSqrsProps();
    BonusTotal(g, CenterSqrs(), player, opponent)
  }

  /** Sum of the window scores in the order the source visits them:
      rows, columns, descending and ascending diagonals. */
  function WindowsScore(g: Grid, player: int, opponent: int): int
    requires WellFormed(g)
  {
    WindowTotal(g, Scan(Horizontal), player, opponent)
    + WindowTotal(g, Scan(Vertical), player, opponent)
    + WindowTotal(g, Scan(Descending), player, opponent)
    + WindowTotal(g, Scan(Ascending), player, opponent)
  }

  /** `evaluate_board`. */
  function EvaluateBoard(s: State, player: int, opponent: int): int
    requires WellFormed(s.squares)
  {
    var fs := FinalState(s.squares);
    if fs == player then WinScore
    else if fs == opponent then -WinScore
    else if IsFull(s) then 0
    else WindowsScore(s.squares, player, opponent) + CenterBonus(s.squares, player, opponent)
  }

  /** The evaluation of any board lies within `ScoreBound`. */
  lemma EvaluateBoardBounded(s: State, player: int, opponent: int)
    requires WellFormed(s.squares)
    ensures -ScoreBound <= EvaluateBoard(s, player, opponent) <= ScoreBound
  {
    var fs := FinalState(s.squares);
    if fs != player && fs != opponent && !IsFull(s) {
      WindowsScoreBound(s.squares, player, opponent);
      CenterBonusBound(s.squares, player, opponent);
    }
  }

  lemma CenterBonusBound(g: Grid, player: int, opponent: int)
    requires WellFormed(g)
    ensures -CenterValue * 16 <= CenterBonus(g, player, opponent) <= CenterValue * 16
  {
    CenterSqrsProps();
    BonusBound(g, CenterSqrs(), player, opponent);
  }

  lemma WindowsScoreBound(g: Grid, player: int, opponent: int)
    requires WellFormed(g)
    ensures -FiveScore * 192 <= WindowsScore(g, player, opponent) <= FiveScore * 192
  {
    WindowTotalBound(g, Scan(Horizontal), player, opponent);
    WindowTotalBound(g, Scan(Vertical), player, opponent);
    WindowTotalBound(g, Scan(Descending), player, opponent);
    WindowTotalBound(g, Scan(Ascending), player, opponent);
  }

  lemma {:induction false} BonusBound(g: Grid, sqs: seq<Sqr>, player: int, opponent: int)
    requires WellFormed(g) && forall sq :: sq in sqs ==> OnBoard(sq)
    ensures -CenterValue * |sqs| <= BonusTotal(g, sqs, player, opponent) <= CenterValue * |sqs|
    decreases |sqs|
  {
    if sqs != [] {
      BonusBound(g, sqs[..|sqs| - 1], player, opponent);
    }
  }

  /** A won board scores 10000 for the winner and -10000 for the loser;
      a full board without five in a row scores 0. */
  lemma EvaluateBoardTerminal(s: State, player: Side, opponent: Side)
    requires WellFormed(s.squares) && player != opponent
    ensures HasFive(s.squares, player) && !HasFive(s.squares, opponent)
            ==> EvaluateBoard(s, player, opponent) == WinScore
    ensures HasFive(s.squares, opponent) && !HasFive(s.squares, player)
            ==> EvaluateBoard(s, player, opponent) == -WinScore
    ensures !HasFive(s.squares, player) && !HasFive(s.squares, opponent) && IsFull(s)
            ==> EvaluateBoard(s, player, opponent) == 0
  {
    var g := s.squares;
    if HasFive(g, player) && !HasFive(g, opponent) {
      FinalStateUnique(g, player);
    } else if HasFive(g, opponent) && !HasFive(g, player) {
      FinalStateUnique(g, opponent);
    } else if !HasFive(g, player) && !HasFive(g, opponent) {
      FinalStateNoWinner(g);
    }
  }

  lemma WindowsScoreSwap(g: Grid, player: int, opponent: int)
    requires WellFormed(g)
    ensures WindowsScore(g, opponent, player) == -WindowsScore(g, player, opponent)
  {
    WindowTotalSwap(g, Scan(Horizontal), player, opponent);
    WindowTotalSwap(g, Scan(Vertical), player, opponent);
    WindowTotalSwap(g, Scan(Descending), player, opponent);
    WindowTotalSwap(g, Scan(Ascending), player, opponent);
  }

  lemma CenterBonusSwap(g: Grid, player: int, opponent: int)
    requires WellFormed(g) && player != opponent
    ensures CenterBonus(g, opponent, player) == -CenterBonus(g, player, opponent)
  {
    CenterSqrsProps();
    BonusTotalCounts(g, CenterSqrs(), player, opponent);
    BonusTotalCounts(g, CenterSqrs(), opponent, player);
  }

  /** The evaluation is zero-sum: exchanging the sides negates it. */
  lemma EvaluateBoardSwap(s: State, player: int, opponent: int)
    requires WellFormed(s.squares) && player != opponent
    ensures EvaluateBoard(s, opponent, player) == -EvaluateBoard(s, player, opponent)
  {
    var fs := FinalState(s.squares);
    if fs != player && fs != opponent && !IsFull(s) {
      WindowsScoreSwap(s.squares, player, opponent);
      CenterBonusSwap(s.squares, player, opponent);
    }
  }
}
