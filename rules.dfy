/** The rules of five-in-a-row on a 10x10 board, on values: the grid of
    cells, marking a square, the empty squares in row-major order, the
    192 length-5 windows and the terminal-state scan that reports the
    owner of the first complete window. */
module Rules {
  import opened Seqs

  const Size := 10
  const WinLength := 5

  /** Cell contents: 0 is empty, 1 and 2 are the two sides. */
  type Grid = seq<seq<int>>

  /** A side that can own a mark. */
  type Side = s: int | s == 1 || s == 2 witness 1

  predicate WellFormed(g: Grid) {
    && |g| == Size
    && (forall r :: 0 <= r < Size ==> |g[r]| == Size)
    && (forall r, c :: 0 <= r < Size && 0 <= c < Size ==> 0 <= g[r][c] <= 2)
  }

  datatype Sqr = Sqr(row: int, col: int)

  predicate OnBoard(sq: Sqr) {
    0 <= sq.row < Size && 0 <= sq.col < Size
  }

  function At(g: Grid, sq: Sqr): int
    requires WellFormed(g) && OnBoard(sq)
  {
    g[sq.row][sq.col]
  }

  /** A board as the game sees it: the cells and the mark counter. */
  datatype State = State(squares: Grid, markedSqrs: int)

  function Initial(): (s: State)
    ensures WellFormed(s.squares)
  {
    State(seq(Size, _ => seq(Size, _ => 0)), 0)
  }

  /** Writes `player` into one square and bumps the counter; the source
      does not check that the square was empty. */
  function Mark(s: State, sq: Sqr, player: int): (t: State)
    requires WellFormed(s.squares) && OnBoard(sq) && 0 <= player <= 2
    ensures WellFormed(t.squares)
    ensures t.markedSqrs == s.markedSqrs + 1
    ensures At(t.squares, sq) == player
    ensures forall o {:trigger At(t.squares, o)} :: OnBoard(o) && o != sq ==> At(t.squares, o) == At(s.squares, o)
  {
    State(s.squares[sq.row := s.squares[sq.row][sq.col := player]], s.markedSqrs + 1)
  }

  predicate IsFull(s: State) {
    s.markedSqrs == Size * Size
  }

  predicate IsEmpty(s: State) {
    s.markedSqrs == 0
  }

  // ---------------------------------------------------------------------
  // Squares in row-major order

  predicate IsEmptyAt(g: Grid, sq: Sqr) {
    0 <= sq.row < |g| && 0 <= sq.col < |g[sq.row]| && g[sq.row][sq.col] == 0
  }

  predicate IsOccupiedAt(g: Grid, sq: Sqr) {
    0 <= sq.row < |g| && 0 <= sq.col < |g[sq.row]| && g[sq.row][sq.col] != 0
  }

  function EmptyTest(g: Grid): Sqr -> bool {
    sq => IsEmptyAt(g, sq)
  }

  function OccupiedTest(g: Grid): Sqr -> bool {
    sq => IsOccupiedAt(g, sq)
  }

  /** Position of a square in row-major order. */
  function Key(sq: Sqr): int {
    sq.row * Size + sq.col
  }

  predicate RowMajor(sqs: seq<Sqr>) {
    forall i, j :: 0 <= i < j < |sqs| ==> Key(sqs[i]) < Key(sqs[j])
  }

  /** Every square of the board, row 0 first, each row from column 0. */
  function AllSqrs(): (r: seq<Sqr>)
    ensures |r| == Size * Size
  {
    seq(Size * Size, k => Sqr(k / Size, k % Size))
  }

  /** The central 4x4 block, rows 3-6 and columns 3-6, in row-major order. */
  function CenterSqrs(): (r: seq<Sqr>)
    ensures |r| == 16
  {
    seq(16, k => Sqr(3 + k / 4, 3 + k % 4))
  }

  /** The central squares of one row, left to right. */
  function CenterRow(row: int): (r: seq<Sqr>)
    requires 3 <= row <= 6
    ensures |r| == 4 && forall sq :: sq in r ==> OnBoard(sq)
  {
    seq(4, k => Sqr(row, 3 + k))
  }

  predicate InCenter(sq: Sqr) {
    3 <= sq.row <= 6 && 3 <= sq.col <= 6
  }

  lemma CenterKey(k: int)
    requires 0 <= k < 16
    ensures InCenter(CenterSqrs()[k])
    ensures Key(CenterSqrs()[k]) == 33 + 10 * (k / 4) + k % 4
    ensures k == 4 * (k / 4) + k % 4 && 0 <= k % 4 < 4
  {
  }

  lemma CenterAt(sq: Sqr)
    requires InCenter(sq)
    ensures CenterSqrs()[(sq.row - 3) * 4 + sq.col - 3] == sq
  {
    var k := (sq.row - 3) * 4 + sq.col - 3;
    assert k / 4 == sq.row - 3 && k % 4 == sq.col - 3;
  }

  /** The central block is its four rows, one after another. */
  lemma CenterRows(row: int)
    requires 3 <= row <= 6
    ensures (row - 3) * 4 + 4 <= 16
    ensures CenterSqrs()[..(row - 3) * 4 + 4] == CenterSqrs()[..(row - 3) * 4] + CenterRow(row)
  {
    var base := (row - 3) * 4;
    forall c | 0 <= c < 4 ensures CenterSqrs()[base + c] == CenterRow(row)[c] {
      CenterAt(Sqr(row, 3 + c));
    }
  }

  lemma CenterSqrsProps()
    ensures forall sq :: sq in CenterSqrs() <==> InCenter(sq)
    ensures RowMajor(CenterSqrs()) && Distinct(CenterSqrs())
  {
    var cs := CenterSqrs();
    forall sq | InCenter(sq) ensures sq in cs {
      CenterAt(sq);
    }
    forall k | 0 <= k < 16 ensures InCenter(cs[k]) {
      CenterKey(k);
    }
    forall i, j | 0 <= i < j < 16 ensures Key(cs[i]) < Key(cs[j]) {
      CenterKey(i);
      CenterKey(j);
    }
    RowMajorDistinct(cs);
  }

  function EmptySqrs(g: Grid): seq<Sqr> {
    Filter(EmptyTest(g), AllSqrs())
  }

  /** Number of occupied cells. */
  function MarkedCount(g: Grid): nat {
    |Filter(OccupiedTest(g), AllSqrs())|
  }

  /** The counter agrees with the cells. */
  predicate Consistent(s: State) {
    WellFormed(s.squares) && s.markedSqrs == MarkedCount(s.squares)
  }

  lemma AllSqrsAt(sq: Sqr)
    requires OnBoard(sq)
    ensures 0 <= Key(sq) < Size * Size && AllSqrs()[Key(sq)] == sq
  {
  }

  /** The squares of one row, left to right. */
  function RowSqrs(row: int): (r: seq<Sqr>)
    ensures |r| == Size
  {
    seq(Size, col => Sqr(row, col))
  }

  /** The board is its rows, one after another. */
  lemma AllSqrsRows(row: int)
    requires 0 <= row < Size
    ensures (row + 1) * Size <= Size * Size
    ensures AllSqrs()[..(row + 1) * Size] == AllSqrs()[..row * Size] + RowSqrs(row)
  {
    var base := row * Size;
    assert base + Size == (row + 1) * Size;
    forall col | 0 <= col < Size ensures AllSqrs()[base + col] == RowSqrs(row)[col] {
      AllSqrsAt(Sqr(row, col));
    }
  }

  lemma AllSqrsProps()
    ensures forall sq :: sq in AllSqrs() <==> OnBoard(sq)
    ensures forall k :: 0 <= k < Size * Size ==> Key(AllSqrs()[k]) == k
    ensures RowMajor(AllSqrs())
  {
    forall sq | OnBoard(sq) ensures sq in AllSqrs() {
      AllSqrsAt(sq);
    }
  }

  lemma AllSqrsDistinct()
    ensures Distinct(AllSqrs())
  {
    AllSqrsProps();
    RowMajorDistinct(AllSqrs());
  }

  lemma RowMajorDistinct(sqs: seq<Sqr>)
    requires RowMajor(sqs)
    ensures Distinct(sqs)
  {
  }

  /** In a row-major list, a square with a smaller key comes earlier. */
  lemma RowMajorBefore(sqs: seq<Sqr>, j: int, k: int)
    requires RowMajor(sqs) && 0 <= j < |sqs| && 0 <= k < |sqs|
    ensures Key(sqs[j]) < Key(sqs[k]) <==> j < k
  {
    if k < j {
      assert Key(sqs[k]) < Key(sqs[j]);
    }
  }

  lemma {:induction false} FilterRowMajor(f: Sqr -> bool, s: seq<Sqr>)
    requires RowMajor(s)
    ensures RowMajor(Filter(f, s))
    decreases |s|
  {
    if s != [] {
      var init, last := s[..|s| - 1], s[|s| - 1];
      FilterRowMajor(f, init);
      var fi := Filter(f, init);
      forall i | 0 <= i < |fi| ensures Key(fi[i]) < Key(last) {
        assert fi[i] in init;
      }
    }
  }

  /** `get_empty_sqrs`: exactly the empty cells, each once, in row-major order. */
  lemma EmptySqrsSpec(g: Grid)
    requires WellFormed(g)
    ensures forall sq :: sq in EmptySqrs(g) <==> OnBoard(sq) && At(g, sq) == 0
    ensures RowMajor(EmptySqrs(g)) && Distinct(EmptySqrs(g))
  {
    AllSqrsProps();
    FilterRowMajor(EmptyTest(g), AllSqrs());
    RowMajorDistinct(EmptySqrs(g));
  }

  lemma {:induction false} FilterComplement(f1: Sqr -> bool, f2: Sqr -> bool, s: seq<Sqr>)
    requires forall x :: x in s ==> f1(x) == !f2(x)
    ensures |Filter(f1, s)| + |Filter(f2, s)| == |s|
    decreases |s|
  {
    if s != [] {
      FilterComplement(f1, f2, s[..|s| - 1]);
    }
  }

  /** Two tests that differ only on `x`, which the second accepts and the
      first rejects, keep one more element of a distinct sequence. */
  lemma {:induction false} FilterOneMore(f1: Sqr -> bool, f2: Sqr -> bool, s: seq<Sqr>, x: Sqr)
    requires Distinct(s) && x in s && !f1(x) && f2(x)
    requires forall y :: y in s && y != x ==> f1(y) == f2(y)
    ensures |Filter(f2, s)| == |Filter(f1, s)| + 1
    decreases |s|
  {
    var init, last := s[..|s| - 1], s[|s| - 1];
    assert s == init + [last];
    if last == x {
      assert x !in init;
      assert forall y :: y in init ==> f1(y) == f2(y);
      FilterSame(f1, f2, init);
    } else {
      FilterOneMore(f1, f2, init, x);
    }
  }

  lemma {:induction false} FilterSame(f1: Sqr -> bool, f2: Sqr -> bool, s: seq<Sqr>)
    requires forall y :: y in s ==> f1(y) == f2(y)
    ensures |Filter(f1, s)| == |Filter(f2, s)|
    decreases |s|
  {
    if s != [] {
      FilterSame(f1, f2, s[..|s| - 1]);
    }
  }

  /** Every square is either empty or occupied. */
  lemma EmptyPlusMarked(g: Grid)
    requires WellFormed(g)
    ensures |EmptySqrs(g)| + MarkedCount(g) == Size * Size
  {
    FilterComplement(EmptyTest(g), OccupiedTest(g), AllSqrs());
  }

  /** The new board's counter agrees with its cells: no mark, no
      occupied cell. */
  lemma InitialConsistent()
    ensures Consistent(Initial())
  {
    var g := Initial().squares;
    forall sq | sq in AllSqrs()
      ensures !OccupiedTest(g)(sq)
    {
      AllSqrsProps();
    }
    FilterNone(OccupiedTest(g), AllSqrs());
  }

  /** Marking an empty square with a side keeps the counter equal to the
      number of occupied cells. */
  lemma MarkKeepsConsistent(s: State, sq: Sqr, p: Side)
    requires Consistent(s) && OnBoard(sq) && At(s.squares, sq) == 0
    ensures Consistent(Mark(s, sq, p))
  {
    var g, t := s.squares, Mark(s, sq, p).squares;
    var all := AllSqrs();
    AllSqrsDistinct();
    AllSqrsAt(sq);
    assert sq in all;
    forall y | y in all && y != sq ensures OccupiedTest(g)(y) == OccupiedTest(t)(y) {
      var k :| 0 <= k < |all| && all[k] == y;
      assert OnBoard(y);
    }
    FilterOneMore(OccupiedTest(g), OccupiedTest(t), all, sq);
  }

  /** `isfull`: on a consistent board, the counter reaches 100 exactly
      when no empty square remains. */
  lemma FullIffNoEmpty(s: State)
    requires Consistent(s)
    ensures IsFull(s) <==> EmptySqrs(s.squares) == []
    ensures IsFull(s) <==> forall sq :: OnBoard(sq) ==> At(s.squares, sq) != 0
  {
    EmptyPlusMarked(s.squares);
    EmptySqrsSpec(s.squares);
    if !IsFull(s) {
      assert EmptySqrs(s.squares)[0] in EmptySqrs(s.squares);
    }
  }

  /** `isempty`: on a consistent board, the counter is 0 exactly when
      every square is empty. */
  lemma EmptyIffNoMarks(s: State)
    requires Consistent(s)
    ensures IsEmpty(s) <==> forall sq :: OnBoard(sq) ==> At(s.squares, sq) == 0
  {
    AllSqrsProps();
    var occ := Filter(OccupiedTest(s.squares), AllSqrs());
    if !IsEmpty(s) {
      assert occ[0] in occ;
    }
  }

  // ---------------------------------------------------------------------
  // Windows of five

  datatype Dir = Vertical | Horizontal | Descending | Ascending

  /** A run of five cells starting at (row, col) and going in `dir`. */
  datatype Window = Window(dir: Dir, row: int, col: int)

  function CellOf(w: Window, i: int): Sqr {
    match w.dir
    case Vertical => Sqr(w.row + i, w.col)
    case Horizontal => Sqr(w.row, w.col + i)
    case Descending => Sqr(w.row + i, w.col + i)
    case Ascending => Sqr(w.row - i, w.col + i)
  }

  /** The start positions the source scans in each direction. */
  predicate InGrid(w: Window) {
    match w.dir
    case Vertical => 0 <= w.row <= Size - WinLength && 0 <= w.col < Size
    case Horizontal => 0 <= w.row < Size && 0 <= w.col <= Size - WinLength
    case Descending => 0 <= w.row <= Size - WinLength && 0 <= w.col <= Size - WinLength
    case Ascending => WinLength - 1 <= w.row < Size && 0 <= w.col <= Size - WinLength
  }

  /** The scanned windows are exactly the runs of five that fit on the board. */
  lemma InGridIffFits(w: Window)
    ensures InGrid(w) <==> forall i :: 0 <= i < WinLength ==> OnBoard(CellOf(w, i))
  {
    if !InGrid(w) {
      assert !OnBoard(CellOf(w, 0)) || !OnBoard(CellOf(w, WinLength - 1));
    }
  }

  function Line(g: Grid, w: Window): (l: seq<int>)
    requires WellFormed(g) && InGrid(w)
    ensures |l| == WinLength
  {
    [At(g, CellOf(w, 0)), At(g, CellOf(w, 1)), At(g, CellOf(w, 2)),
     At(g, CellOf(w, 3)), At(g, CellOf(w, 4))]
  }

  /** All five cells equal the first one, which is not empty. */
  predicate IsLine(g: Grid, w: Window)
    requires WellFormed(g) && InGrid(w)
  {
    var l := Line(g, w);
    l[0] != 0 && l[1] == l[0] && l[2] == l[0] && l[3] == l[0] && l[4] == l[0]
  }

  function Owner(g: Grid, w: Window): int
    requires WellFormed(g) && InGrid(w)
  {
    At(g, CellOf(w, 0))
  }

  /** Side `v` has five in a row somewhere on the board. */
  ghost predicate HasFive(g: Grid, v: int)
    requires WellFormed(g)
  {
    exists w :: InGrid(w) && forall i :: 0 <= i < WinLength ==> Line(g, w)[i] == v
  }

  // Scan order: for each direction an outer and an inner loop, the
  // inner one always over 6 start positions.

  function OuterLo(d: Dir): int {
    if d == Ascending then WinLength - 1 else 0
  }

  function OuterCount(d: Dir): int {
    if d == Vertical || d == Horizontal then Size else Size - WinLength + 1
  }

  /** Vertical windows are scanned column by column, the others row by row. */
  function Start(d: Dir, outer: int, inner: int): Window {
    if d == Vertical then Window(d, inner, outer) else Window(d, outer, inner)
  }

  /** The six windows of one outer step of the scan in direction `d`. */
  function RowWindows(d: Dir, outer: int): (ws: seq<Window>)
    requires OuterLo(d) <= outer < OuterLo(d) + OuterCount(d)
    ensures |ws| == 6 && forall w :: w in ws ==> InGrid(w) && w.dir == d
  {
    seq(6, inner => Start(d, outer, inner))
  }

  /** All windows of direction `d`, in the order of the nested loops. */
  function Scan(d: Dir): (ws: seq<Window>)
    ensures |ws| == OuterCount(d) * 6
    ensures forall w :: w in ws ==> InGrid(w) && w.dir == d
  {
    seq(OuterCount(d) * 6, k => Start(d, OuterLo(d) + k / 6, k % 6))
  }

  lemma ScanAt(d: Dir, outer: int, inner: int)
    requires OuterLo(d) <= outer < OuterLo(d) + OuterCount(d) && 0 <= inner < 6
    ensures (outer - OuterLo(d)) * 6 + inner < |Scan(d)|
    ensures Scan(d)[(outer - OuterLo(d)) * 6 + inner] == Start(d, outer, inner)
  {
    var k := (outer - OuterLo(d)) * 6 + inner;
    assert k / 6 == outer - OuterLo(d) && k % 6 == inner;
  }

  /** The scan of a direction is its rows of windows, one after another. */
  lemma ScanRow(d: Dir, outer: int)
    requires OuterLo(d) <= outer < OuterLo(d) + OuterCount(d)
    ensures (outer + 1 - OuterLo(d)) * 6 <= |Scan(d)|
    ensures Scan(d)[..(outer + 1 - OuterLo(d)) * 6]
         == Scan(d)[..(outer - OuterLo(d)) * 6] + RowWindows(d, outer)
  {
    var base := (outer - OuterLo(d)) * 6;
    assert base + 6 == (outer + 1 - OuterLo(d)) * 6;
    forall inner | 0 <= inner < 6
      ensures Scan(d)[base + inner] == RowWindows(d, outer)[inner]
    {
      ScanAt(d, outer, inner);
    }
  }

  /** The order of `final_state`: vertical, horizontal, descending, ascending. */
  function ScanOrder(): (ws: seq<Window>)
    ensures forall w :: w in ws ==> InGrid(w)
  {
    Scan(Vertical) + Scan(Horizontal) + Scan(Descending) + Scan(Ascending)
  }

  /** Every window that fits on the board is scanned. */
  lemma ScanCovers(w: Window)
    requires InGrid(w)
    ensures w in Scan(w.dir) && w in ScanOrder()
  {
    var d := w.dir;
    if d == Vertical {
      ScanAt(d, w.col, w.row);
    } else {
      ScanAt(d, w.row, w.col);
    }
  }

  /** Owner of the first complete window of `ws`, or 0. */
  function FirstOwner(g: Grid, ws: seq<Window>): int
    requires WellFormed(g) && forall w :: w in ws ==> InGrid(w)
  {
    if ws == [] then 0
    else if IsLine(g, ws[0]) then Owner(g, ws[0])
    else FirstOwner(g, ws[1..])
  }

  /** `final_state` without drawing. */
  function FinalState(g: Grid): int
    requires WellFormed(g)
  {
    FirstOwner(g, ScanOrder())
  }

  lemma {:induction false} FirstOwnerSkip(g: Grid, ws: seq<Window>, k: nat)
    requires WellFormed(g) && forall w :: w in ws ==> InGrid(w)
    requires k <= |ws| && forall j :: 0 <= j < k ==> !IsLine(g, ws[j])
    ensures FirstOwner(g, ws) == FirstOwner(g, ws[k..])
  {
    if k > 0 {
      assert ws[1..][k - 1..] == ws[k..];
      FirstOwnerSkip(g, ws[1..], k - 1);
    }
  }

  lemma {:induction false} FirstOwnerConcat(g: Grid, a: seq<Window>, b: seq<Window>)
    requires WellFormed(g)
    requires forall w :: w in a ==> InGrid(w)
    requires forall w :: w in b ==> InGrid(w)
    ensures FirstOwner(g, a + b) == if FirstOwner(g, a) != 0 then FirstOwner(g, a) else FirstOwner(g, b)
  {
    if a == [] {
      assert a + b == b;
    } else {
      assert (a + b)[1..] == a[1..] + b;
      FirstOwnerConcat(g, a[1..], b);
    }
  }

  /** A complete window in a prefix decides `FirstOwner` for the whole list. */
  lemma FirstOwnerPrefix(g: Grid, ws: seq<Window>, k: nat)
    requires WellFormed(g) && forall w :: w in ws ==> InGrid(w)
    requires k <= |ws|
    ensures FirstOwner(g, ws[..k]) != 0 ==> FirstOwner(g, ws) == FirstOwner(g, ws[..k])
    ensures k == |ws| ==> FirstOwner(g, ws) == FirstOwner(g, ws[..k])
  {
    assert ws == ws[..k] + ws[k..];
    FirstOwnerConcat(g, ws[..k], ws[k..]);
  }

  /** `FirstOwner` reports the owner of the earliest complete window, and
      0 only when there is none. */
  lemma {:induction false} FirstOwnerSpec(g: Grid, ws: seq<Window>)
    requires WellFormed(g) && forall w :: w in ws ==> InGrid(w)
    ensures FirstOwner(g, ws) == 0 <==> forall j :: 0 <= j < |ws| ==> !IsLine(g, ws[j])
    ensures FirstOwner(g, ws) != 0 ==>
      exists k :: 0 <= k < |ws| && IsLine(g, ws[k]) && Owner(g, ws[k]) == FirstOwner(g, ws)
        && forall j :: 0 <= j < k ==> !IsLine(g, ws[j])
  {
    if ws != [] && !IsLine(g, ws[0]) {
      FirstOwnerSpec(g, ws[1..]);
      if FirstOwner(g, ws) != 0 {
        var k :| 0 <= k < |ws[1..]| && IsLine(g, ws[1..][k]) && Owner(g, ws[1..][k]) == FirstOwner(g, ws)
          && forall j :: 0 <= j < k ==> !IsLine(g, ws[1..][j]);
        assert forall j :: 0 <= j < k + 1 ==> !IsLine(g, ws[j]) by {
          forall j | 0 <= j < k + 1 ensures !IsLine(g, ws[j]) {
            if j > 0 {
              assert ws[j] == ws[1..][j - 1];
            }
          }
        }
      }
      if FirstOwner(g, ws) == 0 {
        forall j | 0 <= j < |ws| ensures !IsLine(g, ws[j]) {
          if j > 0 {
            assert ws[j] == ws[1..][j - 1];
          }
        }
      }
    }
  }

  lemma LineIsFive(g: Grid, w: Window)
    requires WellFormed(g) && InGrid(w)
    ensures IsLine(g, w) <==> Owner(g, w) != 0 && forall i :: 0 <= i < WinLength ==> Line(g, w)[i] == Owner(g, w)
  {
    var l := Line(g, w);
    assert Owner(g, w) == l[0];
    if IsLine(g, w) {
      forall i | 0 <= i < WinLength ensures l[i] == l[0] {
        assert i == 0 || i == 1 || i == 2 || i == 3 || i == 4;
      }
    }
  }

  /** `final_state` returns a side only if that side has five in a row,
      and when several runs exist it reports the one met first in the
      order vertical, horizontal, descending, ascending. */
  lemma FinalStateSound(g: Grid)
    requires WellFormed(g) && FinalState(g) != 0
    ensures HasFive(g, FinalState(g))
    ensures exists k :: (0 <= k < |ScanOrder()| && IsLine(g, ScanOrder()[k])
                         && Owner(g, ScanOrder()[k]) == FinalState(g)
                         && forall j :: 0 <= j < k ==> !IsLine(g, ScanOrder()[j]))
  {
    var ws, f := ScanOrder(), FinalState(g);
    FirstOwnerSpec(g, ws);
    var k :| 0 <= k < |ws| && IsLine(g, ws[k]) && Owner(g, ws[k]) == f
             && forall j :: 0 <= j < k ==> !IsLine(g, ws[j]);
    var w := ws[k];
    LineIsFive(g, w);
    assert InGrid(w) && forall i :: 0 <= i < WinLength ==> Line(g, w)[i] == f;
  }

  /** `final_state` returns 0 exactly when no window that fits on the
      board is a complete run. */
  lemma FinalStateNoLine(g: Grid)
    requires WellFormed(g)
    ensures FinalState(g) == 0 <==> forall w :: InGrid(w) ==> !IsLine(g, w)
  {
    var ws := ScanOrder();
    FirstOwnerSpec(g, ws);
    if FinalState(g) == 0 {
      forall w | InGrid(w) ensures !IsLine(g, w) {
        ScanCovers(w);
      }
    }
  }

  /** `final_state` returns 0 exactly when neither side has five in a row. */
  lemma FinalStateZero(g: Grid)
    requires WellFormed(g)
    ensures FinalState(g) == 0 <==> forall v :: v != 0 ==> !HasFive(g, v)
  {
    FinalStateNoLine(g);
    if FinalState(g) == 0 {
    } else {
      FinalStateSound(g);
    }
  }

  /** A run of five holds a cell value: empty, or one of the two sides. */
  lemma HasFiveRange(g: Grid, v: int)
    requires WellFormed(g)
    ensures HasFive(g, v) ==> 0 <= v <= 2
  {
    if HasFive(g, v) {
      var w :| InGrid(w) && forall i :: 0 <= i < WinLength ==> Line(g, w)[i] == v;
      var sq := CellOf(w, 0);
      InGridIffFits(w);
      assert OnBoard(sq) && Line(g, w)[0] == v;
      assert 0 <= g[sq.row][sq.col] <= 2;
    }
  }

  /** Neither side has five in a row: `final_state` reports 0. */
  lemma FinalStateNoWinner(g: Grid)
    requires WellFormed(g) && !HasFive(g, 1) && !HasFive(g, 2)
    ensures FinalState(g) == 0
  {
    FinalStateZero(g);
    forall v | v != 0 ensures !HasFive(g, v) {
      HasFiveRange(g, v);
    }
  }

  /** When exactly one side has five in a row, `final_state` names it. */
  lemma FinalStateUnique(g: Grid, v: Side)
    requires WellFormed(g) && HasFive(g, v)
    requires !HasFive(g, 3 - v)
    ensures FinalState(g) == v
  {
    FinalStateZero(g);
    var f := FinalState(g);
    assert f != 0;
    FinalStateSound(g);
    HasFiveRange(g, f);
  }
}
