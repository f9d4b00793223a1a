/** The mutable board of the game: a 10x10 array of cells and a mark
    counter, updated in place. Every query is proved equal to its
    counterpart on board values in `Rules`. */
module Boards {
  import opened Seqs
  import opened Rules

  class Board {
    var squares: array2<int>
    var markedSqrs: int
    /** The cells as a value; always equal to the contents of `squares`. */
    ghost var cells: Grid

    ghost predicate Valid()
      reads this, squares
    {
      && squares.Length0 == Size && squares.Length1 == Size
      && WellFormed(cells)
      && forall r, c :: 0 <= r < Size && 0 <= c < Size ==> squares[r, c] == cells[r][c]
    }

    /** The board as a value. */
    ghost function Model(): State
      reads this
    {
      State(cells, markedSqrs)
    }

    /** A board with every cell empty and no mark counted. */
    constructor()
      ensures Valid() && fresh(squares)
      ensures Model() == Initial() && Consistent(Model())
    {
      squares := new int[Size, Size]((r, c) => 0);
      markedSqrs := 0;
      cells := Initial().squares;
      InitialConsistent();
    }

    /** `mark_sqr`: writes `player` into one cell and counts one more mark. */
    method MarkSqr(row: int, col: int, player: int)
      requires Valid() && OnBoard(Sqr(row, col)) && 0 <= player <= 2
      modifies this, squares
      ensures Valid() && squares == old(squares)
      ensures Model() == Mark(old(Model()), Sqr(row, col), player)
    {
      squares[row, col] := player;
      markedSqrs := markedSqrs + 1;
      cells := cells[row := cells[row][col := player]];
    }

    /** `empty_sqr`. */
    function EmptySqr(row: int, col: int): (empty: bool)
      reads this, squares
      requires Valid() && OnBoard(Sqr(row, col))
      ensures empty <==> At(cells, Sqr(row, col)) == 0
      ensures empty <==> Sqr(row, col) in EmptySqrs(cells)
    {
      EmptySqrsSpec(cells);
      squares[row, col] == 0
    }

    /** `isfull`: the counter reads 100. While the counter agrees with
        the cells, that is exactly when no cell is empty. */
    function IsFull(): (full: bool)
      reads this, squares
      requires Valid()
      ensures full <==> markedSqrs == Size * Size
      ensures Consistent(Model()) ==> (full <==> forall sq :: OnBoard(sq) ==> At(cells, sq) != 0)
    {
      assert Consistent(Model()) ==> (markedSqrs == Size * Size <==> forall sq :: OnBoard(sq) ==> At(cells, sq) != 0) by {
        if Consistent(Model()) {
          FullIffNoEmpty(Model());
        }
      }
      markedSqrs == Size * Size
    }

    /** `isempty`: the counter reads 0. While the counter agrees with
        the cells, that is exactly when every cell is empty. */
    function IsEmpty(): (none: bool)
      reads this, squares
      requires Valid()
      ensures none <==> markedSqrs == 0
      ensures Consistent(Model()) ==> (none <==> forall sq :: OnBoard(sq) ==> At(cells, sq) == 0)
    {
      assert Consistent(Model()) ==> (markedSqrs == 0 <==> forall sq :: OnBoard(sq) ==> At(cells, sq) == 0) by {
        if Consistent(Model()) {
          EmptyIffNoMarks(Model());
        }
      }
      markedSqrs == 0
    }

    /** `get_empty_sqrs`: the empty cells, row by row, each row from
        column 0. */
    method GetEmptySqrs() returns (empty: seq<Sqr>)
      requires Valid()
      ensures empty == EmptySqrs(cells)
      ensures forall sq :: sq in empty <==> OnBoard(sq) && At(cells, sq) == 0
      ensures RowMajor(empty) && Distinct(empty)
    {
      empty := [];
      for row := 0 to Size
        invariant empty == Filter(EmptyTest(cells), AllSqrs()[..row * Size])
      {
        var inRow := EmptyInRow(row);
        AllSqrsRows(row);
        FilterConcat(EmptyTest(cells), AllSqrs()[..row * Size], RowSqrs(row));
        empty := empty + inRow;
      }
      assert AllSqrs()[..Size * Size] == AllSqrs();
      EmptySqrsSpec(cells);
    }

    /** The inner loop of `get_empty_sqrs`: the empty cells of one row,
        from column 0. */
    method EmptyInRow(row: int) returns (empty: seq<Sqr>)
      requires Valid() && 0 <= row < Size
      ensures empty == Filter(EmptyTest(cells), RowSqrs(row))
    {
      ghost var rowSqrs := RowSqrs(row);
      empty := [];
      for col := 0 to Size
        invariant empty == Filter(EmptyTest(cells), rowSqrs[..col])
      {
        FilterPrefixStep(EmptyTest(cells), rowSqrs, col);
        if EmptySqr(row, col) {
          empty := empty + [Sqr(row, col)];
        }
      }
      assert rowSqrs[..Size] == rowSqrs;
    }

    /** The five cells of a window, read from the array. */
    function LineAt(w: Window): (line: seq<int>)
      reads this, squares
      requires Valid() && InGrid(w)
      ensures line == Line(cells, w)
    {
      InGridIffFits(w);
      var c0, c1, c2, c3, c4 := CellOf(w, 0), CellOf(w, 1), CellOf(w, 2), CellOf(w, 3), CellOf(w, 4);
      [squares[c0.row, c0.col], squares[c1.row, c1.col], squares[c2.row, c2.col],
       squares[c3.row, c3.col], squares[c4.row, c4.col]]
    }

    /** The test of `final_state`: all five cells equal the first, which
        is not empty. */
    predicate Complete(w: Window)
      reads this, squares
      requires Valid() && InGrid(w)
    {
      var line := LineAt(w);
      (forall i | 0 <= i < WinLength :: line[i] == line[0]) && line[0] != 0
    }

    lemma CompleteIsLine(w: Window)
      requires Valid() && InGrid(w)
      ensures Complete(w) <==> IsLine(cells, w)
    {
      var line := LineAt(w);
      if IsLine(cells, w) {
        assert forall i | 0 <= i < WinLength :: line[i] == line[0];
      }
    }

    /** One direction of `final_state`: the owner of the first complete
        window in scan order, or 0. */
    method ScanDirection(d: Dir) returns (winner: int)
      requires Valid()
      ensures winner == FirstOwner(cells, Scan(d))
    {
      for outer := OuterLo(d) to OuterLo(d) + OuterCount(d)
        invariant FirstOwner(cells, Scan(d)[..(outer - OuterLo(d)) * 6]) == 0
      {
        var row := RowWindows(d, outer);
        winner := ScanWindows(row);
        ScanRow(d, outer);
        FirstOwnerConcat(cells, Scan(d)[..(outer - OuterLo(d)) * 6], row);
        FirstOwnerPrefix(cells, Scan(d), (outer + 1 - OuterLo(d)) * 6);
        if winner != 0 {
          return winner;
        }
      }
      FirstOwnerPrefix(cells, Scan(d), |Scan(d)|);
      return 0;
    }

    /** The inner loop of one direction: stops at the first complete
        window and returns the piece in its first cell. */
    method ScanWindows(ws: seq<Window>) returns (winner: int)
      requires Valid() && forall w :: w in ws ==> InGrid(w)
      ensures winner == FirstOwner(cells, ws)
    {
      for i := 0 to |ws|
        invariant forall j :: 0 <= j < i ==> !IsLine(cells, ws[j])
      {
        var w := ws[i];
        CompleteIsLine(w);
        if Complete(w) {
          FirstOwnerSkip(cells, ws, i);
          return squares[w.row, w.col];
        }
      }
      FirstOwnerSkip(cells, ws, |ws|);
      return 0;
    }

    /** `final_state` without drawing: the side owning the first run of
        five met scanning vertical, horizontal, descending and ascending
        windows, or 0. */
    method FinalState() returns (winner: int)
      requires Valid()
      ensures winner == Rules.FinalState(cells)
      ensures winner != 0 ==> HasFive(cells, winner)
      ensures winner == 0 <==> forall w :: InGrid(w) ==> !IsLine(cells, w)
    {
      ghost var v, h, de, a := Scan(Vertical), Scan(Horizontal), Scan(Descending), Scan(Ascending);
      FirstOwnerConcat(cells, v, h);
      FirstOwnerConcat(cells, v + h, de);
      FirstOwnerConcat(cells, v + h + de, a);
      FinalStateNoLine(cells);
      winner := ScanDirection(Vertical);
      if winner == 0 {
        winner := ScanDirection(Horizontal);
        if winner == 0 {
          winner := ScanDirection(Descending);
          if winner == 0 {
            winner := ScanDirection(Ascending);
          }
        }
      }
      if winner != 0 {
        FinalStateSound(cells);
      }
    }

    /** `copy.deepcopy(board)`: a new board, sharing no array, with the
        same cells and counter. */
    method Copy() returns (b: Board)
      requires Valid()
      ensures fresh(b) && fresh(b.squares)
      ensures b.Valid() && b.Model() == Model()
    {
      b := new Board();
      var src := squares;
      var copy := new int[Size, Size]((r, c) reads src
                                             requires 0 <= r < src.Length0 && 0 <= c < src.Length1
                                             => src[r, c]);
      b.squares := copy;
      b.markedSqrs := markedSqrs;
      b.cells := cells;
    }
  }
}
