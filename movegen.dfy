/** Candidate moves for the search (`get_strategic_moves`): central
    squares early in the game, otherwise the empty squares next to a
    mark, topped up with central and then any empty squares, at most 10. */
module MoveGen {
  import opened Seqs
  import opened Rules

  const MaxMoves := 10
  const FillTarget := 5

  function Offset(sq: Sqr, dr: int, dc: int): Sqr {
    Sqr(sq.row + dr, sq.col + dc)
  }

  /** Some 8-neighbour of `sq` (Chebyshev distance 1) is on the board and occupied. */
  predicate Adjacent(g: Grid, sq: Sqr) {
    exists dr, dc :: -1 <= dr <= 1 && -1 <= dc <= 1 && !(dr == 0 && dc == 0)
                     && IsOccupiedAt(g, Offset(sq, dr, dc))
  }

  function AdjacentTest(g: Grid): Sqr -> bool {
    sq => Adjacent(g, sq)
  }

  /** Central squares that are empty and not already chosen. */
  function FreshTest(empty: seq<Sqr>, taken: seq<Sqr>): Sqr -> bool {
    sq => sq in empty && sq !in taken
  }

  function NotInTest(taken: seq<Sqr>): Sqr -> bool {
    sq => sq !in taken
  }

  /** The empty central squares not in `taken`, in row-major order. */
  function CenterFree(empty: seq<Sqr>, taken: seq<Sqr>): seq<Sqr> {
    Filter(FreshTest(empty, taken), CenterSqrs())
  }

  /** `center_moves[:5]` keeps the first free central squares: a free
      central square before a kept one is kept too. */
  lemma CenterFreeFirst(empty: seq<Sqr>, taken: seq<Sqr>)
    ensures var kept := Take(CenterFree(empty, taken), FillTarget);
      forall x, y :: x in kept && InCenter(y) && y in empty && y !in taken && Key(y) < Key(x) ==> y in kept
  {
    var cs, f := CenterSqrs(), FreshTest(empty, taken);
    var kept := Take(CenterFree(empty, taken), FillTarget);
    CenterSqrsProps();
    forall x, y | x in kept && InCenter(y) && y in empty && y !in taken && Key(y) < Key(x)
      ensures y in kept
    {
      assert x in cs;
      var j :| 0 <= j < |cs| && cs[j] == x;
      var i :| 0 <= i < |cs| && cs[i] == y;
      RowMajorBefore(cs, i, j);
      TakeFilterFirst(f, cs, FillTarget, i, j);
    }
  }

  /** The first top-up: the first (at most 5) empty central squares not
      yet chosen, in row-major order; when fewer than 5 come back, no
      other such square exists. */
  function CenterTopUp(strategic: seq<Sqr>, empty: seq<Sqr>): (extra: seq<Sqr>)
    ensures Distinct(extra) && |extra| <= FillTarget
    ensures forall x :: x in extra ==> x in empty && x !in strategic && InCenter(x)
    ensures RowMajor(extra)
    ensures forall x, y :: x in extra && InCenter(y) && y in empty && y !in strategic && Key(y) < Key(x)
                           ==> y in extra
    ensures |extra| < FillTarget ==>
      forall x :: InCenter(x) && x in empty && x !in strategic ==> x in extra
  {
    CenterSqrsProps();
    CenterFreeFirst(empty, strategic);
    FilterDistinct(FreshTest(empty, strategic), CenterSqrs());
    FilterRowMajor(FreshTest(empty, strategic), CenterSqrs());
    TakeDistinct(CenterFree(empty, strategic), FillTarget);
    TakeRowMajor(CenterFree(empty, strategic), FillTarget);
    Take(CenterFree(empty, strategic), FillTarget)
  }

  /** `remaining[:5]` keeps the first remaining squares: with no repeats
      in `empty`, a remaining square before a kept one is kept too. */
  lemma RemainingFirst(taken: seq<Sqr>, empty: seq<Sqr>)
    ensures var kept := Take(Filter(NotInTest(taken), empty), FillTarget);
      Distinct(empty) ==>
        forall i, j :: 0 <= i < j < |empty| && empty[j] in kept && empty[i] !in taken ==> empty[i] in kept
  {
    var kept := Take(Filter(NotInTest(taken), empty), FillTarget);
    if Distinct(empty) {
      forall i, j | 0 <= i < j < |empty| && empty[j] in kept && empty[i] !in taken
        ensures empty[i] in kept
      {
        TakeFilterFirst(NotInTest(taken), empty, FillTarget, i, j);
      }
    }
  }

  /** The second top-up (`remaining[:5]`): the first (at most 5) empty
      squares not yet chosen, in the order of `empty`. */
  function EmptyTopUp(taken: seq<Sqr>, empty: seq<Sqr>): (extra: seq<Sqr>)
    ensures Distinct(empty) ==> Distinct(extra)
    ensures RowMajor(empty) ==> RowMajor(extra)
    ensures |extra| <= FillTarget
    ensures forall x :: x in extra ==> x in empty && x !in taken
    ensures Distinct(empty) ==>
      forall i, j :: 0 <= i < j < |empty| && empty[j] in extra && empty[i] !in taken ==> empty[i] in extra
    ensures |extra| < FillTarget ==> forall x :: x in empty && x !in taken ==> x in extra
    ensures taken == [] && empty != [] ==> extra != []
  {
    RemainingFirst(taken, empty);
    assert Distinct(empty) ==> Distinct(Take(Filter(NotInTest(taken), empty), FillTarget)) by {
      if Distinct(empty) {
        FilterDistinct(NotInTest(taken), empty);
        TakeDistinct(Filter(NotInTest(taken), empty), FillTarget);
      }
    }
    assert RowMajor(empty) ==> RowMajor(Take(Filter(NotInTest(taken), empty), FillTarget)) by {
      if RowMajor(empty) {
        FilterRowMajor(NotInTest(taken), empty);
        TakeRowMajor(Filter(NotInTest(taken), empty), FillTarget);
      }
    }
    assert taken == [] && empty != [] ==> empty[0] in Filter(NotInTest(taken), empty);
    Take(Filter(NotInTest(taken), empty), FillTarget)
  }

  /** A prefix of a row-major list is row-major. */
  lemma TakeRowMajor(sqs: seq<Sqr>, n: nat)
    requires RowMajor(sqs)
    ensures RowMajor(Take(sqs, n))
  {
    assert forall i :: 0 <= i < |Take(sqs, n)| ==> Take(sqs, n)[i] == sqs[i];
  }

  /** Tops a short adjacency list up with at most 5 central squares and,
      if still short, at most 5 other empty squares. */
  function FillUp(strategic: seq<Sqr>, empty: seq<Sqr>): seq<Sqr> {
    if |strategic| < FillTarget then
      var withCenter := strategic + CenterTopUp(strategic, empty);
      if |withCenter| < FillTarget then
        withCenter + EmptyTopUp(withCenter, empty)
      else withCenter
    else strategic
  }

  /** `get_strategic_moves`. Fewer than 3 marks: the first 5 empty
      central squares (nothing is already taken there). */
  function StrategicMoves(s: State): (moves: seq<Sqr>)
    requires WellFormed(s.squares)
    ensures |moves| <= MaxMoves
    ensures forall m :: m in moves ==> OnBoard(m) && At(s.squares, m) == 0
  {
    var g := s.squares;
    var empty := EmptySqrs(g);
    EmptySqrsSpec(g);
    CenterSqrsProps();
    if s.markedSqrs == 0 || s.markedSqrs < 3 then
      Take(CenterFree(empty, []), FillTarget)
    else
      var adjacent := Filter(AdjacentTest(g), empty);
      FillUpProps(g, adjacent, empty);
      Take(FillUp(adjacent, empty), MaxMoves)
  }

  /** No square is proposed twice. */
  lemma StrategicMovesDistinct(s: State)
    requires WellFormed(s.squares)
    ensures Distinct(StrategicMoves(s))
  {
    var g := s.squares;
    var empty := EmptySqrs(g);
    EmptySqrsSpec(g);
    CenterSqrsProps();
    if s.markedSqrs < 3 {
      FilterDistinct(FreshTest(empty, []), CenterSqrs());
      TakeDistinct(CenterFree(empty, []), FillTarget);
    } else {
      var adjacent := Filter(AdjacentTest(g), empty);
      FillUpProps(g, adjacent, empty);
      TakeDistinct(FillUp(adjacent, empty), MaxMoves);
    }
  }

  /** The two branches of `StrategicMoves`, one equation each. */
  lemma StrategicMovesCases(s: State)
    requires WellFormed(s.squares)
    ensures s.markedSqrs < 3 ==>
      StrategicMoves(s) == Take(CenterFree(EmptySqrs(s.squares), []), FillTarget)
    ensures s.markedSqrs >= 3 ==>
      StrategicMoves(s) == Take(FillUp(Filter(AdjacentTest(s.squares), EmptySqrs(s.squares)), EmptySqrs(s.squares)), MaxMoves)
  {
  }

  /** One top-up step: appending distinct empty squares not already in
      the list. */
  lemma ExtendShape(prefix: seq<Sqr>, extra: seq<Sqr>, empty: seq<Sqr>)
    requires Distinct(prefix) && Distinct(extra)
    requires forall x :: x in extra ==> x in empty && x !in prefix
    ensures Distinct(prefix + extra)
    ensures forall i :: |prefix| <= i < |prefix + extra| ==> (prefix + extra)[i] in extra
  {
    DistinctConcat(prefix, extra);
    forall i | |prefix| <= i < |prefix + extra| ensures (prefix + extra)[i] in extra {
      assert (prefix + extra)[i] == extra[i - |prefix|];
    }
  }

  /** The top-up keeps the list duplicate-free, keeps `strategic` as a
      prefix and adds only empty squares outside `strategic`. */
  lemma FillUpShape(strategic: seq<Sqr>, empty: seq<Sqr>)
    requires Distinct(strategic) && Distinct(empty)
    requires forall x :: x in strategic ==> x in empty
    ensures Distinct(FillUp(strategic, empty))
    ensures strategic <= FillUp(strategic, empty)
    ensures forall i :: |strategic| <= i < |FillUp(strategic, empty)| ==>
      FillUp(strategic, empty)[i] in empty && FillUp(strategic, empty)[i] !in strategic
    ensures forall m :: m in FillUp(strategic, empty) ==> m in empty
    ensures empty != [] ==> FillUp(strategic, empty) != []
  {
    if |strategic| < FillTarget {
      var center := CenterTopUp(strategic, empty);
      ExtendShape(strategic, center, empty);
      var withCenter := strategic + center;
      if |withCenter| < FillTarget {
        var rest := EmptyTopUp(withCenter, empty);
        ExtendShape(withCenter, rest, empty);
        var all := withCenter + rest;
        assert all == strategic + (center + rest);
        forall i | |strategic| <= i < |all|
          ensures all[i] in empty && all[i] !in strategic
        {
          if i < |withCenter| {
            assert all[i] == withCenter[i];
          }
        }
      }
    }
  }

  /** The order of the top-ups: a list of 5 or more is left alone;
      otherwise the central squares added come before every other square
      added; and a result shorter than 5 holds every empty square. */
  lemma FillUpCenterFirst(strategic: seq<Sqr>, empty: seq<Sqr>)
    ensures |strategic| >= FillTarget ==> FillUp(strategic, empty) == strategic
    ensures forall i, j :: |strategic| <= i < j < |FillUp(strategic, empty)| && InCenter(FillUp(strategic, empty)[j])
                           ==> InCenter(FillUp(strategic, empty)[i])
    ensures |FillUp(strategic, empty)| < FillTarget ==> forall x :: x in empty ==> x in FillUp(strategic, empty)
  {
    if |strategic| < FillTarget {
      var center := CenterTopUp(strategic, empty);
      var withCenter := strategic + center;
      if |withCenter| < FillTarget {
        var rest := EmptyTopUp(withCenter, empty);
        var all := withCenter + rest;
        assert FillUp(strategic, empty) == all;
        forall k | |withCenter| <= k < |all| ensures !InCenter(all[k]) {
          var x := all[k];
          assert x == rest[k - |withCenter|];
          assert x in empty && x !in withCenter;
        }
        forall i, j | |strategic| <= i < j < |all| && InCenter(all[j]) ensures InCenter(all[i]) {
          assert j < |withCenter|;
          assert all[i] == center[i - |strategic|];
        }
      } else {
        forall i | |strategic| <= i < |withCenter| ensures InCenter(withCenter[i]) {
          assert withCenter[i] == center[i - |strategic|];
        }
      }
    }
  }

  /** The adjacency list and its top-up, on a real board. */
  lemma FillUpProps(g: Grid, adjacent: seq<Sqr>, empty: seq<Sqr>)
    requires WellFormed(g) && empty == EmptySqrs(g)
    requires adjacent == Filter(AdjacentTest(g), empty)
    ensures Distinct(FillUp(adjacent, empty))
    ensures forall m :: m in FillUp(adjacent, empty) ==> m in empty
    ensures adjacent <= FillUp(adjacent, empty)
    ensures forall i :: |adjacent| <= i < |FillUp(adjacent, empty)| ==> !Adjacent(g, FillUp(adjacent, empty)[i])
    ensures empty != [] ==> FillUp(adjacent, empty) != []
  {
    EmptySqrsSpec(g);
    FilterDistinct(AdjacentTest(g), empty);
    FillUpShape(adjacent, empty);
    var all := FillUp(adjacent, empty);
    forall i | |adjacent| <= i < |all| ensures !Adjacent(g, all[i]) {
      assert all[i] in empty && all[i] !in adjacent;
    }
  }

  /** The opening branch (fewer than 3 marks): the first (at most 5)
      empty central squares in row-major order, and every one of them
      when fewer than 5 come back. */
  lemma StrategicMovesOpening(s: State)
    requires WellFormed(s.squares) && s.markedSqrs < 3
    ensures |StrategicMoves(s)| <= FillTarget && RowMajor(StrategicMoves(s))
    ensures forall m :: m in StrategicMoves(s) ==> InCenter(m)
    ensures forall x, y :: x in StrategicMoves(s) && InCenter(y) && At(s.squares, y) == 0 && Key(y) < Key(x)
                           ==> y in StrategicMoves(s)
    ensures |StrategicMoves(s)| < FillTarget ==>
      forall y :: InCenter(y) && At(s.squares, y) == 0 ==> y in StrategicMoves(s)
  {
    var empty := EmptySqrs(s.squares);
    EmptySqrsSpec(s.squares);
    assert StrategicMoves(s) == CenterTopUp([], empty);
  }

  /** What `get_strategic_moves` promises: at most 10 distinct empty
      squares; with fewer than 3 marks the first (at most 5) empty
      central squares in row-major order, all of them when fewer than 5
      come back; otherwise the adjacent squares come first, in row-major
      order, and every later one is not adjacent. */
  lemma StrategicMovesSpec(s: State)
    requires WellFormed(s.squares)
    ensures s.markedSqrs < 3 ==>
      |StrategicMoves(s)| <= FillTarget && RowMajor(StrategicMoves(s))
      && forall m :: m in StrategicMoves(s) ==> InCenter(m)
    ensures s.markedSqrs < 3 ==>
      forall x, y :: x in StrategicMoves(s) && InCenter(y) && At(s.squares, y) == 0 && Key(y) < Key(x)
                     ==> y in StrategicMoves(s)
    ensures s.markedSqrs < 3 && |StrategicMoves(s)| < FillTarget ==>
      forall y :: InCenter(y) && At(s.squares, y) == 0 ==> y in StrategicMoves(s)
    ensures s.markedSqrs >= 3 ==>
      var adjacent := Filter(AdjacentTest(s.squares), EmptySqrs(s.squares));
      && Take(adjacent, MaxMoves) <= StrategicMoves(s)
      && forall i :: |adjacent| <= i < |StrategicMoves(s)| ==> !Adjacent(s.squares, StrategicMoves(s)[i])
  {
    var g := s.squares;
    var empty := EmptySqrs(g);
    CenterSqrsProps();
    if s.markedSqrs < 3 {
      StrategicMovesOpening(s);
    } else {
      var adjacent := Filter(AdjacentTest(g), empty);
      FillUpProps(g, adjacent, empty);
      var all := FillUp(adjacent, empty);
      forall i | |adjacent| <= i < |StrategicMoves(s)| ensures !Adjacent(g, StrategicMoves(s)[i]) {
        assert StrategicMoves(s)[i] == all[i];
      }
    }
  }

  /** Past the opening: with 5 or more adjacent squares the candidates
      are the first 10 of them and nothing is topped up; after the
      adjacent squares, central squares come before all other squares;
      and fewer than 5 candidates means every empty square is one. */
  lemma StrategicMovesTopUp(s: State)
    requires WellFormed(s.squares) && s.markedSqrs >= 3
    ensures var adjacent := Filter(AdjacentTest(s.squares), EmptySqrs(s.squares));
      |adjacent| >= FillTarget ==> StrategicMoves(s) == Take(adjacent, MaxMoves)
    ensures var adjacent := Filter(AdjacentTest(s.squares), EmptySqrs(s.squares));
      forall i, j :: |adjacent| <= i < j < |StrategicMoves(s)| && InCenter(StrategicMoves(s)[j])
                     ==> InCenter(StrategicMoves(s)[i])
    ensures |StrategicMoves(s)| < FillTarget ==>
      forall sq :: OnBoard(sq) && At(s.squares, sq) == 0 ==> sq in StrategicMoves(s)
  {
    var g := s.squares;
    var empty := EmptySqrs(g);
    var adjacent := Filter(AdjacentTest(g), empty);
    var all := FillUp(adjacent, empty);
    var moves := StrategicMoves(s);
    StrategicMovesCases(s);
    EmptySqrsSpec(g);
    FillUpCenterFirst(adjacent, empty);
    assert forall i :: 0 <= i < |moves| ==> moves[i] == all[i];
    if |moves| < FillTarget {
      assert moves == all;
    }
  }

  /** On a board whose counter agrees with its cells, there is always a
      candidate while an empty square remains. */
  lemma StrategicMovesNonEmpty(s: State)
    requires Consistent(s) && EmptySqrs(s.squares) != []
    ensures StrategicMoves(s) != []
  {
    var g := s.squares;
    var empty := EmptySqrs(g);
    if s.markedSqrs < 3 {
      CenterHasRoom(s);
    } else {
      FillUpProps(g, Filter(AdjacentTest(g), empty), empty);
    }
  }

  /** If no central square is free, all 16 are occupied. */
  lemma CenterAllOccupied(g: Grid)
    requires WellFormed(g) && CenterFree(EmptySqrs(g), []) == []
    ensures forall x :: x in CenterSqrs() ==> x in Filter(OccupiedTest(g), AllSqrs())
  {
    var empty := EmptySqrs(g);
    EmptySqrsSpec(g);
    CenterSqrsProps();
    AllSqrsProps();
    forall x | x in CenterSqrs() ensures x in Filter(OccupiedTest(g), AllSqrs()) {
      assert x !in CenterFree(empty, []);
      assert x !in empty;
      assert OnBoard(x) && At(g, x) != 0;
      assert x in AllSqrs() && OccupiedTest(g)(x);
    }
  }

  /** Fewer than 3 marks cannot fill the 16 central squares. */
  lemma CenterHasRoom(s: State)
    requires Consistent(s) && s.markedSqrs < 3
    ensures CenterFree(EmptySqrs(s.squares), []) != []
  {
    var g := s.squares;
    var occupied := Filter(OccupiedTest(g), AllSqrs());
    if CenterFree(EmptySqrs(g), []) == [] {
      CenterAllOccupied(g);
      CenterSqrsProps();
      AllSqrsProps();
      RowMajorDistinct(AllSqrs());
      FilterDistinct(OccupiedTest(g), AllSqrs());
      DistinctSubsetLength(CenterSqrs(), occupied);
    }
  }
}
