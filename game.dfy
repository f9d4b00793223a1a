/** The game object: the board, the computer player and the turn
    bookkeeping (whose turn it is, how many turns were played and how
    many of them were the human's). */
module Games {
  import opened Rules
  import opened Boards
  import opened Engine

  // ---------------------------------------------------------------------
  // Turn bookkeeping as a value

  /** The fields `next_turn` reads and writes. */
  datatype Turns = Turns(player: int, turnCount: int, playerMoves: int, humanPiece: int)

  /** `player % 2 + 1`: on the two sides, the other side. */
  function NextPlayer(p: int): (q: int)
    ensures (p == 1 || p == 2) ==> q == 3 - p
    ensures 1 <= q <= 2
  {
    p % 2 + 1
  }

  /** `next_turn`: the turn passes to the other side, one more turn is
      counted, and one more human move when the side that just moved is
      the human's. */
  function AfterTurn(t: Turns): Turns {
    Turns(NextPlayer(t.player), t.turnCount + 1,
          if t.player == t.humanPiece then t.playerMoves + 1 else t.playerMoves,
          t.humanPiece)
  }

  /** The bookkeeping of a new game: side 1 to move, nothing counted,
      the human playing side 1. */
  function NewTurns(): Turns {
    Turns(1, 0, 0, 1)
  }

  /** `n` consecutive calls of `next_turn`. */
  function Play(t: Turns, n: nat): Turns
    decreases n
  {
    if n == 0 then t else Play(AfterTurn(t), n - 1)
  }

  /** The schedule: the sides alternate, every call counts one turn, and
      the human is credited with every other turn, starting with the
      first when the human is to move. */
  lemma {:induction false} PlaySchedule(t: Turns, n: nat)
    requires (t.player == 1 || t.player == 2) && (t.humanPiece == 1 || t.humanPiece == 2)
    ensures Play(t, n).player == if n % 2 == 0 then t.player else 3 - t.player
    ensures Play(t, n).turnCount == t.turnCount + n
    ensures Play(t, n).humanPiece == t.humanPiece
    ensures Play(t, n).playerMoves
         == t.playerMoves + if t.player == t.humanPiece then (n + 1) / 2 else n / 2
    decreases n
  {
    if n > 0 {
      var u := AfterTurn(t);
      PlaySchedule(u, n - 1);
      assert (t.player == t.humanPiece) == (u.player != u.humanPiece);
    }
  }

  /** From a new game the human, playing side `human`, has made
      ceil(n/2) of the first n moves when playing side 1 and floor(n/2)
      when playing side 2; so the human never has made more moves than
      were played. */
  lemma StartSchedule(human: Side, n: nat)
    ensures Play(NewTurns().(humanPiece := human), n).player == if n % 2 == 0 then 1 else 2
    ensures Play(NewTurns().(humanPiece := human), n).turnCount == n
    ensures Play(NewTurns().(humanPiece := human), n).playerMoves == if human == 1 then (n + 1) / 2 else n / 2
    ensures Play(NewTurns().(humanPiece := human), n).playerMoves <= n
  {
    PlaySchedule(NewTurns().(humanPiece := human), n);
  }

  // ---------------------------------------------------------------------
  // The game object

  class Game {
    var board: Board
    var ai: AI
    var player: int
    var gamemode: string
    var running: bool
    var turnCount: int
    var playerMoves: int
    var humanPiece: int

    /** The board is well formed, a side is to move, and the AI plays
        the piece the human does not. */
    ghost predicate Valid()
      reads this, board, board.squares, ai
    {
      && board.Valid() && ai.Valid()
      && (player == 1 || player == 2)
      && ai.opponent == humanPiece
    }

    function TurnState(): Turns
      reads this
    {
      Turns(player, turnCount, playerMoves, humanPiece)
    }

    /** A new game: empty board, AI of level 1 playing side 2, side 1 to
        move, player-versus-player mode. */
    constructor()
      ensures Valid() && fresh(board) && fresh(board.squares) && fresh(ai)
      ensures board.Model() == Initial() && Consistent(board.Model())
      ensures ai.level == 1 && ai.player == 2 && ai.opponent == 1
      ensures TurnState() == NewTurns()
      ensures gamemode == "pvp" && running
    {
      board := new Board();
      ai := new AI(1, 2);
      player := 1;
      gamemode := "pvp";
      running := true;
      turnCount := 0;
      playerMoves := 0;
      humanPiece := 1;
    }

    /** `make_move`: the side to move marks the square, then the turn passes. */
    method MakeMove(row: int, col: int)
      requires Valid() && OnBoard(Sqr(row, col))
      modifies this, board, board.squares
      ensures Valid() && board == old(board) && ai == old(ai)
      ensures board.Model() == Mark(old(board.Model()), Sqr(row, col), old(player))
      ensures TurnState() == AfterTurn(old(TurnState()))
      ensures gamemode == old(gamemode) && running == old(running)
    {
      board.MarkSqr(row, col, player);
      NextTurn();
    }

    /** `next_turn`. */
    method NextTurn()
      requires Valid()
      modifies this
      ensures Valid() && board == old(board) && ai == old(ai)
      ensures TurnState() == AfterTurn(old(TurnState()))
      ensures gamemode == old(gamemode) && running == old(running)
    {
      var current := player;
      player := player % 2 + 1;
      turnCount := turnCount + 1;
      if current == humanPiece {
        playerMoves := playerMoves + 1;
      }
    }

    /** `change_gamemode`. */
    method ChangeGamemode(mode: string)
      modifies this
      ensures gamemode == mode
      ensures board == old(board) && ai == old(ai) && TurnState() == old(TurnState()) && running == old(running)
    {
      gamemode := mode;
    }

    /** `isover`: someone has five in a row, or the mark counter says
        the board is full. */
    method IsOver() returns (over: bool)
      requires Valid()
      ensures over <==> Rules.FinalState(board.cells) != 0 || IsFull(board.Model())
      ensures over <==> (exists w :: InGrid(w) && IsLine(board.cells, w)) || IsFull(board.Model())
    {
      FinalStateNoLine(board.cells);
      var winner := board.FinalState();
      over := winner != 0 || board.IsFull();
    }

    /** `reset`: everything as in a new game, on a new board with a new AI. */
    method Reset()
      modifies this
      ensures Valid() && fresh(board) && fresh(board.squares) && fresh(ai)
      ensures board.Model() == Initial() && Consistent(board.Model())
      ensures ai.level == 1 && ai.player == 2 && ai.opponent == 1
      ensures TurnState() == NewTurns()
      ensures gamemode == "pvp" && running
    {
      board := new Board();
      ai := new AI(1, 2);
      player := 1;
      gamemode := "pvp";
      running := true;
      turnCount := 0;
      playerMoves := 0;
      humanPiece := 1;
    }

    /** `set_player_piece`: the human takes `piece` and the AI the other
        one. */
    method SetPlayerPiece(piece: Side)
      requires Valid()
      modifies this, ai
      ensures Valid() && board == old(board) && ai == old(ai)
      ensures humanPiece == piece
      ensures ai.player == (if piece == 1 then 2 else 1) && ai.opponent == piece
      ensures ai.player != humanPiece
      ensures ai.level == old(ai.level)
      ensures player == old(player) && turnCount == old(turnCount) && playerMoves == old(playerMoves)
      ensures gamemode == old(gamemode) && running == old(running)
    {
      humanPiece := piece;
      ai.player := if piece == 1 then 2 else 1;
      ai.opponent := piece;
    }
  }
}
