/**
  The early JavaScript board of the documentation site (docs/external_files/reversi00.js):
  a click on an empty cell drops a disc of the current colour there and hands the turn over,
  with no capture rule at all.
*/
module ToyReversiJs {
  import opened Rays
  import opened Stones
  import OthelloJs

  /** Turn and disc counts agree: equal counts with black to move, one black disc more with white to move. */
  predicate Balanced(s: seq<Cell>, turn: Color)
  {
    var b, w := multiset(s)[Disc(Black)], multiset(s)[Disc(White)];
    if turn == Black then b == w else b == w + 1
  }

  /** The opening position with black to move is balanced. */
  lemma InitialBalanced()
    ensures Balanced(InitialBoard(), Black)
  {
    InitialCounts();
  }

  /**
    Dropping a disc of the current colour on an empty cell adds exactly one disc of that colour
    and keeps the board balanced once the turn passes.
  */
  lemma DropKeepsBalance(s: seq<Cell>, p: Pos, turn: Color)
    requires IsBoard(s) && Inside(p) && s[Idx(p)] == Empty && Balanced(s, turn)
    ensures var s' := s[Idx(p) := Disc(turn)];
      multiset(s')[Disc(turn)] == multiset(s)[Disc(turn)] + 1 &&
      multiset(s')[Disc(Opponent(turn))] == multiset(s)[Disc(Opponent(turn))] &&
      multiset(s')[Empty] == multiset(s)[Empty] - 1 &&
      Balanced(s', Opponent(turn))
  {
    assert multiset(s[Idx(p) := Disc(turn)]) == multiset(s) - multiset{Empty} + multiset{Disc(turn)};
  }

  /** Unlike the engine, this board accepts a disc where no capture is possible: the corner in the opening. */
  lemma AcceptsIllegalMove()
    ensures InitialBoard()[Idx((0, 0))] == Empty && !OthelloJs.Legal(InitialBoard(), 0, 0, Black)
  {
    OthelloJs.OpeningExamples();
  }

  class ToyBoard {
    /** The 64 cells, row-major. */
    var board: array<Cell>
    var currentTurn: Color

    ghost predicate Valid()
      reads this
    {
      board.Length == 64
    }

    /** Loading the script: black to move, then `initBoard()`. */
    constructor ()
      ensures Valid() && board[..] == InitialBoard() && currentTurn == Black
    {
      var b := new Cell[64](_ => Empty);
      b[27], b[28], b[35], b[36] := Disc(White), Disc(Black), Disc(Black), Disc(White);
      board := b;
      currentTurn := Black;
      assert b[..] == InitialBoard();
    }

    /** `initBoard()`: the opening position; the turn is left as it was. */
    method InitBoard()
      modifies this
      ensures Valid() && fresh(board) && board[..] == InitialBoard() && currentTurn == old(currentTurn)
    {
      var b := new Cell[64](_ => Empty);
      b[27], b[28], b[35], b[36] := Disc(White), Disc(Black), Disc(Black), Disc(White);
      board := b;
      assert b[..] == InitialBoard();
    }

    /**
      `onCellClick` on a rendered cell: an occupied cell changes nothing; on an empty cell the
      current colour is placed and the turn passes to the other colour.
    */
    method OnCellClick(row: int, col: int)
      requires Valid() && Inside((row, col))
      modifies this, board
      ensures Valid() && board == old(board)
      ensures old(board[Idx((row, col))]) != Empty ==> board[..] == old(board[..]) && currentTurn == old(currentTurn)
      ensures old(board[Idx((row, col))]) == Empty ==>
        board[..] == old(board[..])[Idx((row, col)) := Disc(old(currentTurn))] &&
        currentTurn == Opponent(old(currentTurn))
    {
      if board[Idx((row, col))] != Empty {
        return;
      }
      board[Idx((row, col))] := Disc(currentTurn);
      currentTurn := Opponent(currentTurn);
    }
  }
}
