/**
  The noughts-and-crosses page (tic_tac_toe00.py): a nine-cell board, the eight winning lines,
  the verdict function and the session state that a click and a reset update.
*/
module TicTacToe {
  import opened Wrappers

  /** A cell: '' (blank), 'X' or 'O'. */
  datatype Mark = Blank | X | O

  /** What `check_winner` reports when the game is decided: a mark that owns a line, or 'Draw'. */
  datatype Outcome = Win(player: Mark) | Draw

  /** The three cell indices of a line. */
  datatype Line = Line(a: int, b: int, c: int)

  /** `WINNING_LINES`: three rows, three columns, two diagonals. */
  const Lines: seq<Line> := [Line(0, 1, 2), Line(3, 4, 5), Line(6, 7, 8),
                             Line(0, 3, 6), Line(1, 4, 7), Line(2, 5, 8),
                             Line(0, 4, 8), Line(2, 4, 6)]

  predicate OnBoard(l: Line)
  {
    0 <= l.a < 9 && 0 <= l.b < 9 && 0 <= l.c < 9
  }

  /** Every winning line names three distinct cells of the board. */
  lemma LinesValid()
    ensures |Lines| == 8
    ensures forall i :: 0 <= i < |Lines| ==> OnBoard(Lines[i])
    ensures forall i :: 0 <= i < |Lines| ==> Lines[i].a != Lines[i].b && Lines[i].b != Lines[i].c && Lines[i].a != Lines[i].c
  {
  }

  /** The three cells of line l hold the same non-blank mark. */
  predicate Owned(b: seq<Mark>, l: Line)
    requires |b| == 9 && OnBoard(l)
  {
    b[l.a] == b[l.b] == b[l.c] && b[l.a] != Blank
  }

  /** The scan of `check_winner` from line k on: the owner of the first owned line. */
  function FirstOwner(b: seq<Mark>, k: nat): Option<Mark>
    requires |b| == 9 && k <= |Lines|
    decreases |Lines| - k
  {
    LinesValid();
    if k == |Lines| then None
    else if Owned(b, Lines[k]) then Some(b[Lines[k].a])
    else FirstOwner(b, k + 1)
  }

  /** `check_winner(board)`: the owner of the first owned line, else 'Draw' on a full board, else None. */
  function CheckWinner(b: seq<Mark>): Option<Outcome>
    requires |b| == 9
  {
    match FirstOwner(b, 0)
    case Some(m) => Some(Win(m))
    case None => if Blank !in b then Some(Draw) else None
  }

  /** Line i is owned and no line before it (from k on) is. */
  predicate FirstOwned(b: seq<Mark>, k: int, i: int)
    requires |b| == 9
  {
    LinesValid();
    0 <= k <= i < |Lines| && Owned(b, Lines[i]) && forall j :: k <= j < i ==> !Owned(b, Lines[j])
  }

  /** The scan finds the first owned line at or after k, and nothing iff there is none. */
  lemma {:induction false} FirstOwnerSpec(b: seq<Mark>, k: nat)
    requires |b| == 9 && k <= |Lines|
    ensures FirstOwner(b, k).None? <==> forall j :: k <= j < |Lines| ==> !Owned(b, Lines[j])
    ensures FirstOwner(b, k).Some? ==> exists i :: FirstOwned(b, k, i) && FirstOwner(b, k).value == b[Lines[i].a]
    decreases |Lines| - k
  {
    LinesValid();
    if k < |Lines| && !Owned(b, Lines[k]) {
      FirstOwnerSpec(b, k + 1);
      if FirstOwner(b, k).Some? {
        var i :| FirstOwned(b, k + 1, i) && FirstOwner(b, k).value == b[Lines[i].a];
        assert FirstOwned(b, k, i);
      }
    } else if k < |Lines| {
      assert FirstOwned(b, k, k);
    }
  }

  /** At most one line is the first owned one. */
  lemma FirstOwnedUnique(b: seq<Mark>, i: int, j: int)
    requires |b| == 9 && FirstOwned(b, 0, i) && FirstOwned(b, 0, j)
    ensures i == j
  {
  }

  /**
    The three answers of `check_winner`: the mark of the first owned line; 'Draw' only when no line
    is owned and no cell is blank; None exactly when no line is owned and some cell is blank.
  */
  lemma CheckWinnerCases(b: seq<Mark>, m: Mark)
    requires |b| == 9
    ensures
      CheckWinner(b) == Some(Win(m)) <==> exists i :: FirstOwned(b, 0, i) && b[Lines[i].a] == m
    ensures
      CheckWinner(b) == Some(Draw) <==> (forall j :: 0 <= j < |Lines| ==> !Owned(b, Lines[j])) && Blank !in b
    ensures
      CheckWinner(b) == None <==> (forall j :: 0 <= j < |Lines| ==> !Owned(b, Lines[j])) && Blank in b
    ensures CheckWinner(b) == Some(Win(m)) ==> m != Blank
  {
    LinesValid();
    FirstOwnerSpec(b, 0);
    if exists i :: FirstOwned(b, 0, i) && b[Lines[i].a] == m {
      var i :| FirstOwned(b, 0, i) && b[Lines[i].a] == m;
      var i' :| FirstOwned(b, 0, i') && FirstOwner(b, 0).value == b[Lines[i'].a];
      FirstOwnedUnique(b, i, i');
    }
  }

  /** The mover after X is O and after O is X: `'O' if current_player == 'X' else 'X'`. */
  function Other(p: Mark): (q: Mark)
    requires p != Blank
    ensures q != Blank && q != p
  {
    if p == X then O else X
  }

  /**
    The consistency of the session state: `winner` is the verdict of the board, the game is over
    iff there is one, and the marks alternate from X: while the game runs, the mover has placed as
    many marks as the other player; once it is over, the last mover is still current.
  */
  predicate Consistent(b: seq<Mark>, current: Mark, over: bool, winner: Option<Outcome>)
  {
    |b| == 9 && (current == X || current == O) &&
    winner == CheckWinner(b) && over == winner.Some? &&
    var nx, no := multiset(b)[X], multiset(b)[O];
    if over then (current == X && nx == no + 1) || (current == O && nx == no)
    else (current == X && nx == no) || (current == O && nx == no + 1)
  }

  /** In a consistent session X has placed as many marks as O, or one more. */
  lemma ConsistentBalanced(b: seq<Mark>, current: Mark, over: bool, winner: Option<Outcome>)
    requires Consistent(b, current, over, winner)
    ensures multiset(b)[X] == multiset(b)[O] || multiset(b)[X] == multiset(b)[O] + 1
  {
  }

  /** A fresh game (nine blanks, X to move, running, no winner) is consistent. */
  lemma FreshConsistent()
    ensures Consistent(seq(9, _ => Blank), X, false, None)
  {
    var b := seq(9, _ => Blank);
    assert forall i :: 0 <= i < 9 ==> b[i] == Blank;
    assert X !in b && O !in b;
    assert forall q :: 0 <= q < 9 ==> FirstOwner(b, q) == FirstOwner(b, 8) by {
      forall q | 0 <= q < 9 {
        FirstOwnerSpec(b, q);
      }
    }
  }

  /** A click on a blank cell of a running consistent game leads to a consistent session. */
  lemma ClickConsistent(b: seq<Mark>, current: Mark, i: int)
    requires Consistent(b, current, false, None) && 0 <= i < 9 && b[i] == Blank
    ensures var b' := b[i := current];
      var w := CheckWinner(b');
      Consistent(b', if w.Some? then current else Other(current), w.Some?, w)
  {
    var b' := b[i := current];
    assert multiset(b') == multiset(b) - multiset{Blank} + multiset{current};
  }

  /** `st.session_state` as far as the game uses it. */
  class Session {
    var board: array<Mark>
    var currentPlayer: Mark
    var gameOver: bool
    var winner: Option<Outcome>

    ghost predicate Valid()
      reads this, board
    {
      board.Length == 9 && Consistent(board[..], currentPlayer, gameOver, winner)
    }

    /** The first run of the script: `initialize_game()` with no board in the session yet. */
    constructor ()
      ensures Valid() && fresh(board)
      ensures board[..] == seq(9, _ => Blank) && currentPlayer == X && !gameOver && winner == None
    {
      var b := new Mark[9](_ => Blank);
      assert b[..] == seq(9, _ => Blank);
      board := b;
      currentPlayer := X;
      gameOver := false;
      winner := None;
      FreshConsistent();
    }

    /**
      `initialize_game()` on a later run or from the reset button: the game is reset only when it
      is over; a running game is left as it is.
    */
    method InitializeGame()
      requires Valid()
      modifies this
      ensures Valid()
      ensures old(gameOver) ==> fresh(board) && board[..] == seq(9, _ => Blank) && currentPlayer == X && !gameOver && winner == None
      ensures !old(gameOver) ==> board == old(board) && currentPlayer == old(currentPlayer) && gameOver == old(gameOver) && winner == old(winner)
    {
      if gameOver {
        board := new Mark[9](_ => Blank);
        assert board[..] == seq(9, _ => Blank);
        currentPlayer := X;
        gameOver := false;
        winner := None;
        FreshConsistent();
      }
    }

    /**
      `handle_click(index)`: ignored when the game is over or the cell is marked; otherwise the
      current player's mark is written, the verdict recorded, and the player switched only when
      there is no verdict yet.
    */
    method HandleClick(index: int)
      requires Valid() && 0 <= index < 9
      modifies this, board
      ensures Valid() && board == old(board)
      ensures old(gameOver) || old(board[index]) != Blank ==>
        board[..] == old(board[..]) && currentPlayer == old(currentPlayer) && gameOver == old(gameOver) && winner == old(winner)
      ensures !old(gameOver) && old(board[index]) == Blank ==>
        board[..] == old(board[..])[index := old(currentPlayer)] &&
        winner == CheckWinner(board[..]) && gameOver == winner.Some? &&
        currentPlayer == if winner.Some? then old(currentPlayer) else Other(old(currentPlayer))
    {
      if gameOver || board[index] != Blank {
        return;
      }
      ClickConsistent(board[..], currentPlayer, index);
      board[index] := currentPlayer;
      var w := CheckWinner(board[..]);
      if w.Some? {
        winner := w;
        gameOver := true;
      } else {
        currentPlayer := Other(currentPlayer);
      }
    }
  }
}
