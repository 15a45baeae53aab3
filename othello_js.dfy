/**
  The stand-alone JavaScript Othello engine (external_files/reversi00.js): legal moves,
  flips, passing, end of game and the score. The page's board is a field updated in place.
*/
module OthelloJs {
  import opened Wrappers
  import opened Rays
  import opened Stones

  /** The eight directions in the order the engine walks them. */
  const Dirs: seq<Pos> := [(1, 0), (-1, 0), (0, 1), (0, -1), (1, 1), (1, -1), (-1, 1), (-1, -1)]

  lemma DirsValid()
    ensures AllDirs(Dirs) && NoDup(Dirs)
    ensures forall d :: IsDir(d) <==> d in Dirs
  {
  }

  predicate InBoard(r: int, c: int)
  {
    Inside((r, c))
  }

  /** The cells a move by `color` at (r, c) would flip; empty off the board and on an occupied cell. */
  function Flips(s: seq<Cell>, r: int, c: int, color: Color): seq<Pos>
    requires IsBoard(s)
  {
    if !InBoard(r, c) || s[Idx((r, c))] != Empty then []
    else
      DirsValid();
      AllCaptured(s, (r, c), Dirs, Disc(color), Disc(Opponent(color)))
  }

  /** A move is legal iff it flips something. */
  predicate Legal(s: seq<Cell>, r: int, c: int, color: Color)
    requires IsBoard(s)
  {
    |Flips(s, r, c, color)| > 0
  }

  ghost predicate HasMove(s: seq<Cell>, color: Color)
    requires IsBoard(s)
  {
    exists r, c :: InBoard(r, c) && Legal(s, r, c, color)
  }

  /** The board after a legal move: the target and every flipped cell take the mover's colour. */
  function Played(s: seq<Cell>, r: int, c: int, color: Color): seq<Cell>
    requires IsBoard(s) && InBoard(r, c)
  {
    DirsValid();
    PlaceAll(s, (r, c), Dirs, Disc(color), Disc(Opponent(color)))
  }

  /** The winner announced at the end of the game. */
  datatype Outcome = BlackWins | WhiteWins | Draw

  /**
    A cell is flipped iff the target is an empty board cell and the cell lies on a ray from
    the target made of opponent discs and closed by a disc of the mover.
  */
  lemma FlipsExactly(s: seq<Cell>, r: int, c: int, color: Color, q: Pos)
    requires IsBoard(s)
    ensures q in Flips(s, r, c, color) <==>
      InBoard(r, c) && s[Idx((r, c))] == Empty &&
      exists i :: 0 <= i < |Dirs| && InClosedRun(s, (r, c), Dirs[i], Disc(color), Disc(Opponent(color)), q)
  {
    DirsValid();
    if InBoard(r, c) && s[Idx((r, c))] == Empty {
      AllCapturedIffClosedRun(s, (r, c), Dirs, Disc(color), Disc(Opponent(color)), q);
    }
  }

  /** A move is legal iff the target is an empty board cell and some direction brackets opponent discs. */
  lemma LegalIffBrackets(s: seq<Cell>, r: int, c: int, color: Color)
    requires IsBoard(s)
    ensures Legal(s, r, c, color) <==>
      InBoard(r, c) && s[Idx((r, c))] == Empty &&
      exists i :: 0 <= i < |Dirs| && Brackets(s, (r, c), Dirs[i], Disc(color), Disc(Opponent(color)))
  {
    DirsValid();
    if InBoard(r, c) && s[Idx((r, c))] == Empty {
      var mine, opp := Disc(color), Disc(Opponent(color));
      AllCapturedNonEmpty(s, (r, c), Dirs, mine, opp);
      forall i | 0 <= i < |Dirs|
        ensures |Captured(s, (r, c), Dirs[i], mine, opp)| > 0 <==> Brackets(s, (r, c), Dirs[i], mine, opp)
      {
        CapturedIffBrackets(s, (r, c), Dirs[i], mine, opp);
      }
    }
  }

  /**
    A legal move changes only the target and the flipped cells, which all take the mover's
    colour, and no cell is flipped twice: the mover gains |flips|+1 discs, the opponent loses |flips|.
  */
  lemma PlayedEffect(s: seq<Cell>, r: int, c: int, color: Color)
    requires IsBoard(s) && Legal(s, r, c, color)
    ensures var after := Played(s, r, c, color);
      var flips := Flips(s, r, c, color);
      IsBoard(after) && NoDup(flips) &&
      (forall q :: Inside(q) ==> after[Idx(q)] == if q == (r, c) || q in flips then Disc(color) else s[Idx(q)]) &&
      multiset(after)[Disc(color)] == multiset(s)[Disc(color)] + |flips| + 1 &&
      multiset(after)[Disc(Opponent(color))] == multiset(s)[Disc(Opponent(color))] - |flips|
  {
    DirsValid();
    PlaceAllEffect(s, (r, c), Dirs, Disc(color), Disc(Opponent(color)));
    AllCapturedNoDup(s, (r, c), Dirs, Disc(color), Disc(Opponent(color)));
  }

  /** From (2,3) on the opening position only the downward direction captures, and it captures (3,3). */
  lemma OpeningCapture(i: nat)
    requires i < |Dirs|
    ensures Captured(InitialBoard(), (2, 3), Dirs[i], Disc(Black), Disc(White)) == if i == 0 then [(3, 3)] else []
  {
    var s := InitialBoard();
    assert s[27] == Disc(White) && s[35] == Disc(Black) && s[28] == Disc(Black);
    assert s[11] == Empty && s[20] == Empty && s[18] == Empty && s[26] == Empty && s[12] == Empty && s[10] == Empty;
  }

  /** On the opening position black may play (2,3), flipping (3,3), but not the corner (0,0). */
  lemma OpeningExamples()
    ensures Flips(InitialBoard(), 2, 3, Black) == [(3, 3)]
    ensures !Legal(InitialBoard(), 0, 0, Black)
  {
    OpeningMove();
    OpeningCornerIllegal();
  }

  lemma OpeningMove()
    ensures Flips(InitialBoard(), 2, 3, Black) == [(3, 3)]
  {
    DirsValid();
    OpeningPrefix(|Dirs|);
    assert Dirs[..|Dirs|] == Dirs;
  }

  /** The captures of (2,3) over the first k directions are just (3,3). */
  lemma {:induction false} OpeningPrefix(k: nat)
    requires 1 <= k <= |Dirs|
    ensures AllDirs(Dirs[..k])
    ensures AllCaptured(InitialBoard(), (2, 3), Dirs[..k], Disc(Black), Disc(White)) == [(3, 3)]
  {
    DirsValid();
    AllCapturedStep(InitialBoard(), (2, 3), Dirs, k - 1, Disc(Black), Disc(White));
    OpeningCapture(k - 1);
    if k == 1 {
      assert Dirs[..0] == [];
    } else {
      OpeningPrefix(k - 1);
    }
  }

  lemma OpeningCornerIllegal()
    ensures !Legal(InitialBoard(), 0, 0, Black)
  {
    var s := InitialBoard();
    DirsValid();
    var mine, opp := Disc(Black), Disc(White);
    forall i | 0 <= i < |Dirs|
      ensures Captured(s, (0, 0), Dirs[i], mine, opp) == []
    {
      OpeningCorner(i);
    }
    AllCapturedNonEmpty(s, (0, 0), Dirs, mine, opp);
  }

  lemma OpeningCorner(i: nat)
    requires i < |Dirs|
    ensures Captured(InitialBoard(), (0, 0), Dirs[i], Disc(Black), Disc(White)) == []
  {
    var s := InitialBoard();
    assert s[8] == Empty && s[1] == Empty && s[9] == Empty;
  }

  /** No board cell before row r, column c (row by row) is a legal move: what `anyValid` has scanned. */
  ghost predicate NoMoveBefore(s: seq<Cell>, color: Color, r: int, c: int)
    requires IsBoard(s)
  {
    forall r', c' :: InBoard(r', c') && (r' < r || (r' == r && c' < c)) ==> !Legal(s, r', c', color)
  }

  lemma NoMoveStep(s: seq<Cell>, color: Color, r: int, c: int)
    requires IsBoard(s) && NoMoveBefore(s, color, r, c) && !Legal(s, r, c, color)
    ensures NoMoveBefore(s, color, r, c + 1)
  {
  }

  lemma NoMoveRow(s: seq<Cell>, color: Color, r: int)
    requires IsBoard(s) && NoMoveBefore(s, color, r, 8)
    ensures NoMoveBefore(s, color, r + 1, 0)
  {
  }

  lemma NoMoveAll(s: seq<Cell>, color: Color)
    requires IsBoard(s) && NoMoveBefore(s, color, 8, 0)
    ensures !HasMove(s, color)
  {
  }

  /** One more opponent disc walked over by `getFlips` from (r, c) along d, now at (rr, cc). */
  lemma ScanOn(s: seq<Cell>, r: int, c: int, d: Pos, color: Color, rr: int, cc: int, line: seq<Pos>)
    requires IsBoard(s) && IsDir(d) && Walked(s, (r, c), d, Disc(color), Disc(Opponent(color)), (rr, cc), line)
    requires InBoard(rr, cc) && s[Idx((rr, cc))] == Disc(Opponent(color))
    ensures Walked(s, (r, c), d, Disc(color), Disc(Opponent(color)), (rr + d.0, cc + d.1), line + [(rr, cc)])
    ensures Reach((rr + d.0, cc + d.1), d) < Reach((rr, cc), d)
  {
    WalkStep(s, (r, c), d, Disc(color), Disc(Opponent(color)), (rr, cc), line);
  }

  /** Where the walk of `getFlips` stops: the run is kept iff it is non-empty and closed by `color`. */
  lemma ScanOff(s: seq<Cell>, r: int, c: int, d: Pos, color: Color, rr: int, cc: int, line: seq<Pos>)
    requires IsBoard(s) && IsDir(d) && Walked(s, (r, c), d, Disc(color), Disc(Opponent(color)), (rr, cc), line)
    requires !(InBoard(rr, cc) && s[Idx((rr, cc))] == Disc(Opponent(color)))
    ensures |line| > 0 && InBoard(rr, cc) && s[Idx((rr, cc))] == Disc(color) ==>
      line == Captured(s, (r, c), d, Disc(color), Disc(Opponent(color)))
    ensures !(|line| > 0 && InBoard(rr, cc) && s[Idx((rr, cc))] == Disc(color)) ==>
      Captured(s, (r, c), d, Disc(color), Disc(Opponent(color))) == []
  {
    WalkEnd(s, (r, c), d, Disc(color), Disc(Opponent(color)), (rr, cc), line);
  }

  class Othello {
    /** The 64 cells, row-major. */
    var board: array<Cell>
    var turn: Color

    ghost predicate Valid()
      reads this
    {
      board.Length == 64
    }

    /** The page after loading: `init()` has run. */
    constructor ()
      ensures Valid() && board[..] == InitialBoard() && turn == Black
    {
      var b := new Cell[64](_ => Empty);
      b[27], b[28], b[35], b[36] := Disc(White), Disc(Black), Disc(Black), Disc(White);
      board := b;
      turn := Black;
      assert b[..] == InitialBoard();
    }

    /** `init()`, also run by the restart button: a fresh opening position with black to move. */
    method Init()
      modifies this
      ensures Valid() && fresh(board) && board[..] == InitialBoard() && turn == Black
    {
      var b := new Cell[64](_ => Empty);
      b[27], b[28], b[35], b[36] := Disc(White), Disc(Black), Disc(Black), Disc(White);
      board := b;
      turn := Black;
      assert b[..] == InitialBoard();
    }

    /** `getFlips`: for each direction, the run of opponent discs, kept if a disc of `color` closes it. */
    method GetFlips(r: int, c: int, color: Color) returns (flips: seq<Pos>)
      requires Valid()
      ensures flips == Flips(board[..], r, c, color)
    {
      if !InBoard(r, c) || board[Idx((r, c))] != Empty {
        return [];
      }
      DirsValid();
      flips := [];
      for i := 0 to |Dirs|
        invariant flips == AllCaptured(board[..], (r, c), Dirs[..i], Disc(color), Disc(Opponent(color)))
      {
        var line := ScanLine(r, c, Dirs[i], color);
        AllCapturedStep(board[..], (r, c), Dirs, i, Disc(color), Disc(Opponent(color)));
        flips := flips + line;
      }
      assert Dirs[..|Dirs|] == Dirs;
    }

    /** One pass of `getFlips`' direction loop: the opponent run from (r, c) in direction d, if closed by `color`. */
    method ScanLine(r: int, c: int, d: Pos, color: Color) returns (line: seq<Pos>)
      requires Valid() && IsDir(d)
      ensures line == Captured(board[..], (r, c), d, Disc(color), Disc(Opponent(color)))
    {
      var rr, cc;
      rr, cc, line := WalkRun(r, c, d, color);
      ScanOff(board[..], r, c, d, color, rr, cc, line);
      if !(|line| > 0 && InBoard(rr, cc) && board[Idx((rr, cc))] == Disc(color)) {
        line := [];
      }
    }

    /** The `while` loop of `getFlips`: the opponent discs from (r, c) along d, and the cell where they end. */
    method WalkRun(r: int, c: int, d: Pos, color: Color) returns (rr: int, cc: int, line: seq<Pos>)
      requires Valid() && IsDir(d)
      ensures Walked(board[..], (r, c), d, Disc(color), Disc(Opponent(color)), (rr, cc), line)
      ensures !(InBoard(rr, cc) && board[Idx((rr, cc))] == Disc(Opponent(color)))
    {
      var cells := board[..];
      var opponent := Disc(Opponent(color));
      var dr, dc := d.0, d.1;
      rr, cc := r + dr, c + dc;
      line := [];
      while InBoard(rr, cc) && cells[Idx((rr, cc))] == opponent
        invariant Walked(cells, (r, c), d, Disc(color), opponent, (rr, cc), line)
        decreases Reach((rr, cc), d)
      {
        ScanOn(cells, r, c, d, color, rr, cc, line);
        line := line + [(rr, cc)];
        rr, cc := rr + dr, cc + dc;
      }
    }

    /** `anyValid`: whether `color` has a legal move anywhere. */
    method AnyValid(color: Color) returns (b: bool)
      requires Valid()
      ensures b == HasMove(board[..], color)
    {
      for r := 0 to 8
        invariant NoMoveBefore(board[..], color, r, 0)
      {
        for c := 0 to 8
          invariant NoMoveBefore(board[..], color, r, c)
        {
          var f := GetFlips(r, c, color);
          if |f| > 0 {
            assert InBoard(r, c) && Legal(board[..], r, c, color);
            return true;
          }
          NoMoveStep(board[..], color, r, c);
        }
        NoMoveRow(board[..], color, r);
      }
      NoMoveAll(board[..], color);
      return false;
    }

    /** `applyMove`: on a legal move, sets the target and every flipped cell to `color`; otherwise changes nothing. */
    method ApplyMove(r: int, c: int, color: Color) returns (ok: bool)
      requires Valid()
      modifies board
      ensures ok == Legal(old(board[..]), r, c, color)
      ensures ok ==> board[..] == Played(old(board[..]), r, c, color)
      ensures !ok ==> board[..] == old(board[..])
    {
      var flips := GetFlips(r, c, color);
      if |flips| == 0 {
        return false;
      }
      ghost var s := board[..];
      DirsValid();
      board[Idx((r, c))] := Disc(color);
      ghost var s1 := board[..];
      for i := 0 to |flips|
        invariant board[..] == Flip(s1, flips[..i], Disc(color))
      {
        board[Idx(flips[i])] := Disc(color);
        assert flips[..i + 1][..i] == flips[..i];
      }
      assert flips[..|flips|] == flips;
      return true;
    }

    /** `countScores`: the number of black and of white discs. */
    method CountScores() returns (b: nat, w: nat)
      requires Valid()
      ensures b == multiset(board[..])[Disc(Black)] && w == multiset(board[..])[Disc(White)]
      ensures b + w <= 64
    {
      b, w := 0, 0;
      for r := 0 to 8
        invariant b == multiset(board[..8 * r])[Disc(Black)] && w == multiset(board[..8 * r])[Disc(White)]
      {
        for c := 0 to 8
          invariant b == multiset(board[..8 * r + c])[Disc(Black)] && w == multiset(board[..8 * r + c])[Disc(White)]
        {
          assert board[..8 * r + c + 1] == board[..8 * r + c] + [board[8 * r + c]];
          if board[Idx((r, c))] == Disc(Black) {
            b := b + 1;
          }
          if board[Idx((r, c))] == Disc(White) {
            w := w + 1;
          }
        }
      }
      assert board[..64] == board[..];
      CountPair(board[..], Disc(Black), Disc(White));
    }

    /**
      The end-of-game check of `render`: a verdict iff neither colour has a legal move,
      a draw on equal counts and otherwise a win for the colour with more discs.
    */
    method EndgameResult() returns (res: Option<Outcome>)
      requires Valid()
      ensures res.Some? <==> !HasMove(board[..], Black) && !HasMove(board[..], White)
      ensures var b, w := multiset(board[..])[Disc(Black)], multiset(board[..])[Disc(White)];
        (res == Some(Draw) <==> res.Some? && b == w) &&
        (res == Some(BlackWins) <==> res.Some? && b > w) &&
        (res == Some(WhiteWins) <==> res.Some? && b < w)
    {
      var b, w := CountScores();
      var blackCan := AnyValid(Black);
      if blackCan {
        return None;
      }
      var whiteCan := AnyValid(White);
      if whiteCan {
        return None;
      }
      res := if b == w then Some(Draw) else if b > w then Some(BlackWins) else Some(WhiteWins);
    }

    /**
      `onCellClick`: an illegal click changes nothing; a legal one plays the move and passes the
      turn to the opponent if the opponent can move, otherwise the mover keeps it.
    */
    method OnCellClick(r: int, c: int)
      requires Valid()
      modifies this, board
      ensures Valid() && board == old(board)
      ensures Legal(old(board[..]), r, c, old(turn)) ==>
        board[..] == Played(old(board[..]), r, c, old(turn)) &&
        turn == (if HasMove(board[..], Opponent(old(turn))) then Opponent(old(turn)) else old(turn))
      ensures !Legal(old(board[..]), r, c, old(turn)) ==> board[..] == old(board[..]) && turn == old(turn)
    {
      var ok := ApplyMove(r, c, turn);
      if ok {
        var opponent := Opponent(turn);
        var can := AnyValid(opponent);
        if can {
          turn := opponent;
        }
      }
    }
  }
}
