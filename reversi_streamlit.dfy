/**
  The Streamlit Othello game against a random AI (reversi02_streamlit01.py). The numpy board
  is an array of 64 ints, cell (x, y) at index 8*x + y (the cell number shown on the page):
  1 for the player (black), -1 for the AI (white), 0 for empty.
*/
module ReversiStreamlit {
  import opened Wrappers
  import opened Rays

  /** `DIRECTIONS`, as (dx, dy) offsets on board[x, y]. */
  const Directions: seq<Pos> := [(-1, -1), (-1, 0), (-1, 1), (0, -1), (0, 1), (1, -1), (1, 0), (1, 1)]

  lemma DirectionsValid()
    ensures AllDirs(Directions) && NoDup(Directions)
    ensures forall d :: IsDir(d) <==> d in Directions
  {
  }

  predicate IsPlayer(p: int)
  {
    p == 1 || p == -1
  }

  /** `init_board()`: 1 on (3,3) and (4,4), -1 on (3,4) and (4,3), 0 elsewhere. */
  function InitBoard(): (s: seq<int>)
    ensures IsBoard(s)
  {
    // indices 27 = (3,3), 28 = (3,4), 35 = (4,3), 36 = (4,4)
    seq(64, i => if i == 27 || i == 36 then 1 else if i == 28 || i == 35 then -1 else 0)
  }

  /** A move by `player` at p: an empty cell from which some direction brackets opponent stones. */
  predicate IsMove(s: seq<int>, p: Pos, player: int)
    requires IsBoard(s)
  {
    DirectionsValid();
    Inside(p) && s[Idx(p)] == 0 && |AllCaptured(s, p, Directions, player, -player)| > 0
  }

  ghost predicate AnyMove(s: seq<int>, player: int)
    requires IsBoard(s)
  {
    exists p :: IsMove(s, p, player)
  }

  /** Every cell holds 0, 1 or -1. */
  predicate Stones(s: seq<int>)
  {
    forall i :: 0 <= i < |s| ==> s[i] == 0 || s[i] == 1 || s[i] == -1
  }

  /** `score(board)`: the player's and the AI's stone counts, which together fit on the board. */
  function Score(s: seq<int>): (r: (nat, nat))
    requires IsBoard(s)
    ensures r.0 == multiset(s)[1] && r.1 == multiset(s)[-1] && r.0 + r.1 <= 64
  {
    CountIsMultiset(s, 1);
    CountIsMultiset(s, -1);
    CountPair(s, 1, -1);
    (Count(s, 1), Count(s, -1))
  }

  /** The result announced when neither side can move. */
  datatype Outcome = PlayerWins | AiWins | Draw

  /** The opening position: two stones each, player to move. */
  lemma InitialPosition()
    ensures Stones(InitBoard()) && Score(InitBoard()) == (2, 2)
  {
    InitialCounts(1);
    InitialCounts(-1);
  }

  /** Two cells of the starting board hold v, for either player. */
  lemma InitialCounts(v: int)
    requires v == 1 || v == -1
    ensures multiset(InitBoard())[v] == 2
  {
    var s := InitBoard();
    var a, b, c, d, e := s[..27], s[27..29], s[29..35], s[35..37], s[37..];
    assert s == a + b + c + d + e;
    assert b == [1, -1] && d == [-1, 1];
    assert forall i :: 0 <= i < |a| ==> a[i] == 0;
    assert forall i :: 0 <= i < |c| ==> c[i] == 0;
    assert forall i :: 0 <= i < |e| ==> e[i] == 0;
    assert v !in a && v !in c && v !in e;
  }

  /** A cell is a move iff it is empty and some direction holds opponent stones closed by the player's. */
  lemma IsMoveIffBrackets(s: seq<int>, p: Pos, player: int)
    requires IsBoard(s) && IsPlayer(player)
    ensures IsMove(s, p, player) <==>
      Inside(p) && s[Idx(p)] == 0 &&
      exists i :: 0 <= i < |Directions| && Brackets(s, p, Directions[i], player, -player)
  {
    DirectionsValid();
    if Inside(p) && s[Idx(p)] == 0 {
      AllCapturedNonEmpty(s, p, Directions, player, -player);
      forall i | 0 <= i < |Directions|
        ensures |Captured(s, p, Directions[i], player, -player)| > 0 <==> Brackets(s, p, Directions[i], player, -player)
      {
        CapturedIffBrackets(s, p, Directions[i], player, -player);
      }
    }
  }

  /**
    Placing on an empty cell: the target and the bracketed stones become the player's, every
    other cell is unchanged, and the counts move by the number of flips.
  */
  lemma PlaceEffect(s: seq<int>, p: Pos, player: int)
    requires IsBoard(s) && Inside(p) && s[Idx(p)] == 0 && IsPlayer(player)
    ensures var after := PlaceAll(s, p, Directions, player, -player);
      var flips := AllCaptured(s, p, Directions, player, -player);
      IsBoard(after) &&
      (forall q :: Inside(q) ==> after[Idx(q)] == if q == p || q in flips then player else s[Idx(q)]) &&
      multiset(after)[player] == multiset(s)[player] + |flips| + 1 &&
      multiset(after)[-player] == multiset(s)[-player] - |flips|
  {
    DirectionsValid();
    PlaceAllEffect(s, p, Directions, player, -player);
  }

  /** Placing keeps a board of 0, 1 and -1 such a board. */
  lemma PlaceKeepsStones(s: seq<int>, p: Pos, player: int)
    requires IsBoard(s) && Inside(p) && IsPlayer(player) && Stones(s)
    ensures Stones(PlaceAll(s, p, Directions, player, -player))
  {
    DirectionsValid();
    FlipKeepsStones(s[Idx(p) := player], AllCaptured(s, p, Directions, player, -player), player);
  }

  /** Setting cells to a player's stone keeps a board of 0, 1 and -1 such a board. */
  lemma {:induction false} FlipKeepsStones(s: seq<int>, ps: seq<Pos>, player: int)
    requires IsBoard(s) && AllInside(ps) && IsPlayer(player) && Stones(s)
    ensures Stones(Flip(s, ps, player))
    decreases |ps|
  {
    if ps != [] {
      var init := ps[..|ps| - 1];
      assert AllInside(init) by {
        forall i | 0 <= i < |init|
          ensures Inside(init[i])
        {
          assert init[i] == ps[i];
        }
      }
      FlipKeepsStones(s, init, player);
    }
  }

  /** Before the first step nothing has been walked over. */
  lemma StartOn(s: seq<int>, x: int, y: int, d: Pos, player: int)
    requires IsBoard(s) && IsDir(d)
    ensures Walked(s, (x, y), d, player, -player, (x + d.0, y + d.1), [])
  {
    assert [] + Run(s, Next((x, y), d), d, -player) == Run(s, Next((x, y), d), d, -player);
  }

  /** One more opponent stone walked over, with the walk's position written as the loops write it. */
  lemma StepOn(s: seq<int>, x: int, y: int, d: Pos, player: int, nx: int, ny: int, walked: seq<Pos>)
    requires IsBoard(s) && IsDir(d) && Walked(s, (x, y), d, player, -player, (nx, ny), walked)
    requires Inside((nx, ny)) && s[Idx((nx, ny))] == -player
    ensures Walked(s, (x, y), d, player, -player, (nx + d.0, ny + d.1), walked + [(nx, ny)])
    ensures Reach((nx + d.0, ny + d.1), d) < Reach((nx, ny), d)
  {
    WalkStep(s, (x, y), d, player, -player, (nx, ny), walked);
  }

  /** The inner while loop of `valid_moves` for one direction: whether it appends (x, y). */
  method Closes(board: array<int>, x: int, y: int, d: Pos, player: int) returns (hit: bool)
    requires board.Length == 64 && IsDir(d) && IsPlayer(player)
    ensures hit == (|Captured(board[..], (x, y), d, player, -player)| > 0)
  {
    var cells := board[..];
    var nx, ny, run, closed := WalkLine(cells, x, y, d, player);
    WalkClosed(cells, (x, y), d, player, -player, (nx, ny), run);
    // `found_opponent` is set exactly when the walk passed an opponent stone; the `elif` branch
    // appends (x, y) when the player's stone follows such stones, the `else` branch does not
    var foundOpponent := |run| > 0;
    hit := closed && foundOpponent;
  }

  /** The direction loop of `valid_moves` for one empty cell: whether (x, y) gets appended at all. */
  method AppendsCell(board: array<int>, x: int, y: int, player: int) returns (appended: bool)
    requires board.Length == 64 && IsPlayer(player) && Inside((x, y)) && board[Idx((x, y))] == 0
    ensures appended == IsMove(board[..], (x, y), player)
  {
    DirectionsValid();
    appended := false;
    for i := 0 to |Directions|
      invariant appended <==> |AllCaptured(board[..], (x, y), Directions[..i], player, -player)| > 0
    {
      assert Directions[..i + 1][..i] == Directions[..i];
      var hit := Closes(board, x, y, Directions[i], player);
      if hit {
        appended := true;
      }
    }
    assert Directions[..|Directions|] == Directions;
  }

  /** `valid_moves(board, player)`: the set of all moves of `player`. */
  method ValidMoves(board: array<int>, player: int) returns (moves: set<Pos>)
    requires board.Length == 64 && IsPlayer(player)
    ensures forall p :: p in moves <==> IsMove(board[..], p, player)
  {
    moves := {};
    for x := 0 to 8
      invariant forall p :: p in moves <==> IsMove(board[..], p, player) && p.0 < x
    {
      for y := 0 to 8
        invariant forall p :: p in moves <==> IsMove(board[..], p, player) && (p.0 < x || (p.0 == x && p.1 < y))
      {
        if board[Idx((x, y))] != 0 {
          continue;
        }
        var appended := AppendsCell(board, x, y, player);
        if appended {
          moves := moves + {(x, y)};
        }
      }
    }
  }

  /** One pass of `place_stone`'s direction loop: flips the run from (x, y) in direction d if the player's stone closes it. */
  method FlipLine(board: array<int>, x: int, y: int, d: Pos, player: int)
    requires board.Length == 64 && IsDir(d) && IsPlayer(player)
    modifies board
    ensures board[..] == Flip(old(board[..]), Captured(old(board[..]), (x, y), d, player, -player), player)
  {
    var cells := board[..];
    var nx, ny, toFlip, closed := WalkLine(cells, x, y, d, player);
    WalkFlips(cells, (x, y), d, player, -player, (nx, ny), toFlip);
    // the flips of the `elif` branch, before its `break`
    if closed {
      SetAll(board, toFlip, player);
    }
  }

  /**
    The while loop of `place_stone` (and of `valid_moves`) for one direction: the opponent stones
    it collects in `stones_to_flip`, where it stops, and whether the player's own stone stopped it.
  */
  method WalkLine(cells: seq<int>, x: int, y: int, d: Pos, player: int) returns (nx: int, ny: int, toFlip: seq<Pos>, closed: bool)
    requires IsBoard(cells) && IsDir(d) && IsPlayer(player)
    ensures Walked(cells, (x, y), d, player, -player, (nx, ny), toFlip)
    ensures !(Inside((nx, ny)) && cells[Idx((nx, ny))] == -player)
    ensures closed == (Inside((nx, ny)) && cells[Idx((nx, ny))] == player)
  {
    var opp := -player;
    var px, py := x + d.0, y + d.1;
    var run: seq<Pos> := [];
    StartOn(cells, x, y, d, player);
    // the `if` branch: an opponent stone is collected and the walk goes on
    while Inside((px, py)) && cells[Idx((px, py))] == opp
      invariant Walked(cells, (x, y), d, player, opp, (px, py), run)
      decreases Reach((px, py), d)
    {
      StepOn(cells, x, y, d, player, px, py, run);
      run := run + [(px, py)];
      px, py := px + d.0, py + d.1;
    }
    // the `elif` branch (the player's stone) and the `else` branch, or the edge of the board
    nx, ny, toFlip := px, py, run;
    closed := Inside((px, py)) && cells[Idx((px, py))] == player;
  }

  /** `for fx, fy in stones_to_flip: board[fx, fy] = player`. */
  method SetAll(board: array<int>, ps: seq<Pos>, v: int)
    requires board.Length == 64 && AllInside(ps)
    modifies board
    ensures board[..] == Flip(old(board[..]), ps, v)
  {
    ghost var s := board[..];
    for j := 0 to |ps|
      invariant board[..] == Flip(s, ps[..j], v)
    {
      board[Idx(ps[j])] := v;
      assert ps[..j + 1][..j] == ps[..j];
    }
    assert ps[..|ps|] == ps;
  }

  /** `place_stone`: the stone and its captures, written into the board, which is returned. */
  method PlaceStone(board: array<int>, x: int, y: int, player: int) returns (r: array<int>)
    requires board.Length == 64 && Inside((x, y)) && IsPlayer(player)
    modifies board
    ensures r == board
    ensures board[..] == PlaceAll(old(board[..]), (x, y), Directions, player, -player)
  {
    DirectionsValid();
    ghost var s := board[..];
    board[Idx((x, y))] := player;
    ghost var s1 := board[..];
    for i := 0 to |Directions|
      invariant board[..] == PlaceSeq(s1, (x, y), Directions[..i], player, -player)
    {
      ghost var b := board[..];
      PlaceSeqStep(s1, (x, y), Directions, i, player, -player);
      FlipLine(board, x, y, Directions[i], player);
    }
    assert Directions[..|Directions|] == Directions;
    PlaceSeqIsPlaceAll(s, (x, y), Directions, player, -player);
    return board;
  }

  /** `ai_move`: some move of the AI (-1), chosen at random, or None when it has none. */
  method AiMove(board: array<int>) returns (m: Option<Pos>)
    requires board.Length == 64
    ensures m.None? <==> !AnyMove(board[..], -1)
    ensures m.Some? ==> IsMove(board[..], m.value, -1)
  {
    var moves := ValidMoves(board, -1);
    if moves == {} {
      return None;
    }
    var p :| p in moves;
    return Some(p);
  }

  /** The game-over branch: a result iff neither side can move; the larger count wins. */
  method GameOver(board: array<int>) returns (res: Option<Outcome>)
    requires board.Length == 64
    ensures res.Some? <==> !AnyMove(board[..], 1) && !AnyMove(board[..], -1)
    ensures var (black, white) := Score(board[..]);
      (res == Some(PlayerWins) <==> res.Some? && black > white) &&
      (res == Some(AiWins) <==> res.Some? && white > black) &&
      (res == Some(Draw) <==> res.Some? && black == white)
  {
    var black, white := Count(board[..], 1), Count(board[..], -1);
    var mine := ValidMoves(board, 1);
    if mine != {} {
      return None;
    }
    var theirs := ValidMoves(board, -1);
    if theirs != {} {
      return None;
    }
    if black > white {
      res := Some(PlayerWins);
    } else if white > black {
      res := Some(AiWins);
    } else {
      res := Some(Draw);
    }
  }

  /** The session: the board kept in `st.session_state` across reruns of the script. */
  class Session {
    var board: array<int>

    ghost predicate Valid()
      reads this
    {
      board.Length == 64
    }

    /** The first run: no board in the session yet, so `init_board()`. */
    constructor ()
      ensures Valid() && board[..] == InitBoard()
    {
      var b := new int[64](i => if i == 27 || i == 36 then 1 else if i == 28 || i == 35 then -1 else 0);
      assert b[..] == InitBoard();
      board := b;
    }

    /**
      Pressing "石を置く" with cell number n: if (n div 8, n mod 8) is a move of the player it is
      placed and then a random AI move, if any, is placed too; otherwise the board is unchanged.
    */
    method PressPlace(n: int)
      requires Valid() && 0 <= n < 64
      modifies board
      ensures var p := (n / 8, n % 8);
        if IsMove(old(board[..]), p, 1) then
          var mid := PlaceAll(old(board[..]), p, Directions, 1, -1);
          (!AnyMove(mid, -1) ==> board[..] == mid) &&
          (AnyMove(mid, -1) ==> exists q :: IsMove(mid, q, -1) && board[..] == PlaceAll(mid, q, Directions, -1, 1))
        else board[..] == old(board[..])
    {
      DirectionsValid();
      var x, y := n / 8, n % 8;
      var moves := ValidMoves(board, 1);
      if (x, y) in moves {
        var b := PlaceStone(board, x, y, 1);
        ghost var mid := board[..];
        var ai := AiMove(board);
        if ai.Some? {
          b := PlaceStone(board, ai.value.0, ai.value.1, -1);
        }
      }
    }

    /** Pressing "リセット": a fresh opening board in the session. */
    method Reset()
      modifies this
      ensures Valid() && fresh(board) && board[..] == InitBoard()
    {
      board := new int[64](i => if i == 27 || i == 36 then 1 else if i == 28 || i == 35 then -1 else 0);
      assert board[..] == InitBoard();
    }
  }
}
