/**
  The matplotlib Othello game against a greedy computer player (reversi02.py). The numpy board
  is indexed board[y, x]; here it is an array of 64 ints with board[y, x] at index 8*y + x,
  that is the cell at Rays position (y, x). Moves are (x, y) pairs, as in the source.
*/
module ReversiPlot {
  import opened Wrappers
  import opened Rays

  const EMPTY := 0
  const BLACK := 1
  const WHITE := -1

  /** `dirs`: every (dx, dy) with dx, dy in [-1, 0, 1] taken in that order, except (0, 0). */
  const Dirs: seq<Pos> := [(-1, -1), (-1, 0), (-1, 1), (0, -1), (0, 1), (1, -1), (1, 0), (1, 1)]

  /** A (dx, dy) offset as a (row, column) offset on board[y, x]. */
  function RowDir(d: Pos): Pos
  {
    (d.1, d.0)
  }

  /** `dirs` as (row, column) offsets, in the same order. */
  const RowDirs: seq<Pos> := [(-1, -1), (0, -1), (1, -1), (-1, 0), (1, 0), (-1, 1), (0, 1), (1, 1)]

  /** `dirs` holds exactly the eight non-zero unit offsets, once each, and RowDirs lists them as (row, column) offsets. */
  lemma DirsExactly()
    ensures |Dirs| == 8 && NoDup(Dirs) && forall d :: d in Dirs <==> IsDir(d)
    ensures |RowDirs| == 8 && forall i :: 0 <= i < 8 ==> RowDirs[i] == RowDir(Dirs[i])
  {
  }

  /** Entry i of RowDirs is entry i of `dirs` as a (row, column) offset. */
  lemma RowDirAt(i: int)
    requires 0 <= i < |Dirs|
    ensures IsDir(Dirs[i]) && RowDirs[i] == RowDir(Dirs[i])
  {
  }

  lemma RowDirsValid()
    ensures |RowDirs| == 8 && AllDirs(RowDirs) && NoDup(RowDirs)
  {
  }

  /** `inside(x, y)`. */
  predicate InsideXY(x: int, y: int)
  {
    0 <= x < 8 && 0 <= y < 8
  }

  predicate IsPlayer(c: int)
  {
    c == BLACK || c == WHITE
  }

  /** The starting board: WHITE on [3,3] and [4,4], BLACK on [3,4] and [4,3]. */
  function InitBoard(): (s: seq<int>)
    ensures IsBoard(s)
  {
    // indices 27 = [3,3], 28 = [3,4], 35 = [4,3], 36 = [4,4]
    seq(64, i => if i == 27 || i == 36 then WHITE else if i == 28 || i == 35 then BLACK else EMPTY)
  }

  /** A move of `color` at (x, y): an empty cell from which some direction brackets opponent stones. */
  predicate IsMove(s: seq<int>, x: int, y: int, color: int)
    requires IsBoard(s)
  {
    RowDirsValid();
    InsideXY(x, y) && s[Idx((y, x))] == EMPTY && |AllCaptured(s, (y, x), RowDirs, color, -color)| > 0
  }

  /** The scan position of a move. */
  function Key(m: Pos): int
  {
    8 * m.1 + m.0
  }

  /** The scan position of a cell determines the cell. */
  lemma KeyInverse(m: Pos)
    requires InsideXY(m.0, m.1)
    ensures Key(m) % 8 == m.0 && Key(m) / 8 == m.1
  {
  }

  /** The moves among the first n cells of the scan: y outer, x inner; cell k is (k % 8, k / 8). */
  function MovesBefore(s: seq<int>, color: int, n: nat): seq<Pos>
    requires IsBoard(s) && n <= 64
  {
    if n == 0 then []
    else
      var k := n - 1;
      MovesBefore(s, color, k) + (if IsMove(s, k % 8, k / 8, color) then [(k % 8, k / 8)] else [])
  }

  /** One more cell of the scan: cell n is (n % 8, n / 8). */
  lemma MovesBeforeNext(s: seq<int>, color: int, n: nat, x: int, y: int)
    requires IsBoard(s) && n < 64 && n % 8 == x && n / 8 == y
    ensures MovesBefore(s, color, n + 1) == MovesBefore(s, color, n) + (if IsMove(s, x, y, color) then [(x, y)] else [])
  {
  }

  /** An occupied cell is never a move. */
  lemma OccupiedNoMove(s: seq<int>, x: int, y: int, color: int)
    requires IsBoard(s) && InsideXY(x, y) && s[Idx((y, x))] != EMPTY
    ensures !IsMove(s, x, y, color)
  {
  }

  /** The scan reaching cell (x, y) lists it iff it is a move, which `b` says. */
  lemma MovesBeforeStep(s: seq<int>, color: int, x: int, y: int, b: bool)
    requires IsBoard(s) && InsideXY(x, y) && b == IsMove(s, x, y, color)
    ensures MovesBefore(s, color, 8 * y + x + 1) == MovesBefore(s, color, 8 * y + x) + (if b then [(x, y)] else [])
  {
    KeyInverse((x, y));
    MovesBeforeNext(s, color, 8 * y + x, x, y);
  }

  /** The list `valid_moves(board, color)` returns. */
  function Moves(s: seq<int>, color: int): seq<Pos>
    requires IsBoard(s)
  {
    MovesBefore(s, color, 64)
  }


  /** The moves listed for the first n cells are exactly those cells' moves, in strictly increasing scan order. */
  lemma {:induction false} MovesBeforeExactly(s: seq<int>, color: int, n: nat)
    requires IsBoard(s) && n <= 64
    ensures var ms := MovesBefore(s, color, n);
      (forall m :: m in ms <==> IsMove(s, m.0, m.1, color) && Key(m) < n) &&
      (forall i, j :: 0 <= i < j < |ms| ==> Key(ms[i]) < Key(ms[j]))
  {
    if n > 0 {
      var k := n - 1;
      MovesBeforeExactly(s, color, k);
      var ms := MovesBefore(s, color, n);
      var prev := MovesBefore(s, color, k);
      var cell := (k % 8, k / 8);
      MovesBeforeNext(s, color, k, cell.0, cell.1);
      assert Key(cell) == k;
      forall m
        ensures m in ms <==> IsMove(s, m.0, m.1, color) && Key(m) < n
      {
        if IsMove(s, m.0, m.1, color) && Key(m) == k {
          KeyInverse(m);
        }
      }
      forall i, j | 0 <= i < j < |ms|
        ensures Key(ms[i]) < Key(ms[j])
      {
        if j < |prev| {
          assert ms[i] == prev[i] && ms[j] == prev[j];
        } else {
          assert ms[i] == prev[i] && ms[i] in prev;
        }
      }
    }
  }

  /** `valid_moves` lists every move exactly once, in scan order. */
  lemma MovesExactly(s: seq<int>, color: int)
    requires IsBoard(s)
    ensures forall m :: m in Moves(s, color) <==> IsMove(s, m.0, m.1, color)
    ensures NoDup(Moves(s, color))
    ensures forall i, j :: 0 <= i < j < |Moves(s, color)| ==> Key(Moves(s, color)[i]) < Key(Moves(s, color)[j])
  {
    MovesBeforeExactly(s, color, 64);
    var ms := Moves(s, color);
    forall i, j | 0 <= i < j < |ms|
      ensures ms[i] != ms[j]
    {
      assert Key(ms[i]) < Key(ms[j]);
    }
  }

  /** A cell is a move iff it is empty and some direction holds opponent stones closed by the mover's. */
  lemma IsMoveIffBrackets(s: seq<int>, x: int, y: int, color: int)
    requires IsBoard(s) && IsPlayer(color)
    ensures IsMove(s, x, y, color) <==>
      InsideXY(x, y) && s[Idx((y, x))] == EMPTY &&
      exists i :: 0 <= i < |Dirs| && Brackets(s, (y, x), RowDir(Dirs[i]), color, -color)
  {
    RowDirsValid();
    DirsExactly();
    if InsideXY(x, y) && s[Idx((y, x))] == EMPTY {
      AllCapturedNonEmpty(s, (y, x), RowDirs, color, -color);
      forall i | 0 <= i < |RowDirs|
        ensures |Captured(s, (y, x), RowDirs[i], color, -color)| > 0 <==> Brackets(s, (y, x), RowDirs[i], color, -color)
      {
        CapturedIffBrackets(s, (y, x), RowDirs[i], color, -color);
      }
    }
  }

  /** The board `place_stone(board, x, y, color)` leaves: the stone set, then each direction in turn. */
  function Placed(s: seq<int>, x: int, y: int, color: int): seq<int>
    requires IsBoard(s) && InsideXY(x, y)
  {
    RowDirsValid();
    PlaceAt(s, (y, x), RowDirs, color, -color)
  }

  /** Directions taken in turn capture what they would all capture from the starting board. */
  lemma PlacedIsPlaceAll(s: seq<int>, x: int, y: int, color: int)
    requires IsBoard(s) && InsideXY(x, y)
    ensures AllDirs(RowDirs)
    ensures Placed(s, x, y, color) == PlaceAll(s, (y, x), RowDirs, color, -color)
  {
    RowDirsValid();
    PlaceAtIsPlaceAll(s, (y, x), RowDirs, color, -color);
  }

  /** The increase of the mover's stone count that `ai_move` computes for a move. */
  function Gain(s: seq<int>, m: Pos, color: int): int
    requires IsBoard(s) && InsideXY(m.0, m.1)
  {
    multiset(Placed(s, m.0, m.1, color))[color] as int - multiset(s)[color] as int
  }

  /** Placing never lowers the mover's count. */
  lemma GainNonNegative(s: seq<int>, m: Pos, color: int)
    requires IsBoard(s) && InsideXY(m.0, m.1)
    ensures Gain(s, m, color) >= 0
  {
    PlacedIsPlaceAll(s, m.0, m.1, color);
    var t := (m.1, m.0);
    var s1 := s[Idx(t) := color];
    assert multiset(s1) == multiset(s) - multiset{s[Idx(t)]} + multiset{color};
    FlipMonotone(s1, AllCaptured(s, t, RowDirs, color, -color), color);
  }

  /** On a legal move the gain is one more than the number of stones flipped. */
  lemma GainOfMove(s: seq<int>, m: Pos, color: int)
    requires IsBoard(s) && IsPlayer(color) && InsideXY(m.0, m.1) && s[Idx((m.1, m.0))] == EMPTY
    ensures AllDirs(RowDirs)
    ensures Gain(s, m, color) == |AllCaptured(s, (m.1, m.0), RowDirs, color, -color)| + 1
  {
    RowDirsValid();
    PlacedIsPlaceAll(s, m.0, m.1, color);
    PlaceAllCounts(s, (m.1, m.0), RowDirs, color, -color);
  }

  predicate AllInsideXY(ms: seq<Pos>)
  {
    forall i :: 0 <= i < |ms| ==> InsideXY(ms[i].0, ms[i].1)
  }

  /** The index `ai_move`'s loop holds after n moves: the current best is replaced only by a strictly larger value. */
  function FirstMax(g: seq<int>, n: nat): (b: nat)
    requires 0 < n <= |g|
    ensures b < n
  {
    if n == 1 then 0
    else
      var b := FirstMax(g, n - 1);
      if g[n - 1] > g[b] then n - 1 else b
  }

  /** `FirstMax` is the first index of a largest value among the first n. */
  lemma {:induction false} FirstMaxIsFirst(g: seq<int>, n: nat)
    requires 0 < n <= |g|
    ensures var b := FirstMax(g, n);
      (forall j :: 0 <= j < b ==> g[j] < g[b]) && (forall j :: 0 <= j < n ==> g[j] <= g[b])
  {
    if n > 1 {
      FirstMaxIsFirst(g, n - 1);
    }
  }

  /** The gain of each listed move. */
  function Gains(s: seq<int>, ms: seq<Pos>, color: int): (g: seq<int>)
    requires IsBoard(s) && AllInsideXY(ms)
    ensures |g| == |ms|
  {
    Measure(ms, (m: Pos) requires InsideXY(m.0, m.1) => Gain(s, m, color))
  }

  /** The values f takes along ms. */
  function Measure<T>(ms: seq<T>, f: T --> int): (g: seq<int>)
    requires forall i :: 0 <= i < |ms| ==> f.requires(ms[i])
    ensures |g| == |ms|
  {
    if ms == [] then [] else Measure(ms[..|ms| - 1], f) + [f(ms[|ms| - 1])]
  }

  /** Entry k of `Measure` is the value at element k. */
  lemma {:induction false} MeasureAt<T>(ms: seq<T>, f: T --> int, k: nat)
    requires k < |ms| && forall i :: 0 <= i < |ms| ==> f.requires(ms[i])
    ensures Measure(ms, f)[k] == f(ms[k])
  {
    if k < |ms| - 1 {
      MeasureAt(ms[..|ms| - 1], f, k);
    }
  }

  /** Measuring one more element appends its value. */
  lemma MeasureStep<T>(ms: seq<T>, i: nat, f: T --> int)
    requires i < |ms| && forall j :: 0 <= j < |ms| ==> f.requires(ms[j])
    ensures Measure(ms[..i + 1], f) == Measure(ms[..i], f) + [f(ms[i])]
  {
    assert ms[..i + 1][..i] == ms[..i];
  }

  /** Measuring one more move extends `Gains` of the prefix by that move's gain. */
  lemma GainsStep(s: seq<int>, ms: seq<Pos>, i: nat, color: int, g: int)
    requires IsBoard(s) && AllInsideXY(ms) && i < |ms|
    requires g == Gain(s, ms[i], color)
    ensures AllInsideXY(ms[..i]) && AllInsideXY(ms[..i + 1])
    ensures Gains(s, ms[..i + 1], color) == Gains(s, ms[..i], color) + [g]
  {
    assert AllInsideXY(ms[..i]) && AllInsideXY(ms[..i + 1]);
    MeasureStep(ms, i, (m: Pos) requires InsideXY(m.0, m.1) => Gain(s, m, color));
  }

  /** The move `ai_move(board, color)` returns: None without moves, else the first with the largest gain. */
  function AiChoice(s: seq<int>, color: int): Option<Pos>
    requires IsBoard(s)
  {
    var ms := Moves(s, color);
    MovesExactly(s, color);
    if ms == [] then None else Some(ms[FirstMax(Gains(s, ms, color), |ms|)])
  }

  /** The board `ai_turn` leaves. */
  function AfterAi(s: seq<int>, color: int): seq<int>
    requires IsBoard(s)
  {
    MovesExactly(s, color);
    match AiChoice(s, color)
    case None => s
    case Some(m) => Placed(s, m.0, m.1, color)
  }

  /** The AI passes iff it has no move, and a move it picks is one of its moves. */
  lemma AiChoiceIsMove(s: seq<int>, color: int)
    requires IsBoard(s) && IsPlayer(color)
    ensures AiChoice(s, color).None? <==> forall x, y :: !IsMove(s, x, y, color)
    ensures AiChoice(s, color).Some? ==> var m := AiChoice(s, color).value; IsMove(s, m.0, m.1, color)
  {
    MovesExactly(s, color);
    var ms := Moves(s, color);
    if ms == [] {
      forall x, y
        ensures !IsMove(s, x, y, color)
      {
        assert (x, y) !in ms;
      }
    } else {
      assert IsMove(s, ms[0].0, ms[0].1, color);
    }
  }

  /**
    The AI's pick has the largest gain of all its moves, and any other move with that gain
    comes later in scan order.
  */
  lemma AiChoiceIsFirstBest(s: seq<int>, color: int, x: int, y: int)
    requires IsBoard(s) && IsPlayer(color) && IsMove(s, x, y, color)
    ensures AiChoice(s, color).Some?
    ensures var m := AiChoice(s, color).value;
      InsideXY(m.0, m.1) &&
      (Gain(s, (x, y), color) < Gain(s, m, color) ||
       (Gain(s, (x, y), color) == Gain(s, m, color) && Key(m) <= Key((x, y))))
  {
    var j := MoveListed(s, color, x, y);
    AiChoiceBeats(s, color, j);
  }

  /** A move is listed by `valid_moves`. */
  lemma MoveListed(s: seq<int>, color: int, x: int, y: int) returns (j: nat)
    requires IsBoard(s) && IsMove(s, x, y, color)
    ensures j < |Moves(s, color)| && Moves(s, color)[j] == (x, y)
  {
    MovesExactly(s, color);
    assert (x, y) in Moves(s, color);
    j :| 0 <= j < |Moves(s, color)| && Moves(s, color)[j] == (x, y);
  }

  /** The AI's pick beats the listed move j. */
  lemma AiChoiceBeats(s: seq<int>, color: int, j: nat)
    requires IsBoard(s) && j < |Moves(s, color)|
    ensures AllInsideXY(Moves(s, color))
    ensures AiChoice(s, color).Some?
    ensures var m := AiChoice(s, color).value; var mj := Moves(s, color)[j];
      InsideXY(m.0, m.1) &&
      (Gain(s, mj, color) < Gain(s, m, color) || (Gain(s, mj, color) == Gain(s, m, color) && Key(m) <= Key(mj)))
  {
    var ms := Moves(s, color);
    assert AllInsideXY(ms) && forall a, b :: 0 <= a < b < |ms| ==> Key(ms[a]) < Key(ms[b]) by {
      MovesExactly(s, color);
    }
    var g := Gains(s, ms, color);
    var i := FirstMax(g, |g|);
    GainsAt(s, ms, color, i);
    GainsAt(s, ms, color, j);
    FirstBest(ms, g, j);
  }

  /** Entry k of `Gains` is the gain of move k. */
  lemma GainsAt(s: seq<int>, ms: seq<Pos>, color: int, k: nat)
    requires IsBoard(s) && AllInsideXY(ms) && k < |ms|
    ensures Gains(s, ms, color)[k] == Gain(s, ms[k], color)
  {
    MeasureAt(ms, (m: Pos) requires InsideXY(m.0, m.1) => Gain(s, m, color), k);
  }

  /**
    In a list in strictly increasing scan order, the first index of a largest value beats every
    other index: by a larger value, or by the same value earlier in the scan.
  */
  lemma FirstBest(ms: seq<Pos>, g: seq<int>, j: nat)
    requires |g| == |ms| && j < |ms|
    requires forall a, b :: 0 <= a < b < |ms| ==> Key(ms[a]) < Key(ms[b])
    ensures var i := FirstMax(g, |g|);
      g[j] < g[i] || (g[j] == g[i] && Key(ms[i]) <= Key(ms[j]))
  {
    FirstMaxIsFirst(g, |g|);
  }

  /** A walk from (x, y) along d starts one step away, having walked over nothing. */
  lemma WalkFrom(s: seq<int>, x: int, y: int, d: Pos, color: int)
    requires IsBoard(s) && IsDir(d)
    ensures Walked(s, (y, x), RowDir(d), color, -color, (y + d.1, x + d.0), [])
  {
    assert [] + Run(s, Next((y, x), RowDir(d)), RowDir(d), -color) == Run(s, Next((y, x), RowDir(d)), RowDir(d), -color);
  }

  /** One step of a walk from (x, y) along (dx, dy) = d, which has reached (nx, ny) over opponent stones. */
  lemma WalkOn(s: seq<int>, x: int, y: int, d: Pos, color: int, nx: int, ny: int, walked: seq<Pos>)
    requires IsBoard(s) && IsDir(d) && Walked(s, (y, x), RowDir(d), color, -color, (ny, nx), walked)
    requires InsideXY(nx, ny) && s[Idx((ny, nx))] == -color
    ensures Walked(s, (y, x), RowDir(d), color, -color, (ny + d.1, nx + d.0), walked + [(ny, nx)])
    ensures Reach((ny + d.1, nx + d.0), RowDir(d)) < Reach((ny, nx), RowDir(d))
  {
    WalkStep(s, (y, x), RowDir(d), color, -color, (ny, nx), walked);
  }

  /** Where a walk from (x, y) along d stops at (nx, ny): the stones walked over, and what they capture. */
  lemma WalkOff(s: seq<int>, x: int, y: int, d: Pos, color: int, nx: int, ny: int, walked: seq<Pos>)
    requires IsBoard(s) && IsDir(d) && Walked(s, (y, x), RowDir(d), color, -color, (ny, nx), walked)
    requires !(InsideXY(nx, ny) && s[Idx((ny, nx))] == -color)
    ensures AllInside(walked)
    ensures InsideXY(nx, ny) && s[Idx((ny, nx))] == color ==> walked == Captured(s, (y, x), RowDir(d), color, -color)
    ensures !(InsideXY(nx, ny) && s[Idx((ny, nx))] == color) ==> Captured(s, (y, x), RowDir(d), color, -color) == []
  {
    WalkEnd(s, (y, x), RowDir(d), color, -color, (ny, nx), walked);
  }

  /**
    One direction of `valid_moves`' inner loop: whether the walk ends on a stone of `color` after
    opponent stones. Its while loop is the one of `place_stone`, which also lists the stones.
  */
  method Qualifies(board: array<int>, x: int, y: int, d: Pos, color: int) returns (hit: bool)
    requires board.Length == 64 && IsDir(d) && IsPlayer(color)
    ensures hit == (|Captured(board[..], (y, x), RowDir(d), color, -color)| > 0)
  {
    var walked, closed := Walk(board, x, y, d, color);
    // `found` is set exactly when the walk passed an opponent stone, that is when it walked over some
    var found := |walked| > 0;
    hit := found && closed;
  }

  /** The direction loop of `valid_moves` for an empty cell, which stops at the first qualifying direction. */
  method CellQualifies(board: array<int>, x: int, y: int, color: int) returns (b: bool)
    requires board.Length == 64 && IsPlayer(color) && InsideXY(x, y) && board[Idx((y, x))] == EMPTY
    ensures b == IsMove(board[..], x, y, color)
  {
    RowDirsValid();
    for i := 0 to |Dirs|
      invariant forall j :: 0 <= j < i ==> |Captured(board[..], (y, x), RowDirs[j], color, -color)| == 0
    {
      RowDirAt(i);
      var hit := Qualifies(board, x, y, Dirs[i], color);
      if hit {
        AllCapturedNonEmpty(board[..], (y, x), RowDirs, color, -color);
        assert |Captured(board[..], (y, x), RowDirs[i], color, -color)| > 0;
        return true;
      }
    }
    AllCapturedNonEmpty(board[..], (y, x), RowDirs, color, -color);
    return false;
  }

  /** `valid_moves(board, color)`. */
  method ValidMoves(board: array<int>, color: int) returns (moves: seq<Pos>)
    requires board.Length == 64 && IsPlayer(color)
    ensures moves == Moves(board[..], color)
  {
    moves := [];
    for y := 0 to 8
      invariant moves == MovesBefore(board[..], color, 8 * y)
    {
      moves := ScanRow(board, color, y, moves);
    }
  }

  /** One pass of `valid_moves`' outer loop: row y scanned left to right, its moves appended. */
  method ScanRow(board: array<int>, color: int, y: int, before: seq<Pos>) returns (moves: seq<Pos>)
    requires board.Length == 64 && IsPlayer(color) && 0 <= y < 8
    requires before == MovesBefore(board[..], color, 8 * y)
    ensures moves == MovesBefore(board[..], color, 8 * y + 8)
  {
    moves := before;
    for x := 0 to 8
      invariant moves == MovesBefore(board[..], color, 8 * y + x)
    {
      if board[Idx((y, x))] != EMPTY {
        OccupiedNoMove(board[..], x, y, color);
        MovesBeforeStep(board[..], color, x, y, false);
        continue;
      }
      var b := CellQualifies(board, x, y, color);
      MovesBeforeStep(board[..], color, x, y, b);
      if b {
        moves := moves + [(x, y)];
      }
    }
  }

  /**
    The while loop of one direction of `place_stone`: the opponent stones walked over, as board
    positions (y, x), and whether a stone of `color` ends the walk.
  */
  method Walk(board: array<int>, x: int, y: int, d: Pos, color: int) returns (flips: seq<Pos>, closed: bool)
    requires board.Length == 64 && IsDir(d) && IsPlayer(color)
    ensures AllInside(flips)
    ensures closed ==> flips == Captured(board[..], (y, x), RowDir(d), color, -color)
    ensures !closed ==> Captured(board[..], (y, x), RowDir(d), color, -color) == []
  {
    var opp := -color;
    var nx, ny := x + d.0, y + d.1;
    flips := [];
    WalkFrom(board[..], x, y, d, color);
    while InsideXY(nx, ny) && board[Idx((ny, nx))] == opp
      invariant Walked(board[..], (y, x), RowDir(d), color, -color, (ny, nx), flips)
      decreases Reach((ny, nx), RowDir(d))
    {
      WalkOn(board[..], x, y, d, color, nx, ny, flips);
      flips := flips + [(ny, nx)];
      nx, ny := nx + d.0, ny + d.1;
    }
    WalkOff(board[..], x, y, d, color, nx, ny, flips);
    closed := InsideXY(nx, ny) && board[Idx((ny, nx))] == color;
  }

  /** `for fx, fy in flips: board[fy, fx] = color`. */
  method SetStones(board: array<int>, flips: seq<Pos>, color: int)
    requires board.Length == 64 && AllInside(flips)
    modifies board
    ensures board[..] == Flip(old(board[..]), flips, color)
  {
    ghost var s := board[..];
    for j := 0 to |flips|
      invariant board[..] == Flip(s, flips[..j], color)
    {
      board[Idx(flips[j])] := color;
      assert flips[..j + 1][..j] == flips[..j];
    }
    assert flips[..|flips|] == flips;
  }

  /** One direction of `place_stone`: the walked opponent stones are flipped if a stone of `color` ends the walk. */
  method FlipDirection(board: array<int>, x: int, y: int, d: Pos, color: int)
    requires board.Length == 64 && IsDir(d) && IsPlayer(color)
    modifies board
    ensures board[..] == Flip(old(board[..]), Captured(old(board[..]), (y, x), RowDir(d), color, -color), color)
  {
    var flips, closed := Walk(board, x, y, d, color);
    if closed {
      SetStones(board, flips, color);
    }
  }

  /** `place_stone(board, x, y, color)`: writes the stone and, direction by direction, its captures. */
  method PlaceStone(board: array<int>, x: int, y: int, color: int)
    requires board.Length == 64 && InsideXY(x, y) && IsPlayer(color)
    modifies board
    ensures board[..] == Placed(old(board[..]), x, y, color)
  {
    RowDirsValid();
    DirsExactly();
    ghost var s := board[..];
    board[Idx((y, x))] := color;
    ghost var s1 := board[..];
    for i := 0 to |Dirs|
      invariant board[..] == PlaceSeq(s1, (y, x), RowDirs[..i], color, -color)
    {
      ghost var b := board[..];
      PlaceSeqStep(s1, (y, x), RowDirs, i, color, -color);
      FlipDirection(board, x, y, Dirs[i], color);
    }
    assert RowDirs[..|RowDirs|] == RowDirs;
  }

  /** `ai_move(board, color)`: each move is tried on a copy, so the board itself is left alone. */
  method AiMove(board: array<int>, color: int) returns (best: Option<Pos>)
    requires board.Length == 64 && IsPlayer(color)
    ensures best == AiChoice(board[..], color)
  {
    var moves := ValidMoves(board, color);
    MovesExactly(board[..], color);
    if |moves| == 0 {
      return None;
    }
    var m := PickBest(board, moves, color);
    return Some(m);
  }

  /** The loop of `ai_move` over a non-empty move list, starting from `max_flips = -1`. */
  method PickBest(board: array<int>, moves: seq<Pos>, color: int) returns (best: Pos)
    requires board.Length == 64 && IsPlayer(color) && |moves| > 0 && AllInsideXY(moves)
    ensures best == moves[FirstMax(Gains(board[..], moves, color), |moves|)]
  {
    ghost var s := board[..];
    ghost var measured: seq<int> := [];
    ghost var bi := 0;
    var found: Option<Pos> := None;
    var maxFlips := -1;
    for i := 0 to |moves|
      invariant board[..] == s
      invariant AllInsideXY(moves[..i]) && measured == Gains(s, moves[..i], color)
      invariant BestSoFar(measured, bi, maxFlips)
      invariant found == (if i == 0 then None else Some(moves[bi]))
    {
      var x, y := moves[i].0, moves[i].1;
      var flips := GainOf(board, x, y, color);
      PickStep(s, moves, i, color, measured, bi, maxFlips, flips);
      measured := measured + [flips];
      if flips > maxFlips {
        maxFlips := flips;
        found := Some((x, y));
        bi := i;
      }
    }
    assert moves[..|moves|] == moves;
    FirstMaxUnique(measured, bi);
    best := found.value;
  }

  /** One pass of `ai_move`'s loop: the gain of moves[i] is measured and compared with `max_flips`. */
  lemma PickStep(s: seq<int>, moves: seq<Pos>, i: nat, color: int, measured: seq<int>, bi: int, maxFlips: int, flips: int)
    requires IsBoard(s) && AllInsideXY(moves) && i < |moves|
    requires AllInsideXY(moves[..i]) && measured == Gains(s, moves[..i], color)
    requires BestSoFar(measured, bi, maxFlips)
    requires flips == Gain(s, moves[i], color) && flips >= 0
    ensures AllInsideXY(moves[..i + 1]) && measured + [flips] == Gains(s, moves[..i + 1], color)
    ensures flips > maxFlips ==> BestSoFar(measured + [flips], i, flips)
    ensures flips <= maxFlips ==> BestSoFar(measured + [flips], bi, maxFlips)
  {
    GainsStep(s, moves, i, color, flips);
    BestStep(measured, bi, maxFlips, flips);
  }

  /**
    The state of `ai_move`'s loop after the gains g: nothing yet with `max_flips = -1`, else the
    index bi of the first largest gain, whose gain is `max_flips`.
  */
  ghost predicate BestSoFar(g: seq<int>, bi: int, maxFlips: int)
  {
    (g == [] ==> maxFlips == -1 && bi == 0) &&
    (g != [] ==>
      0 <= bi < |g| && maxFlips == g[bi] &&
      (forall j :: 0 <= j < bi ==> g[j] < maxFlips) && (forall j :: 0 <= j < |g| ==> g[j] <= maxFlips))
  }

  /** A gain larger than `max_flips` takes over; any other keeps the current best. */
  lemma BestStep(g: seq<int>, bi: int, maxFlips: int, v: int)
    requires BestSoFar(g, bi, maxFlips) && v >= 0
    ensures v > maxFlips ==> BestSoFar(g + [v], |g|, v)
    ensures v <= maxFlips ==> BestSoFar(g + [v], bi, maxFlips)
  {
  }

  /** The first index of a largest value is `FirstMax`. */
  lemma FirstMaxUnique(g: seq<int>, b: int)
    requires 0 <= b < |g| && BestSoFar(g, b, g[b])
    ensures FirstMax(g, |g|) == b
  {
    FirstMaxIsFirst(g, |g|);
  }

  /** The body of `ai_move`'s loop: the gain of (x, y), measured by placing on a copy of the board. */
  method GainOf(board: array<int>, x: int, y: int, color: int) returns (flips: int)
    requires board.Length == 64 && InsideXY(x, y) && IsPlayer(color)
    ensures flips == Gain(board[..], (x, y), color) && flips >= 0
  {
    GainNonNegative(board[..], (x, y), color);
    var temp := new int[64](j requires 0 <= j < 64 reads board => board[j]);
    assert temp[..] == board[..];
    PlaceStone(temp, x, y, color);
    flips := Count(temp[..], color) - Count(board[..], color);
    CountIsMultiset(temp[..], color);
    CountIsMultiset(board[..], color);
  }

  /** The program's globals: the board and whose turn it is. */
  class PlotGame {
    var board: array<int>
    var turn: int

    ghost predicate Valid()
      reads this
    {
      board.Length == 64 && IsPlayer(turn)
    }

    /** Module start-up: the starting board, BLACK to move. */
    constructor ()
      ensures Valid() && board[..] == InitBoard() && turn == BLACK
    {
      var b := new int[64](i => if i == 27 || i == 36 then WHITE else if i == 28 || i == 35 then BLACK else EMPTY);
      assert b[..] == InitBoard();
      board := b;
      turn := BLACK;
    }

    /** `ai_turn`: the computer moves if it can, and the turn is negated either way. */
    method AiTurn()
      requires Valid()
      modifies this, board
      ensures Valid() && board == old(board)
      ensures board[..] == AfterAi(old(board[..]), old(turn)) && turn == -old(turn)
    {
      var move := AiMove(board, turn);
      if move.Some? {
        MovesExactly(board[..], turn);
        PlaceStone(board, move.value.0, move.value.1, turn);
      }
      turn := -turn;
    }

    /**
      `onclick`: `click` is the pair of truncated data coordinates, or None outside the axes.
      Only on BLACK's turn, and only on a move of BLACK, the stone is placed and the computer
      answers; the turn is then BLACK's again.
    */
    method OnClick(click: Option<(int, int)>)
      requires Valid()
      modifies this, board
      ensures Valid() && board == old(board) && turn == old(turn)
      ensures click.Some? && old(turn) == BLACK && IsMove(old(board[..]), click.value.0, 8 - click.value.1 - 1, BLACK) ==>
        board[..] == AfterAi(Placed(old(board[..]), click.value.0, 8 - click.value.1 - 1, BLACK), WHITE)
      ensures !(click.Some? && old(turn) == BLACK && IsMove(old(board[..]), click.value.0, 8 - click.value.1 - 1, BLACK)) ==>
        board[..] == old(board[..])
    {
      if click.None? {
        return;
      }
      if turn != BLACK {
        return;
      }
      var x, y := click.value.0, 8 - click.value.1 - 1;
      var moves := ValidMoves(board, turn);
      MovesExactly(board[..], turn);
      if (x, y) in moves {
        PlaceStone(board, x, y, turn);
        turn := turn * -1;
        AiTurn();
      }
    }
  }
}
