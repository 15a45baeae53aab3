/**
  Geometry and capture rules of the 8x8 Othello board, shared by the engine models.

  A board is a sequence of 64 cells in row-major order: the cell at position
  (a, b) is at index 8*a + b. The cell type is generic, so the same rules serve
  the JavaScript engine (colours and null) and the Python engines (numpy ints).
  A direction is a pair of offsets in -1..1, not both zero.
*/
module Rays {
  import opened Wrappers

  type Pos = (int, int)

  predicate Inside(p: Pos)
  {
    0 <= p.0 < 8 && 0 <= p.1 < 8
  }

  predicate AllInside(ps: seq<Pos>)
  {
    forall i :: 0 <= i < |ps| ==> Inside(ps[i])
  }

  function Idx(p: Pos): nat
    requires Inside(p)
  {
    8 * p.0 + p.1
  }

  predicate IsBoard<T>(s: seq<T>)
  {
    |s| == 64
  }

  predicate IsDir(d: Pos)
  {
    -1 <= d.0 <= 1 && -1 <= d.1 <= 1 && d != (0, 0)
  }

  predicate AllDirs(ds: seq<Pos>)
  {
    forall i :: 0 <= i < |ds| ==> IsDir(ds[i])
  }

  function Next(p: Pos, d: Pos): Pos
  {
    (p.0 + d.0, p.1 + d.1)
  }

  /** k * x for an offset x in -1..1, written without multiplication. */
  function Scale(k: int, x: int): int
  {
    if x == 1 then k else if x == -1 then -k else 0
  }

  /** The position k steps away from p in direction d. */
  function Step(p: Pos, d: Pos, k: int): Pos
  {
    (p.0 + Scale(k, d.0), p.1 + Scale(k, d.1))
  }

  /** How many cells of the ray from p in direction d (p included) lie on the board. */
  function Reach(p: Pos, d: Pos): nat
  {
    if !Inside(p) then 0
    else if d.0 == 1 then 8 - p.0
    else if d.0 == -1 then p.0 + 1
    else if d.1 == 1 then 8 - p.1
    else p.1 + 1
  }

  /** The maximal run of `opp` cells that starts at p and goes in direction d. */
  function Run<T(==)>(s: seq<T>, p: Pos, d: Pos, opp: T): seq<Pos>
    requires IsBoard(s) && IsDir(d)
    decreases Reach(p, d)
  {
    if Inside(p) && s[Idx(p)] == opp then [p] + Run(s, Next(p, d), d, opp) else []
  }

  /** Walking from p in direction d over `opp` cells, the first other cell is on the board and holds `mine`. */
  predicate Closed<T(==)>(s: seq<T>, p: Pos, d: Pos, mine: T, opp: T)
    requires IsBoard(s) && IsDir(d)
    decreases Reach(p, d)
  {
    Inside(p) && (if s[Idx(p)] == opp then Closed(s, Next(p, d), d, mine, opp) else s[Idx(p)] == mine)
  }

  /** One step of a ray walk: how Run and Closed continue from p. */
  lemma RunHead<T>(s: seq<T>, p: Pos, d: Pos, mine: T, opp: T)
    requires IsBoard(s) && IsDir(d)
    ensures Inside(p) && s[Idx(p)] == opp ==>
      Run(s, p, d, opp) == [p] + Run(s, Next(p, d), d, opp) &&
      Closed(s, p, d, mine, opp) == Closed(s, Next(p, d), d, mine, opp)
    ensures !(Inside(p) && s[Idx(p)] == opp) ==>
      Run(s, p, d, opp) == [] &&
      Closed(s, p, d, mine, opp) == (Inside(p) && s[Idx(p)] == mine)
  {
  }

  /** The loop invariant of a walk from Next(t, d) over `opp` cells that has reached q, collecting `cells`. */
  predicate Walked<T(==)>(s: seq<T>, t: Pos, d: Pos, mine: T, opp: T, q: Pos, cells: seq<Pos>)
    requires IsBoard(s) && IsDir(d)
  {
    cells + Run(s, q, d, opp) == Run(s, Next(t, d), d, opp) &&
    Closed(s, q, d, mine, opp) == Closed(s, Next(t, d), d, mine, opp)
  }

  /** One more `opp` cell walked over. */
  lemma WalkStep<T>(s: seq<T>, t: Pos, d: Pos, mine: T, opp: T, q: Pos, cells: seq<Pos>)
    requires IsBoard(s) && IsDir(d) && Walked(s, t, d, mine, opp, q, cells)
    requires Inside(q) && s[Idx(q)] == opp
    ensures Walked(s, t, d, mine, opp, Next(q, d), cells + [q])
    ensures Reach(Next(q, d), d) < Reach(q, d)
  {
    RunHead(s, q, d, mine, opp);
    assert cells + [q] + Run(s, Next(q, d), d, opp) == cells + ([q] + Run(s, Next(q, d), d, opp));
  }

  /**
    Where the walk stops: the collected cells are the whole run; if a `mine` cell stops it they
    are the captures (flipping them is flipping the captures), otherwise nothing is captured.
  */
  lemma WalkEnd<T>(s: seq<T>, t: Pos, d: Pos, mine: T, opp: T, q: Pos, cells: seq<Pos>)
    requires IsBoard(s) && IsDir(d) && Walked(s, t, d, mine, opp, q, cells)
    requires !(Inside(q) && s[Idx(q)] == opp)
    ensures cells == Run(s, Next(t, d), d, opp) && AllInside(cells)
    ensures Inside(q) && s[Idx(q)] == mine ==> cells == Captured(s, t, d, mine, opp)
    ensures !(Inside(q) && s[Idx(q)] == mine) ==> Captured(s, t, d, mine, opp) == []
  {
    RunHead(s, q, d, mine, opp);
    RunInside(s, Next(t, d), d, opp);
  }

  /** Where a walk stops: it captures iff it walked over some `opp` cell and stopped on a `mine` cell. */
  lemma WalkClosed<T>(s: seq<T>, t: Pos, d: Pos, mine: T, opp: T, q: Pos, cells: seq<Pos>)
    requires IsBoard(s) && IsDir(d) && Walked(s, t, d, mine, opp, q, cells)
    requires !(Inside(q) && s[Idx(q)] == opp)
    ensures (|cells| > 0 && Inside(q) && s[Idx(q)] == mine) == (|Captured(s, t, d, mine, opp)| > 0)
  {
    WalkEnd(s, t, d, mine, opp, q, cells);
  }

  /** Where a walk stops: the cells to flip, which are the captured ones when `mine` closes them, and none otherwise. */
  lemma WalkFlips<T>(s: seq<T>, t: Pos, d: Pos, mine: T, opp: T, q: Pos, cells: seq<Pos>)
    requires IsBoard(s) && IsDir(d) && Walked(s, t, d, mine, opp, q, cells)
    requires !(Inside(q) && s[Idx(q)] == opp)
    ensures AllInside(cells)
    ensures Inside(q) && s[Idx(q)] == mine ==> cells == Captured(s, t, d, mine, opp)
    ensures !(Inside(q) && s[Idx(q)] == mine) ==> Flip(s, Captured(s, t, d, mine, opp), mine) == s
  {
    WalkEnd(s, t, d, mine, opp, q, cells);
  }

  /** The cells a move at t captures in direction d: a non-empty run of `opp` closed by `mine`. */
  function Captured<T(==)>(s: seq<T>, t: Pos, d: Pos, mine: T, opp: T): (cap: seq<Pos>)
    requires IsBoard(s) && IsDir(d)
    ensures AllInside(cap)
  {
    RunInside(s, Next(t, d), d, opp);
    var run := Run(s, Next(t, d), d, opp);
    if |run| > 0 && Closed(s, Next(t, d), d, mine, opp) then run else []
  }

  /** The captures of a move at t over the directions ds, concatenated in the order of ds. */
  function AllCaptured<T(==)>(s: seq<T>, t: Pos, ds: seq<Pos>, mine: T, opp: T): (cap: seq<Pos>)
    requires IsBoard(s) && AllDirs(ds)
    ensures AllInside(cap)
  {
    if ds == [] then []
    else AllCaptured(s, t, ds[..|ds| - 1], mine, opp) + Captured(s, t, ds[|ds| - 1], mine, opp)
  }

  /**
    Reference definition of a capturing direction, by positions: the cells 1..n-1 steps
    away from t hold `opp` and the cell n steps away (n >= 2) holds `mine`.
  */
  ghost predicate Brackets<T>(s: seq<T>, t: Pos, d: Pos, mine: T, opp: T)
    requires IsBoard(s)
  {
    exists n :: n >= 2 && Inside(Step(t, d, n)) && s[Idx(Step(t, d, n))] == mine &&
      forall k :: 1 <= k < n ==> Inside(Step(t, d, k)) && s[Idx(Step(t, d, k))] == opp
  }

  /**
    Reference definition of a captured cell, by positions: q is k steps from t on a ray whose
    cells 1..n-1 hold `opp` and whose cell n (k < n) holds `mine`.
  */
  ghost predicate InClosedRun<T>(s: seq<T>, t: Pos, d: Pos, mine: T, opp: T, q: Pos)
    requires IsBoard(s)
  {
    exists n :: n >= 2 && Inside(Step(t, d, n)) && s[Idx(Step(t, d, n))] == mine &&
      (forall j :: 1 <= j < n ==> Inside(Step(t, d, j)) && s[Idx(Step(t, d, j))] == opp) &&
      exists k :: 1 <= k < n && q == Step(t, d, k)
  }

  /** Sets every listed cell to v, one after the other. */
  function Flip<T>(s: seq<T>, ps: seq<Pos>, v: T): (r: seq<T>)
    requires IsBoard(s) && AllInside(ps)
    ensures IsBoard(r)
  {
    if ps == [] then s else Flip(s, ps[..|ps| - 1], v)[Idx(ps[|ps| - 1]) := v]
  }

  /** A move at t by `mine`: the target and every captured cell become `mine`. */
  function PlaceAll<T(==)>(s: seq<T>, t: Pos, ds: seq<Pos>, mine: T, opp: T): seq<T>
    requires IsBoard(s) && Inside(t) && AllDirs(ds)
  {
    Flip(s[Idx(t) := mine], AllCaptured(s, t, ds, mine, opp), mine)
  }

  /**
    The same move as the Python engines perform it: with the target already set,
    each direction in turn is walked on the board as earlier directions left it.
  */
  function PlaceSeq<T(==)>(s: seq<T>, t: Pos, ds: seq<Pos>, mine: T, opp: T): seq<T>
    requires IsBoard(s) && AllDirs(ds)
    ensures IsBoard(PlaceSeq(s, t, ds, mine, opp))
  {
    if ds == [] then s
    else
      var b := PlaceSeq(s, t, ds[..|ds| - 1], mine, opp);
      Flip(b, Captured(b, t, ds[|ds| - 1], mine, opp), mine)
  }

  /** One more direction of `AllCaptured`: its captures are appended. */
  lemma AllCapturedStep<T>(s: seq<T>, t: Pos, ds: seq<Pos>, i: nat, mine: T, opp: T)
    requires IsBoard(s) && AllDirs(ds) && i < |ds|
    ensures AllDirs(ds[..i]) && AllDirs(ds[..i + 1])
    ensures AllCaptured(s, t, ds[..i + 1], mine, opp) == AllCaptured(s, t, ds[..i], mine, opp) + Captured(s, t, ds[i], mine, opp)
  {
    assert ds[..i + 1][..i] == ds[..i];
  }

  /** One more direction of `PlaceSeq`: the board so far, with that direction's captures flipped. */
  lemma PlaceSeqStep<T>(s: seq<T>, t: Pos, ds: seq<Pos>, i: nat, mine: T, opp: T)
    requires IsBoard(s) && AllDirs(ds) && i < |ds|
    ensures AllDirs(ds[..i]) && AllDirs(ds[..i + 1])
    ensures var b := PlaceSeq(s, t, ds[..i], mine, opp);
      PlaceSeq(s, t, ds[..i + 1], mine, opp) == Flip(b, Captured(b, t, ds[i], mine, opp), mine)
  {
    assert ds[..i + 1][..i] == ds[..i];
  }

  /** The number of cells holding v, counted cell by cell as `np.sum(board == v)` does. */
  function Count<T(==)>(s: seq<T>, v: T): nat
  {
    if s == [] then 0 else Count(s[..|s| - 1], v) + (if s[|s| - 1] == v then 1 else 0)
  }

  /** The count is the multiplicity of v in the board's multiset of cells. */
  lemma {:induction false} CountIsMultiset<T>(s: seq<T>, v: T)
    ensures Count(s, v) == multiset(s)[v]
  {
    if s != [] {
      CountIsMultiset(s[..|s| - 1], v);
      assert s == s[..|s| - 1] + [s[|s| - 1]];
    }
  }

  // ---------------------------------------------------------------------------
  // Basic facts

  lemma StepNext(p: Pos, d: Pos, k: int)
    requires IsDir(d)
    ensures Step(Next(p, d), d, k) == Step(p, d, k + 1)
    ensures Step(p, d, 0) == p && Step(p, d, 1) == Next(p, d)
  {
  }

  function Sign(x: int): int
  {
    if x > 0 then 1 else if x < 0 then -1 else 0
  }

  function Abs(x: int): nat
  {
    if x < 0 then -x else x
  }

  /** q lies on the ray from t in direction d, t itself excluded. */
  predicate OnRay(t: Pos, d: Pos, q: Pos)
  {
    var dr, dc := q.0 - t.0, q.1 - t.1;
    (dr, dc) != (0, 0) && Sign(dr) == d.0 && Sign(dc) == d.1 && (dr != 0 && dc != 0 ==> Abs(dr) == Abs(dc))
  }

  lemma StepOnRay(t: Pos, d: Pos, k: int)
    requires IsDir(d) && k >= 1
    ensures OnRay(t, d, Step(t, d, k))
  {
  }

  /** Cells 1 or more steps away from t in one direction are all different. */
  lemma StepInjective(t: Pos, d: Pos, k1: int, k2: int)
    requires IsDir(d) && k1 >= 1 && k2 >= 1
    requires Step(t, d, k1) == Step(t, d, k2)
    ensures k1 == k2
  {
  }

  lemma RunInside<T>(s: seq<T>, p: Pos, d: Pos, opp: T)
    requires IsBoard(s) && IsDir(d)
    ensures AllInside(Run(s, p, d, opp))
  {
    RunShape(s, p, d, opp);
  }

  /** The run is the ray from p cell by cell, all `opp`, and the cell after it is not an `opp` cell. */
  lemma {:induction false} RunShape<T>(s: seq<T>, p: Pos, d: Pos, opp: T)
    requires IsBoard(s) && IsDir(d)
    ensures var run := Run(s, p, d, opp);
      forall i :: 0 <= i < |run| ==> run[i] == Step(p, d, i) && Inside(run[i]) && s[Idx(run[i])] == opp
    ensures var n := |Run(s, p, d, opp)|;
      !(Inside(Step(p, d, n)) && s[Idx(Step(p, d, n))] == opp)
    decreases Reach(p, d)
  {
    if Inside(p) && s[Idx(p)] == opp {
      var q := Next(p, d);
      RunShape(s, q, d, opp);
      var run := Run(s, p, d, opp);
      forall i | 0 <= i < |run|
        ensures run[i] == Step(p, d, i)
      {
        if i > 0 {
          StepNext(p, d, i - 1);
        }
      }
      StepNext(p, d, |Run(s, q, d, opp)|);
    }
  }

  /** A closed walk ends, after the run, on a cell holding `mine`. */
  lemma {:induction false} ClosedEnd<T>(s: seq<T>, p: Pos, d: Pos, mine: T, opp: T)
    requires IsBoard(s) && IsDir(d)
    requires Closed(s, p, d, mine, opp)
    ensures var n := |Run(s, p, d, opp)|;
      Inside(Step(p, d, n)) && s[Idx(Step(p, d, n))] == mine
    decreases Reach(p, d)
  {
    if s[Idx(p)] == opp {
      ClosedEnd(s, Next(p, d), d, mine, opp);
      StepNext(p, d, |Run(s, Next(p, d), d, opp)|);
    }
  }

  /** Conversely, m `opp` cells followed by a `mine` cell make a closed run of length m. */
  lemma {:induction false} RunUpTo<T>(s: seq<T>, p: Pos, d: Pos, mine: T, opp: T, m: nat)
    requires IsBoard(s) && IsDir(d) && mine != opp
    requires forall k :: 0 <= k < m ==> Inside(Step(p, d, k)) && s[Idx(Step(p, d, k))] == opp
    requires Inside(Step(p, d, m)) && s[Idx(Step(p, d, m))] == mine
    ensures |Run(s, p, d, opp)| == m && Closed(s, p, d, mine, opp)
    decreases m
  {
    StepNext(p, d, 0);
    if m > 0 {
      forall k | 0 <= k < m - 1
        ensures Inside(Step(Next(p, d), d, k)) && s[Idx(Step(Next(p, d), d, k))] == opp
      {
        StepNext(p, d, k);
      }
      StepNext(p, d, m - 1);
      RunUpTo(s, Next(p, d), d, mine, opp, m - 1);
    }
  }

  // ---------------------------------------------------------------------------
  // Captures in one direction

  /** The captured cells are the cells 1, 2, ... steps from t, all `opp`, closed by a `mine` cell. */
  lemma CapturedShape<T>(s: seq<T>, t: Pos, d: Pos, mine: T, opp: T)
    requires IsBoard(s) && IsDir(d)
    ensures var cap := Captured(s, t, d, mine, opp);
      forall i :: 0 <= i < |cap| ==> cap[i] == Step(t, d, i + 1) && Inside(cap[i]) && s[Idx(cap[i])] == opp
    ensures var cap := Captured(s, t, d, mine, opp);
      |cap| > 0 ==> Inside(Step(t, d, |cap| + 1)) && s[Idx(Step(t, d, |cap| + 1))] == mine
  {
    var q := Next(t, d);
    RunShape(s, q, d, opp);
    var cap := Captured(s, t, d, mine, opp);
    forall i | 0 <= i < |cap|
      ensures cap[i] == Step(t, d, i + 1)
    {
      StepNext(t, d, i);
    }
    if |cap| > 0 {
      ClosedEnd(s, q, d, mine, opp);
      StepNext(t, d, |cap|);
    }
  }

  /** The recursive capture rule agrees with the positional reference definition. */
  lemma CapturedIffBrackets<T>(s: seq<T>, t: Pos, d: Pos, mine: T, opp: T)
    requires IsBoard(s) && IsDir(d) && mine != opp
    ensures |Captured(s, t, d, mine, opp)| > 0 <==> Brackets(s, t, d, mine, opp)
  {
    var cap := Captured(s, t, d, mine, opp);
    if |cap| > 0 {
      CapturedShape(s, t, d, mine, opp);
      var n := |cap| + 1;
      forall k | 1 <= k < n
        ensures Inside(Step(t, d, k)) && s[Idx(Step(t, d, k))] == opp
      {
        assert cap[k - 1] == Step(t, d, k);
      }
      assert Inside(Step(t, d, n)) && s[Idx(Step(t, d, n))] == mine;
    }
    if Brackets(s, t, d, mine, opp) {
      var n :| n >= 2 && Inside(Step(t, d, n)) && s[Idx(Step(t, d, n))] == mine &&
        forall k :: 1 <= k < n ==> Inside(Step(t, d, k)) && s[Idx(Step(t, d, k))] == opp;
      var q := Next(t, d);
      forall k | 0 <= k < n - 1
        ensures Inside(Step(q, d, k)) && s[Idx(Step(q, d, k))] == opp
      {
        StepNext(t, d, k);
      }
      StepNext(t, d, n - 1);
      RunUpTo(s, q, d, mine, opp, n - 1);
    }
  }

  /** A cell is captured in direction d iff it lies in a closed run of that direction. */
  lemma CapturedIffClosedRun<T>(s: seq<T>, t: Pos, d: Pos, mine: T, opp: T, q: Pos)
    requires IsBoard(s) && IsDir(d) && mine != opp
    ensures q in Captured(s, t, d, mine, opp) <==> InClosedRun(s, t, d, mine, opp, q)
  {
    if q in Captured(s, t, d, mine, opp) {
      CapturedInClosedRun(s, t, d, mine, opp, q);
    }
    if InClosedRun(s, t, d, mine, opp, q) {
      ClosedRunCaptured(s, t, d, mine, opp, q);
    }
  }

  lemma CapturedInClosedRun<T>(s: seq<T>, t: Pos, d: Pos, mine: T, opp: T, q: Pos)
    requires IsBoard(s) && IsDir(d) && mine != opp && q in Captured(s, t, d, mine, opp)
    ensures InClosedRun(s, t, d, mine, opp, q)
  {
    var cap := Captured(s, t, d, mine, opp);
    CapturedShape(s, t, d, mine, opp);
    var j :| 0 <= j < |cap| && cap[j] == q;
    var n := |cap| + 1;
    forall k | 1 <= k < n
      ensures Inside(Step(t, d, k)) && s[Idx(Step(t, d, k))] == opp
    {
      assert cap[k - 1] == Step(t, d, k);
    }
    assert q == Step(t, d, j + 1);
    assert Inside(Step(t, d, n)) && s[Idx(Step(t, d, n))] == mine;
  }

  lemma ClosedRunCaptured<T>(s: seq<T>, t: Pos, d: Pos, mine: T, opp: T, q: Pos)
    requires IsBoard(s) && IsDir(d) && mine != opp && InClosedRun(s, t, d, mine, opp, q)
    ensures q in Captured(s, t, d, mine, opp)
  {
    var n :| n >= 2 && Inside(Step(t, d, n)) && s[Idx(Step(t, d, n))] == mine &&
      (forall j :: 1 <= j < n ==> Inside(Step(t, d, j)) && s[Idx(Step(t, d, j))] == opp) &&
      exists k :: 1 <= k < n && q == Step(t, d, k);
    var k :| 1 <= k < n && q == Step(t, d, k);
    assert Brackets(s, t, d, mine, opp);
    CapturedIffBrackets(s, t, d, mine, opp);
    var cap := Captured(s, t, d, mine, opp);
    CapturedShape(s, t, d, mine, opp);
    // both n and |cap| + 1 are the first cell of the ray that does not hold `opp`
    forall j | 1 <= j <= |cap|
      ensures s[Idx(Step(t, d, j))] == opp
    {
      assert cap[j - 1] == Step(t, d, j);
    }
    assert k - 1 < |cap|;
    assert cap[k - 1] == q;
  }

  /** A cell is captured over ds iff it lies in a closed run of one of the directions of ds. */
  lemma AllCapturedIffClosedRun<T>(s: seq<T>, t: Pos, ds: seq<Pos>, mine: T, opp: T, q: Pos)
    requires IsBoard(s) && AllDirs(ds) && mine != opp
    ensures q in AllCaptured(s, t, ds, mine, opp) <==>
      exists i :: 0 <= i < |ds| && InClosedRun(s, t, ds[i], mine, opp, q)
  {
    AllCapturedMember(s, t, ds, mine, opp, q);
    forall i | 0 <= i < |ds|
      ensures q in Captured(s, t, ds[i], mine, opp) <==> InClosedRun(s, t, ds[i], mine, opp, q)
    {
      CapturedIffClosedRun(s, t, ds[i], mine, opp, q);
    }
  }

  lemma CapturedNoDup<T>(s: seq<T>, t: Pos, d: Pos, mine: T, opp: T)
    requires IsBoard(s) && IsDir(d)
    ensures NoDup(Captured(s, t, d, mine, opp))
  {
    CapturedShape(s, t, d, mine, opp);
    var cap := Captured(s, t, d, mine, opp);
    forall i, j | 0 <= i < j < |cap|
      ensures cap[i] != cap[j]
    {
      if cap[i] == cap[j] {
        StepInjective(t, d, i + 1, j + 1);
      }
    }
  }

  // ---------------------------------------------------------------------------
  // Captures over a list of directions

  /** A cell is captured over ds iff it is captured in one of the directions of ds. */
  lemma {:induction false} AllCapturedMember<T>(s: seq<T>, t: Pos, ds: seq<Pos>, mine: T, opp: T, q: Pos)
    requires IsBoard(s) && AllDirs(ds)
    ensures q in AllCaptured(s, t, ds, mine, opp) <==>
      exists i :: 0 <= i < |ds| && q in Captured(s, t, ds[i], mine, opp)
  {
    if ds != [] {
      var init := ds[..|ds| - 1];
      AllCapturedMember(s, t, init, mine, opp, q);
      if q in AllCaptured(s, t, init, mine, opp) {
        var i :| 0 <= i < |init| && q in Captured(s, t, init[i], mine, opp);
        assert ds[i] == init[i];
      }
      if i :| 0 <= i < |ds| && q in Captured(s, t, ds[i], mine, opp) {
        if i < |ds| - 1 {
          assert init[i] == ds[i];
        }
      }
    }
  }

  /** Some direction of ds captures iff the capture list over ds is not empty. */
  lemma {:induction false} AllCapturedNonEmpty<T>(s: seq<T>, t: Pos, ds: seq<Pos>, mine: T, opp: T)
    requires IsBoard(s) && AllDirs(ds)
    ensures |AllCaptured(s, t, ds, mine, opp)| > 0 <==>
      exists i :: 0 <= i < |ds| && |Captured(s, t, ds[i], mine, opp)| > 0
  {
    if ds != [] {
      var init := ds[..|ds| - 1];
      AllCapturedNonEmpty(s, t, init, mine, opp);
      if i :| 0 <= i < |init| && |Captured(s, t, init[i], mine, opp)| > 0 {
        assert ds[i] == init[i];
      }
      if i :| 0 <= i < |ds| && |Captured(s, t, ds[i], mine, opp)| > 0 {
        if i < |ds| - 1 {
          assert init[i] == ds[i];
        }
      }
    }
  }

  /** Every captured cell is on the board, holds `opp` and lies on one of the rays of ds. */
  lemma {:induction false} AllCapturedCells<T>(s: seq<T>, t: Pos, ds: seq<Pos>, mine: T, opp: T)
    requires IsBoard(s) && AllDirs(ds)
    ensures forall q :: q in AllCaptured(s, t, ds, mine, opp) ==>
      Inside(q) && s[Idx(q)] == opp &&
      exists i :: 0 <= i < |ds| && OnRay(t, ds[i], q)
  {
    if ds != [] {
      var init := ds[..|ds| - 1];
      var last := ds[|ds| - 1];
      AllCapturedCells(s, t, init, mine, opp);
      CapturedShape(s, t, last, mine, opp);
      forall q | q in AllCaptured(s, t, ds, mine, opp)
        ensures Inside(q) && s[Idx(q)] == opp
        ensures exists i :: 0 <= i < |ds| && OnRay(t, ds[i], q)
      {
        if q in AllCaptured(s, t, init, mine, opp) {
          var i :| 0 <= i < |init| && OnRay(t, init[i], q);
          assert ds[i] == init[i];
        } else {
          var cap := Captured(s, t, last, mine, opp);
          var j :| 0 <= j < |cap| && cap[j] == q;
          StepOnRay(t, last, j + 1);
          assert OnRay(t, ds[|ds| - 1], q);
        }
      }
    }
  }

  lemma NoDupConcat<U>(a: seq<U>, b: seq<U>)
    requires NoDup(a) && NoDup(b) && forall x :: x in a ==> x !in b
    ensures NoDup(a + b)
  {
    var all := a + b;
    forall i, j | 0 <= i < j < |all|
      ensures all[i] != all[j]
    {
      if i < |a| && j >= |a| {
        assert all[i] in a && all[j] == b[j - |a|];
      } else if i >= |a| {
        assert all[i] == b[i - |a|] && all[j] == b[j - |a|];
      }
    }
  }

  /** With distinct directions, no cell is captured twice. */
  lemma {:induction false} AllCapturedNoDup<T>(s: seq<T>, t: Pos, ds: seq<Pos>, mine: T, opp: T)
    requires IsBoard(s) && AllDirs(ds) && NoDup(ds)
    ensures NoDup(AllCaptured(s, t, ds, mine, opp))
  {
    if ds != [] {
      var init := ds[..|ds| - 1];
      var last := ds[|ds| - 1];
      AllCapturedNoDup(s, t, init, mine, opp);
      CapturedNoDup(s, t, last, mine, opp);
      var a := AllCaptured(s, t, init, mine, opp);
      var b := Captured(s, t, last, mine, opp);
      forall x | x in a
        ensures x !in b
      {
        CapturedOffOtherRays(s, t, init, last, mine, opp, x);
      }
      NoDupConcat(a, b);
    }
  }

  /** A cell captured over ds is not on the ray of a direction outside ds. */
  lemma CapturedOffOtherRays<T>(s: seq<T>, t: Pos, ds: seq<Pos>, d: Pos, mine: T, opp: T, x: Pos)
    requires IsBoard(s) && AllDirs(ds) && IsDir(d) && d !in ds
    requires x in AllCaptured(s, t, ds, mine, opp)
    ensures x !in Captured(s, t, d, mine, opp)
  {
    AllCapturedCells(s, t, ds, mine, opp);
    CapturedShape(s, t, d, mine, opp);
    var m :| 0 <= m < |ds| && OnRay(t, ds[m], x);
    var b := Captured(s, t, d, mine, opp);
    if j :| 0 <= j < |b| && b[j] == x {
      StepOnRay(t, d, j + 1);
    }
  }

  /** The target of a move is never among its captures. */
  lemma TargetNotCaptured<T>(s: seq<T>, t: Pos, ds: seq<Pos>, mine: T, opp: T)
    requires IsBoard(s) && AllDirs(ds)
    ensures t !in AllCaptured(s, t, ds, mine, opp)
  {
    AllCapturedCells(s, t, ds, mine, opp);
  }

  /** Captures depend only on the cells of the rays from t (t itself excluded). */
  lemma {:induction false} RunFrame<T>(s: seq<T>, s': seq<T>, p: Pos, d: Pos, mine: T, opp: T)
    requires IsBoard(s) && IsBoard(s') && IsDir(d)
    requires forall k :: k >= 0 && Inside(Step(p, d, k)) ==> s[Idx(Step(p, d, k))] == s'[Idx(Step(p, d, k))]
    ensures Run(s, p, d, opp) == Run(s', p, d, opp)
    ensures Closed(s, p, d, mine, opp) == Closed(s', p, d, mine, opp)
    decreases Reach(p, d)
  {
    StepNext(p, d, 0);
    if Inside(p) {
      forall k | k >= 0 && Inside(Step(Next(p, d), d, k))
        ensures s[Idx(Step(Next(p, d), d, k))] == s'[Idx(Step(Next(p, d), d, k))]
      {
        StepNext(p, d, k);
      }
      RunFrame(s, s', Next(p, d), d, mine, opp);
    }
  }

  lemma CapturedFrame<T>(s: seq<T>, s': seq<T>, t: Pos, d: Pos, mine: T, opp: T)
    requires IsBoard(s) && IsBoard(s') && IsDir(d)
    requires forall k :: k >= 1 && Inside(Step(t, d, k)) ==> s[Idx(Step(t, d, k))] == s'[Idx(Step(t, d, k))]
    ensures Captured(s, t, d, mine, opp) == Captured(s', t, d, mine, opp)
  {
    forall k | k >= 0 && Inside(Step(Next(t, d), d, k))
      ensures s[Idx(Step(Next(t, d), d, k))] == s'[Idx(Step(Next(t, d), d, k))]
    {
      StepNext(t, d, k);
    }
    RunFrame(s, s', Next(t, d), d, mine, opp);
  }

  // ---------------------------------------------------------------------------
  // Flipping and counting

  /** After flipping, a listed cell holds v and every other cell is unchanged. */
  lemma {:induction false} FlipAt<T>(s: seq<T>, ps: seq<Pos>, v: T)
    requires IsBoard(s) && AllInside(ps)
    ensures forall q :: Inside(q) ==> Flip(s, ps, v)[Idx(q)] == if q in ps then v else s[Idx(q)]
  {
    if ps != [] {
      var init := ps[..|ps| - 1];
      FlipAt(s, init, v);
      forall q | Inside(q)
        ensures Flip(s, ps, v)[Idx(q)] == if q in ps then v else s[Idx(q)]
      {
        assert q in ps <==> q in init || q == ps[|ps| - 1] by {
          assert ps == init + [ps[|ps| - 1]];
        }
      }
    }
  }

  lemma {:induction false} FlipAppend<T>(s: seq<T>, a: seq<Pos>, b: seq<Pos>, v: T)
    requires IsBoard(s) && AllInside(a) && AllInside(b)
    ensures Flip(Flip(s, a, v), b, v) == Flip(s, a + b, v)
  {
    if b == [] {
      assert a + b == a;
    } else {
      var init := b[..|b| - 1];
      FlipAppend(s, a, init, v);
      assert (a + b)[..|a + b| - 1] == a + init;
      assert (a + b)[|a + b| - 1] == b[|b| - 1];
    }
  }

  /** Flipping distinct `opp` cells to v moves exactly |ps| cells from `opp` to v. */
  lemma {:induction false} FlipCount<T>(s: seq<T>, ps: seq<Pos>, v: T, opp: T)
    requires IsBoard(s) && AllInside(ps) && NoDup(ps) && v != opp
    requires forall q :: q in ps ==> s[Idx(q)] == opp
    ensures multiset(Flip(s, ps, v))[v] == multiset(s)[v] + |ps|
    ensures multiset(Flip(s, ps, v))[opp] == multiset(s)[opp] - |ps|
  {
    if ps != [] {
      var init := ps[..|ps| - 1];
      var last := ps[|ps| - 1];
      FlipCount(s, init, v, opp);
      FlipAt(s, init, v);
      assert last !in init;
      var b := Flip(s, init, v);
      assert b[Idx(last)] == opp;
      assert multiset(b[Idx(last) := v]) == multiset(b) - multiset{opp} + multiset{v};
    }
  }

  /** Flipping to v never lowers the number of v cells. */
  lemma {:induction false} FlipMonotone<T>(s: seq<T>, ps: seq<Pos>, v: T)
    requires IsBoard(s) && AllInside(ps)
    ensures multiset(Flip(s, ps, v))[v] >= multiset(s)[v]
  {
    if ps != [] {
      var init := ps[..|ps| - 1];
      FlipMonotone(s, init, v);
      var b := Flip(s, init, v);
      var i := Idx(ps[|ps| - 1]);
      assert multiset(b[i := v]) == multiset(b) - multiset{b[i]} + multiset{v};
    }
  }

  lemma {:induction false} CountPair<T>(s: seq<T>, a: T, b: T)
    requires a != b
    ensures multiset(s)[a] + multiset(s)[b] <= |s|
  {
    if s != [] {
      CountPair(s[1..], a, b);
      assert s == [s[0]] + s[1..];
    }
  }

  // ---------------------------------------------------------------------------
  // Whole moves

  /**
    A move onto a cell that holds neither colour: every other cell is unchanged apart from the
    captures, the mover gains the target and the captures; the opponent loses the captures.
  */
  lemma PlaceAllEffect<T>(s: seq<T>, t: Pos, ds: seq<Pos>, mine: T, opp: T)
    requires IsBoard(s) && Inside(t) && AllDirs(ds) && NoDup(ds)
    requires mine != opp && s[Idx(t)] != mine && s[Idx(t)] != opp
    ensures var after := PlaceAll(s, t, ds, mine, opp);
      var flips := AllCaptured(s, t, ds, mine, opp);
      IsBoard(after) &&
      (forall q :: Inside(q) ==> after[Idx(q)] == if q == t || q in flips then mine else s[Idx(q)]) &&
      multiset(after)[mine] == multiset(s)[mine] + |flips| + 1 &&
      multiset(after)[opp] == multiset(s)[opp] - |flips|
  {
    var flips := AllCaptured(s, t, ds, mine, opp);
    var s1 := s[Idx(t) := mine];
    AllCapturedCells(s, t, ds, mine, opp);
    AllCapturedNoDup(s, t, ds, mine, opp);
    TargetNotCaptured(s, t, ds, mine, opp);
    FlipAt(s1, flips, mine);
    assert multiset(s1) == multiset(s) - multiset{s[Idx(t)]} + multiset{mine};
    forall q | q in flips
      ensures s1[Idx(q)] == opp
    {
      assert q != t;
    }
    FlipCount(s1, flips, mine, opp);
  }

  /** The counting half of `PlaceAllEffect`. */
  lemma PlaceAllCounts<T>(s: seq<T>, t: Pos, ds: seq<Pos>, mine: T, opp: T)
    requires IsBoard(s) && Inside(t) && AllDirs(ds) && NoDup(ds)
    requires mine != opp && s[Idx(t)] != mine && s[Idx(t)] != opp
    ensures multiset(PlaceAll(s, t, ds, mine, opp))[mine] == multiset(s)[mine] + |AllCaptured(s, t, ds, mine, opp)| + 1
    ensures multiset(PlaceAll(s, t, ds, mine, opp))[opp] == multiset(s)[opp] - |AllCaptured(s, t, ds, mine, opp)|
  {
    PlaceAllEffect(s, t, ds, mine, opp);
  }

  /** Walking the directions one after the other gives the same board as flipping all captures at once. */
  lemma {:induction false} PlaceSeqIsPlaceAll<T>(s: seq<T>, t: Pos, ds: seq<Pos>, mine: T, opp: T)
    requires IsBoard(s) && Inside(t) && AllDirs(ds) && NoDup(ds)
    ensures PlaceSeq(s[Idx(t) := mine], t, ds, mine, opp) == PlaceAll(s, t, ds, mine, opp)
  {
    SeqAgainstStart(s, s[Idx(t) := mine], t, ds, mine, opp);
  }

  /** The stone set at t, then each direction of ds walked in turn. */
  function PlaceAt<T(==)>(s: seq<T>, t: Pos, ds: seq<Pos>, mine: T, opp: T): seq<T>
    requires IsBoard(s) && Inside(t) && AllDirs(ds)
  {
    PlaceSeq(s[Idx(t) := mine], t, ds, mine, opp)
  }

  /** Setting the stone and then walking the directions is the move that flips all captures at once. */
  lemma PlaceAtIsPlaceAll<T>(s: seq<T>, t: Pos, ds: seq<Pos>, mine: T, opp: T)
    requires IsBoard(s) && Inside(t) && AllDirs(ds) && NoDup(ds)
    ensures PlaceAt(s, t, ds, mine, opp) == PlaceAll(s, t, ds, mine, opp)
  {
    PlaceSeqIsPlaceAll(s, t, ds, mine, opp);
  }

  lemma {:induction false} SeqAgainstStart<T>(s: seq<T>, s1: seq<T>, t: Pos, ds: seq<Pos>, mine: T, opp: T)
    requires IsBoard(s) && Inside(t) && AllDirs(ds) && NoDup(ds) && s1 == s[Idx(t) := mine]
    ensures PlaceSeq(s1, t, ds, mine, opp) == Flip(s1, AllCaptured(s, t, ds, mine, opp), mine)
  {
    if ds != [] {
      var init := ds[..|ds| - 1];
      var last := ds[|ds| - 1];
      assert NoDup(init) && last !in init && ds == init + [last];
      SeqAgainstStart(s, s1, t, init, mine, opp);
      var a := AllCaptured(s, t, init, mine, opp);
      var b := Flip(s1, a, mine);
      OffRay(s, s1, t, init, last, mine, opp);
      CapturedFrame(b, s, t, last, mine, opp);
      var cap := Captured(s, t, last, mine, opp);
      FlipAppend(s1, a, cap, mine);
    }
  }

  /**
    After the target is set and the captures of the directions ds are flipped, the ray of a
    further direction still reads as on the starting board: t and those captures lie elsewhere.
  */
  lemma OffRay<T>(s: seq<T>, s1: seq<T>, t: Pos, ds: seq<Pos>, d: Pos, mine: T, opp: T)
    requires IsBoard(s) && Inside(t) && AllDirs(ds) && IsDir(d) && d !in ds && s1 == s[Idx(t) := mine]
    ensures var b := Flip(s1, AllCaptured(s, t, ds, mine, opp), mine);
      forall k :: k >= 1 && Inside(Step(t, d, k)) ==> b[Idx(Step(t, d, k))] == s[Idx(Step(t, d, k))]
  {
    var a := AllCaptured(s, t, ds, mine, opp);
    var b := Flip(s1, a, mine);
    FlipAt(s1, a, mine);
    AllCapturedCells(s, t, ds, mine, opp);
    forall k | k >= 1 && Inside(Step(t, d, k))
      ensures b[Idx(Step(t, d, k))] == s[Idx(Step(t, d, k))]
    {
      StepOnRay(t, d, k);
    }
  }
}
