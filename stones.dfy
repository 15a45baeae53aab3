/** Disc colours and the opening position of the JavaScript Othello pages. */
module Stones {
  import opened Rays

  /** "black" and "white". */
  datatype Color = Black | White

  /** A board cell: `null` or a colour string. */
  datatype Cell = Empty | Disc(color: Color)

  function Opponent(c: Color): (o: Color)
    ensures o != c
  {
    if c == Black then White else Black
  }

  /** The opening position: white on (3,3) and (4,4), black on (3,4) and (4,3), the rest empty. */
  function InitialBoard(): (s: seq<Cell>)
    ensures IsBoard(s)
  {
    // indices 27 = (3,3), 28 = (3,4), 35 = (4,3), 36 = (4,4)
    seq(64, i => if i == 27 || i == 36 then Disc(White) else if i == 28 || i == 35 then Disc(Black) else Empty)
  }

  /** The opening position cell by cell. */
  lemma InitialCells()
    ensures forall p :: Inside(p) ==>
      InitialBoard()[Idx(p)] ==
        (if p == (3, 3) || p == (4, 4) then Disc(White)
         else if p == (3, 4) || p == (4, 3) then Disc(Black)
         else Empty)
  {
  }

  /** A cell value absent from a sequence is counted zero times. */
  lemma AbsentCount<T>(s: seq<T>, v: T)
    requires forall i :: 0 <= i < |s| ==> s[i] != v
    ensures multiset(s)[v] == 0
  {
    assert v !in s;
  }

  /** The opening position holds two discs of each colour and 60 empty cells. */
  lemma InitialCounts()
    ensures multiset(InitialBoard())[Disc(Black)] == 2
    ensures multiset(InitialBoard())[Disc(White)] == 2
    ensures multiset(InitialBoard())[Empty] == 60
  {
    var s := InitialBoard();
    var a, b, c, d, e := s[..27], s[27..29], s[29..35], s[35..37], s[37..];
    assert s == a + b + c + d + e;
    assert b == [Disc(White), Disc(Black)];
    assert d == [Disc(Black), Disc(White)];
    assert forall i :: 0 <= i < |a| ==> a[i] == Empty;
    assert forall i :: 0 <= i < |c| ==> c[i] == Empty;
    assert forall i :: 0 <= i < |e| ==> e[i] == Empty;
    AbsentCount(a, Disc(Black));
    AbsentCount(a, Disc(White));
    AbsentCount(c, Disc(Black));
    AbsentCount(c, Disc(White));
    AbsentCount(e, Disc(Black));
    AbsentCount(e, Disc(White));
    assert multiset(a)[Empty] == 27 by { assert a == seq(27, _ => Empty); EmptyRow(27); }
    assert multiset(c)[Empty] == 6 by { assert c == seq(6, _ => Empty); EmptyRow(6); }
    assert multiset(e)[Empty] == 27 by { assert e == seq(27, _ => Empty); EmptyRow(27); }
  }

  lemma {:induction false} EmptyRow(n: nat)
    ensures multiset(seq(n, _ => Empty))[Empty] == n
  {
    if n > 0 {
      EmptyRow(n - 1);
      assert seq(n, _ => Empty) == seq(n - 1, _ => Empty) + [Empty];
    }
  }
}
