/**
  The timecard page of timecard03.py: the table of (date, start, end, hours) rows it loads from
  its CSV file, the buttons that change it, and the table it saves after editing. Times are
  normalised to the "HH:MM:SS" pattern or "", and the hours column always holds the work time
  that `calculate_work_hours` gives for the row's start and end.
*/
module Timecard03 {
  import opened Wrappers
  import opened Decimal
  import opened TimecardTable
  import opened WorkTime

  /** A row of this page: its extra column is the hours string. */
  type Entry = Row<string>

  /** A row whose times are normalised and whose hours are the work time of those times. */
  predicate Kept(r: Entry)
  {
    Normalised(r.start) && Normalised(r.end) && r.extra == WorkHours(r.start.s, r.end.s)
  }

  /** The invariant of the page's table. */
  predicate Consistent(rows: seq<Entry>)
  {
    forall i :: 0 <= i < |rows| ==> Kept(rows[i])
  }

  /**
    `df["hours"] = [calculate_work_hours(start, end) for start, end in zip(df["start"], df["end"])]`
    (and the row-wise `apply` on save): the same rows with their hours computed afresh.
  */
  function Recompute<H>(rows: seq<Row<H>>): (r: seq<Entry>)
    requires forall i :: 0 <= i < |rows| ==> rows[i].start.Text? && rows[i].end.Text?
    ensures |r| == |rows|
    ensures forall i :: 0 <= i < |rows| ==>
      r[i].date == rows[i].date && r[i].start == rows[i].start && r[i].end == rows[i].end &&
      r[i].extra == WorkHours(rows[i].start.s, rows[i].end.s)
  {
    seq(|rows|, i requires 0 <= i < |rows| => Row(rows[i].date, rows[i].start, rows[i].end, WorkHours(rows[i].start.s, rows[i].end.s)))
  }

  /**
    Recomputing makes a normalised table consistent, leaves a consistent one as it is, and a second
    recomputation changes nothing.
  */
  lemma RecomputeSpec<H>(rows: seq<Row<H>>)
    requires forall i :: 0 <= i < |rows| ==> rows[i].start.Text? && rows[i].end.Text?
    ensures AllNormalised(rows) ==> Consistent(Recompute(rows))
    ensures Recompute(Recompute(rows)) == Recompute(rows)
  {
  }

  lemma RecomputeConsistent(rows: seq<Entry>)
    requires Consistent(rows)
    ensures Recompute(rows) == rows
  {
    var r := Recompute(rows);
    forall i | 0 <= i < |rows|
      ensures r[i] == rows[i]
    {
      assert Kept(rows[i]);
    }
  }

  /**
    Loading the CSV file: the missing columns filled with "", both time columns normalised (after
    `fillna("")`, which normalisation makes redundant), and the hours column computed; whatever
    hours the file held are replaced.
  */
  function Load<H>(present: Columns, csv: seq<Row<H>>): seq<Entry>
  {
    var normal := NormaliseTimes(FillColumns(present, csv));
    NormaliseTimesSpec(FillColumns(present, csv));
    Recompute(normal)
  }

  /**
    The loaded table is consistent, has a row per CSV row with the file's date (or "" when the
    column is missing) and the normalised times, and a consistent table is loaded back as it is.
  */
  lemma LoadSpec<H>(present: Columns, csv: seq<Row<H>>)
    ensures Consistent(Load(present, csv))
    ensures |Load(present, csv)| == |csv|
    ensures forall i :: 0 <= i < |csv| ==>
      Load(present, csv)[i].date == (if present.date then csv[i].date else Text("")) &&
      Load(present, csv)[i].start == (if present.start then Normalise(csv[i].start) else Text("")) &&
      Load(present, csv)[i].end == (if present.end then Normalise(csv[i].end) else Text(""))
  {
    var filled := FillColumns(present, csv);
    FillColumnsSpec(present, csv);
    NormaliseTimesSpec(filled);
    RecomputeSpec(NormaliseTimes(filled));
    forall i | 0 <= i < |csv|
      ensures Load(present, csv)[i].start == (if present.start then Normalise(csv[i].start) else Text(""))
      ensures Load(present, csv)[i].end == (if present.end then Normalise(csv[i].end) else Text(""))
    {
      NormaliseSpec(Text(""));
    }
  }

  lemma LoadConsistent(rows: seq<Entry>)
    requires Consistent(rows)
    ensures Load(Columns(true, true, true), rows) == rows
  {
    FillColumnsSpec(Columns(true, true, true), rows);
    NormaliseTimesSpec(rows);
    RecomputeConsistent(rows);
  }

  /**
    The save button: the edited table with its times normalised and its hours recomputed, whatever
    the editor left in the hours column.
  */
  function Save<H>(edited: seq<Row<H>>): seq<Entry>
  {
    var normal := NormaliseTimes(edited);
    NormaliseTimesSpec(edited);
    Recompute(normal)
  }

  /**
    A saved table is consistent and loads back unchanged from a file with all three columns; saving
    it again changes nothing.
  */
  lemma SaveSpec<H>(edited: seq<Row<H>>)
    ensures Consistent(Save(edited))
    ensures Load(Columns(true, true, true), Save(edited)) == Save(edited)
    ensures Save(Save(edited)) == Save(edited)
  {
    NormaliseTimesSpec(edited);
    RecomputeSpec(NormaliseTimes(edited));
    LoadConsistent(Save(edited));
    FillColumnsSpec(Columns(true, true, true), Save(edited));
  }

  /** The clock-in button on this page: the shared clock-in, then the hours recomputed when a row was added. */
  function ClockInHours(rows: seq<Entry>, today: string, now: string): seq<Entry>
    requires forall i :: 0 <= i < |rows| ==> rows[i].start.Text? && rows[i].end.Text?
  {
    if HasDate(rows, today) then rows else Recompute(ClockIn(rows, today, now, ""))
  }

  /** The clock-out button on this page: the shared clock-out, then the hours recomputed when ends were set. */
  function ClockOutHours(rows: seq<Entry>, today: string, now: string): seq<Entry>
    requires forall i :: 0 <= i < |rows| ==> rows[i].start.Text? && rows[i].end.Text?
  {
    if HasDate(rows, today) && Blank(rows[FirstOn(rows, today)].end) then Recompute(SetEnd(rows, today, now))
    else rows
  }

  /**
    On a consistent table and a clock reading, clocking in is the shared clock-in (the new row's
    hours are "", as there is no end yet) and keeps the table consistent.
  */
  lemma ClockInHoursSpec(rows: seq<Entry>, today: string, now: string)
    requires Consistent(rows) && Clock8(now)
    ensures ClockInHours(rows, today, now) == ClockIn(rows, today, now, "")
    ensures Consistent(ClockInHours(rows, today, now))
  {
    if !HasDate(rows, today) {
      var r := ClockIn(rows, today, now, "");
      assert WorkHours(now, "") == "";
      assert Consistent(r) by {
        assert forall i :: 0 <= i < |rows| ==> r[i] == rows[i];
        assert r[|rows|] == Row(Text(today), Text(now), Text(""), "");
      }
      RecomputeConsistent(r);
    }
  }

  /**
    On a consistent table and a clock reading, clocking out sets the ends as the shared clock-out
    does, gives every row of today the hours from its start to `now`, and keeps the table
    consistent.
  */
  lemma ClockOutHoursSpec(rows: seq<Entry>, today: string, now: string)
    requires Consistent(rows) && Clock8(now)
    ensures ClockOutHours(rows, today, now) == Recompute(ClockOut(rows, today, now, Blank))
    ensures Consistent(ClockOutHours(rows, today, now))
    ensures forall i :: 0 <= i < |rows| && HasDate(rows, today) && Blank(rows[FirstOn(rows, today)].end) && Dated(rows[i], today) ==>
      ClockOutHours(rows, today, now)[i].extra == WorkHours(rows[i].start.s, now)
  {
    RecomputeConsistent(rows);
    ClockOutSpec(rows, today, now, Blank);
    var s := ClockOut(rows, today, now, Blank);
    assert AllNormalised(s) by {
      forall i | 0 <= i < |s|
        ensures Normalised(s[i].start) && Normalised(s[i].end)
      {
        assert Kept(rows[i]);
      }
    }
    RecomputeSpec(s);
  }

  /** A second clock-out with the same reading changes nothing. */
  lemma ClockOutHoursTwice(rows: seq<Entry>, today: string, now: string)
    requires Consistent(rows) && Clock8(now)
    ensures ClockOutHours(ClockOutHours(rows, today, now), today, now) == ClockOutHours(rows, today, now)
  {
    ClockOutHoursSpec(rows, today, now);
    var r := ClockOutHours(rows, today, now);
    RecomputeConsistent(r);
    ClockOutSpec(r, today, now, Blank);
    if HasDate(rows, today) && Blank(rows[FirstOn(rows, today)].end) {
      FirstOnSame(rows, r, today);
      assert !Blank(r[FirstOn(rows, today)].end);
    }
  }

  /**
    A working day on this page: from a consistent table without today, clock in at `t1` and out at
    `t2`, and the table has gained the single row (today, t1, t2) with the hours from t1 to t2.
  */
  lemma DayShiftHours(rows: seq<Entry>, today: string, t1: string, t2: string)
    requires Consistent(rows) && !HasDate(rows, today) && Clock8(t1) && Clock8(t2)
    ensures ClockOutHours(ClockInHours(rows, today, t1), today, t2) ==
      rows + [Row(Text(today), Text(t1), Text(t2), WorkHours(t1, t2))]
  {
    ClockInHoursSpec(rows, today, t1);
    var r := ClockIn(rows, today, t1, "");
    ClockOutHoursSpec(r, today, t2);
    DayShift(rows, today, t1, t2, "", Blank);
    var s := rows + [Row(Text(today), Text(t1), Text(t2), "")];
    var q := Recompute(s);
    RecomputeConsistent(rows);
    assert forall i :: 0 <= i < |rows| ==> q[i] == rows[i];
  }

  /**
    What the normaliser keeps and what `strptime` accepts: a string of the pattern parses exactly
    when its hour is at most 23 and its minute and second at most 59, to that time of day; one
    that the pattern admits only through its final line break never parses, so its hours are "".
  */
  lemma PatternParses(s: string)
    requires TimeLike(s)
    ensures Clock8(s) ==> AllDigits(s[..2]) && AllDigits(s[3..5]) && AllDigits(s[6..])
    ensures Clock8(s) ==>
      ParseTime(s) == (if Value(s[..2]) <= 23 && Value(s[3..5]) <= 59 && Value(s[6..]) <= 59
                       then Some(Value(s[..2]) * 3600 + Value(s[3..5]) * 60 + Value(s[6..])) else None)
    ensures !Clock8(s) ==> ParseTime(s).None? && WorkHours(s, s) == ""
  {
    var t := if Clock8(s) then s else s[..8];
    ClockPieces(t);
    var x, y, z := t[..2], t[3..5], t[6..];
    if Clock8(s) {
      ParseThree(x, y, z);
    } else {
      var z' := s[6..];
      LineBreakPieces(s);
      assert x == s[..2] && y == s[3..5];
      assert z'[2] == '\n';
      ParseThree(x, y, z');
    }
  }

  /** A reading of the pattern is its three two-digit pieces joined by colons. */
  lemma ClockPieces(t: string)
    requires Clock8(t)
    ensures t == t[..2] + ":" + t[3..5] + ":" + t[6..]
    ensures AllDigits(t[..2]) && AllDigits(t[3..5]) && AllDigits(t[6..])
  {
    var x, y, z := t[..2], t[3..5], t[6..];
    assert forall i :: 0 <= i < 2 ==> x[i] == t[i] && y[i] == t[i + 3] && z[i] == t[i + 6];
    var u := x + ":" + y + ":" + z;
    assert |u| == 8;
    assert forall i :: 0 <= i < 8 ==> u[i] == t[i];
  }

  /** The same with a final line break: the last piece carries it. */
  lemma LineBreakPieces(s: string)
    requires |s| == 9 && Clock8(s[..8])
    ensures s == s[..2] + ":" + s[3..5] + ":" + s[6..]
  {
    var u := s[..2] + ":" + s[3..5] + ":" + s[6..];
    assert |u| == 9;
    assert forall i :: 0 <= i < 9 ==> u[i] == s[i];
  }

  /** The date filter keeps a consistent table consistent. */
  lemma WithoutConsistent(rows: seq<Entry>, sel: Cell)
    requires Consistent(rows)
    ensures Consistent(Without(rows, sel))
  {
    assert Every(rows, Kept);
    WithoutEvery(rows, sel, Kept);
  }

  /** The page's table, as it stands between button presses. */
  class Sheet {
    var rows: seq<Entry>

    ghost predicate Valid()
      reads this
    {
      Consistent(rows)
    }

    /** Loading the CSV file. */
    constructor (present: Columns, csv: seq<Row<Cell>>)
      ensures rows == Load(present, csv)
      ensures Valid()
    {
      var filled := FillColumns(present, csv);
      var normal := NormaliseTimes(filled);
      NormaliseTimesSpec(filled);
      rows := Recompute(normal);
      LoadSpec(present, csv);
    }

    /** The clock-in button, with today's date and the clock reading `now`. */
    method ClockIn(today: string, now: string)
      requires Valid() && Clock8(now)
      modifies this
      ensures rows == ClockInHours(old(rows), today, now)
      ensures rows == TimecardTable.ClockIn(old(rows), today, now, "")
      ensures Valid()
    {
      ClockInHoursSpec(rows, today, now);
      if !HasDate(rows, today) {
        var added := Row(Text(today), Text(now), Text(""), "");
        rows := Recompute(rows + [added]);
      }
    }

    /** The clock-out button. */
    method ClockOut(today: string, now: string)
      requires Valid() && Clock8(now)
      modifies this
      ensures rows == ClockOutHours(old(rows), today, now)
      ensures Valid()
    {
      ClockOutHoursSpec(rows, today, now);
      if HasDate(rows, today) {
        var endValue := rows[FirstOn(rows, today)].end;
        if endValue == Text("") {
          rows := Recompute(SetEnd(rows, today, now));
        }
      }
    }

    /** The clear-today button. */
    method ClearToday(today: string)
      requires Valid()
      modifies this
      ensures rows == TimecardTable.ClearToday(old(rows), today)
      ensures Valid()
    {
      WithoutConsistent(rows, Text(today));
      rows := Without(rows, Text(today));
    }

    /** The delete button, with the option chosen in the date selector. */
    method DeleteSelected(selected: Cell)
      requires Valid()
      modifies this
      ensures rows == DeleteDate(old(rows), selected)
      ensures Valid()
    {
      if selected != Text(Placeholder) {
        WithoutConsistent(rows, selected);
        rows := Without(rows, selected);
      }
    }

    /** The delete-all button. */
    method DeleteAll()
      modifies this
      ensures rows == []
      ensures Valid()
    {
      rows := TimecardTable.DeleteAll(rows);
    }
  }
}
