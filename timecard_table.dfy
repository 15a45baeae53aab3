/**
  The attendance table shared by the three timecard pages (timecard00.py, timecard01.py,
  timecard03.py): rows of (date, start, end) cells as pandas holds them after `read_csv(...,
  dtype=str)`, the `^\d{2}:\d{2}:\d{2}$` time pattern and its normalisation, and the row
  selections by date that the buttons use. The pages differ only in an extra per-row column
  (`hours` in timecard03.py), carried as the type parameter H.
*/
module TimecardTable {
  import opened Decimal

  /** A cell of a string column: a string, or the missing value (NaN when read, None when edited). */
  datatype Cell = Text(s: string) | NaN

  /** One row of the table; `extra` is the page's additional column (`()` when it has none). */
  datatype Row<H> = Row(date: Cell, start: Cell, end: Cell, extra: H)

  /** pandas `column == d` for a string d: a missing value equals nothing. */
  predicate Dated<H>(r: Row<H>, d: string)
  {
    r.date == Text(d)
  }

  /** pandas `column != sel`: true unless both are strings and equal (NaN differs from everything). */
  predicate Differs(c: Cell, sel: Cell)
  {
    !(c.Text? && sel.Text? && c.s == sel.s)
  }

  /** `df[df["date"] == d]` is not empty. */
  predicate HasDate<H>(rows: seq<Row<H>>, d: string)
  {
    exists i :: 0 <= i < |rows| && Dated(rows[i], d)
  }

  /** `df[df["date"] != sel]`: the rows whose date differs from sel, in their order. */
  function Without<H>(rows: seq<Row<H>>, sel: Cell): (r: seq<Row<H>>)
    ensures |r| <= |rows|
  {
    if rows == [] then []
    else if Differs(rows[0].date, sel) then [rows[0]] + Without(rows[1..], sel)
    else Without(rows[1..], sel)
  }

  /** `df.loc[df["date"] == d, "end"] = now`: every row of date d gets end `now`. */
  function SetEnd<H>(rows: seq<Row<H>>, d: string, now: string): seq<Row<H>>
  {
    seq(|rows|, i requires 0 <= i < |rows| => if Dated(rows[i], d) then rows[i].(end := Text(now)) else rows[i])
  }

  /** `today_row.iloc[0]`: the position of the first row of date d. */
  function FirstOn<H>(rows: seq<Row<H>>, d: string): (i: int)
    requires HasDate(rows, d)
    ensures 0 <= i < |rows| && Dated(rows[i], d) && forall j :: 0 <= j < i ==> !Dated(rows[j], d)
  {
    if Dated(rows[0], d) then 0
    else
      assert HasDate(rows[1..], d) by {
        var k :| 0 <= k < |rows| && Dated(rows[k], d);
        assert rows[1..][k - 1] == rows[k];
      }
      1 + FirstOn(rows[1..], d)
  }

  /** No date (other than a missing one) occurs on two rows. */
  predicate OnePerDate<H>(rows: seq<Row<H>>)
  {
    forall i, j :: 0 <= i < j < |rows| && rows[i].date.Text? ==> rows[i].date != rows[j].date
  }

  /**
    The rows kept by the date filter are exactly those whose date differs from sel, each as many
    times as before; no row of the selected date survives.
  */
  lemma {:induction false} WithoutSpec<H>(rows: seq<Row<H>>, sel: Cell)
    ensures forall x :: multiset(Without(rows, sel))[x] == if Differs(x.date, sel) then multiset(rows)[x] else 0
    ensures forall i :: 0 <= i < |Without(rows, sel)| ==> Differs(Without(rows, sel)[i].date, sel)
  {
    if rows != [] {
      WithoutSpec(rows[1..], sel);
      assert rows == [rows[0]] + rows[1..];
    }
  }

  /** The filter works row by row: it distributes over concatenation. */
  lemma {:induction false} WithoutAppend<H>(a: seq<Row<H>>, b: seq<Row<H>>, sel: Cell)
    ensures Without(a + b, sel) == Without(a, sel) + Without(b, sel)
  {
    if a == [] {
      assert a + b == b;
    } else {
      assert (a + b)[0] == a[0];
      assert (a + b)[1..] == a[1..] + b;
      WithoutAppend(a[1..], b, sel);
    }
  }

  /** Filtering out a date that no row carries changes nothing. */
  lemma {:induction false} WithoutAbsent<H>(rows: seq<Row<H>>, sel: Cell)
    requires forall i :: 0 <= i < |rows| ==> Differs(rows[i].date, sel)
    ensures Without(rows, sel) == rows
  {
    if rows != [] {
      WithoutAbsent(rows[1..], sel);
      assert rows == [rows[0]] + rows[1..];
    }
  }

  /** A row survives the filter iff it was there and its date differs from sel. */
  lemma {:induction false} WithoutMembers<H>(rows: seq<Row<H>>, sel: Cell)
    ensures forall x :: x in Without(rows, sel) <==> x in rows && Differs(x.date, sel)
  {
    if rows != [] {
      WithoutMembers(rows[1..], sel);
      assert rows == [rows[0]] + rows[1..];
    }
  }

  lemma WithoutMember<H>(rows: seq<Row<H>>, sel: Cell, x: Row<H>)
    requires x in Without(rows, sel)
    ensures x in rows && Differs(x.date, sel)
  {
    WithoutMembers(rows, sel);
  }

  /** Filtering keeps a table with one row per date so. */
  lemma {:induction false} WithoutOnePerDate<H>(rows: seq<Row<H>>, sel: Cell)
    requires OnePerDate(rows)
    ensures OnePerDate(Without(rows, sel))
  {
    if rows != [] {
      var t := rows[1..];
      assert OnePerDate(t) by {
        forall i, j | 0 <= i < j < |t| && t[i].date.Text?
          ensures t[i].date != t[j].date
        {
          assert t[i] == rows[i + 1] && t[j] == rows[j + 1];
        }
      }
      WithoutOnePerDate(t, sel);
      WithoutMembers(t, sel);
      if Differs(rows[0].date, sel) && rows[0].date.Text? {
        var w := Without(t, sel);
        forall x | x in w
          ensures x.date != rows[0].date
        {
          WithoutMember(t, sel, x);
          var k :| 0 <= k < |t| && t[k] == x;
          assert rows[k + 1] == x;
        }
        var r := Without(rows, sel);
        assert r == [rows[0]] + w;
        forall i, j | 0 <= i < j < |r| && r[i].date.Text?
          ensures r[i].date != r[j].date
        {
          if i == 0 {
            assert r[j] == w[j - 1];
          } else {
            assert r[i] == w[i - 1] && r[j] == w[j - 1];
          }
        }
      }
    }
  }

  /** Setting the end time touches only the ends of the rows of that date. */
  lemma SetEndSpec<H>(rows: seq<Row<H>>, d: string, now: string)
    ensures |SetEnd(rows, d, now)| == |rows|
    ensures forall i :: 0 <= i < |rows| ==>
      SetEnd(rows, d, now)[i].date == rows[i].date && SetEnd(rows, d, now)[i].start == rows[i].start &&
      SetEnd(rows, d, now)[i].extra == rows[i].extra
    ensures forall i :: 0 <= i < |rows| ==> SetEnd(rows, d, now)[i].end == if Dated(rows[i], d) then Text(now) else rows[i].end
  {
  }

  /** Equal dates on two different rows are the only way to lose one-row-per-date. */
  lemma SetEndOnePerDate<H>(rows: seq<Row<H>>, d: string, now: string)
    requires OnePerDate(rows)
    ensures OnePerDate(SetEnd(rows, d, now))
  {
  }

  /** `re.match(r"^\d{2}:\d{2}:\d{2}$", x)` without its end anchor: two digits, colon, two, colon, two. */
  predicate Clock8(s: string)
  {
    |s| == 8 && IsDigit(s[0]) && IsDigit(s[1]) && s[2] == ':' && IsDigit(s[3]) && IsDigit(s[4]) &&
    s[5] == ':' && IsDigit(s[6]) && IsDigit(s[7])
  }

  /** The full pattern: `$` also matches just before one final line break. */
  predicate TimeLike(s: string)
  {
    Clock8(s) || (|s| == 9 && Clock8(s[..8]) && s[8] == '\n')
  }

  /** `df[col].fillna("")`. */
  function FillNa(c: Cell): Cell
  {
    if c.NaN? then Text("") else c
  }

  /**
    `x if re.match(r"^\d{2}:\d{2}:\d{2}$", str(x)) else ""`: a string matching the pattern is
    kept; anything else, a missing value included (`str(nan)` is "nan"), becomes "".
  */
  function Normalise(c: Cell): (r: Cell)
    ensures r.Text? && (r.s == "" || TimeLike(r.s))
  {
    if c.Text? && TimeLike(c.s) then c else Text("")
  }

  /** A normalised cell: "" or a string of the pattern. */
  predicate Normalised(c: Cell)
  {
    c.Text? && (c.s == "" || TimeLike(c.s))
  }

  /** Normalisation keeps exactly the matching strings, is idempotent, and makes `fillna` redundant. */
  lemma NormaliseSpec(c: Cell)
    ensures Normalise(c) == c <==> Normalised(c)
    ensures Normalise(Normalise(c)) == Normalise(c)
    ensures Normalise(FillNa(c)) == Normalise(c)
  {
    if c == Text("") {
      assert !TimeLike("");
    }
  }

  /** Both time columns of every row normalised. */
  function NormaliseTimes<H>(rows: seq<Row<H>>): (r: seq<Row<H>>)
    ensures |r| == |rows|
  {
    seq(|rows|, i requires 0 <= i < |rows| => rows[i].(start := Normalise(rows[i].start), end := Normalise(rows[i].end)))
  }

  predicate AllNormalised<H>(rows: seq<Row<H>>)
  {
    forall i :: 0 <= i < |rows| ==> Normalised(rows[i].start) && Normalised(rows[i].end)
  }

  /** After normalisation every time is "" or of the pattern; dates and extras are untouched; a second pass changes nothing. */
  lemma NormaliseTimesSpec<H>(rows: seq<Row<H>>)
    ensures AllNormalised(NormaliseTimes(rows))
    ensures forall i :: 0 <= i < |rows| ==>
      NormaliseTimes(rows)[i].date == rows[i].date && NormaliseTimes(rows)[i].extra == rows[i].extra
    ensures NormaliseTimes(NormaliseTimes(rows)) == NormaliseTimes(rows)
    ensures AllNormalised(rows) ==> NormaliseTimes(rows) == rows
  {
    forall i | 0 <= i < |rows|
      ensures NormaliseTimes(NormaliseTimes(rows))[i] == NormaliseTimes(rows)[i]
      ensures Normalised(rows[i].start) && Normalised(rows[i].end) ==> NormaliseTimes(rows)[i] == rows[i]
    {
      NormaliseSpec(rows[i].start);
      NormaliseSpec(rows[i].end);
    }
  }

  /** Which of the three columns the CSV file had. */
  datatype Columns = Columns(date: bool, start: bool, end: bool)

  /** `if col not in df.columns: df[col] = ""` for each missing column. */
  function FillColumns<H>(present: Columns, rows: seq<Row<H>>): (r: seq<Row<H>>)
    ensures |r| == |rows|
  {
    seq(|rows|, i requires 0 <= i < |rows| =>
      rows[i].(date := if present.date then rows[i].date else Text(""),
               start := if present.start then rows[i].start else Text(""),
               end := if present.end then rows[i].end else Text("")))
  }

  /** A missing column reads "" on every row; a present one keeps its cells. */
  lemma FillColumnsSpec<H>(present: Columns, rows: seq<Row<H>>)
    ensures forall i :: 0 <= i < |rows| ==>
      FillColumns(present, rows)[i].date == (if present.date then rows[i].date else Text("")) &&
      FillColumns(present, rows)[i].start == (if present.start then rows[i].start else Text("")) &&
      FillColumns(present, rows)[i].end == (if present.end then rows[i].end else Text(""))
    ensures present == Columns(true, true, true) ==> FillColumns(present, rows) == rows
  {
  }

  /** The option the date selector shows first: 選択してください ("please choose"). */
  const Placeholder: string := "選択してください"

  /** `if selected_date != "選択してください": df = df[df["date"] != selected_date]`. */
  function DeleteDate<H>(rows: seq<Row<H>>, selected: Cell): seq<Row<H>>
  {
    if selected == Text(Placeholder) then rows else Without(rows, selected)
  }

  /**
    Deleting a date removes exactly its rows and keeps the others with their multiplicity; the
    placeholder and a missing date (which equals no cell) delete nothing.
  */
  lemma DeleteDateSpec<H>(rows: seq<Row<H>>, selected: Cell)
    ensures selected == Text(Placeholder) || selected.NaN? ==> DeleteDate(rows, selected) == rows
    ensures selected.Text? && selected != Text(Placeholder) ==>
      forall x :: multiset(DeleteDate(rows, selected))[x] == if x.date == selected then 0 else multiset(rows)[x]
  {
    WithoutSpec(rows, selected);
    if selected.NaN? {
      WithoutAbsent(rows, selected);
    }
  }

  /** Every row satisfies P. */
  predicate Every<H>(rows: seq<Row<H>>, P: Row<H> -> bool)
  {
    forall i :: 0 <= i < |rows| ==> P(rows[i])
  }

  /** The date filter keeps only rows it was given, so a property of every row survives it. */
  lemma WithoutEvery<H>(rows: seq<Row<H>>, sel: Cell, P: Row<H> -> bool)
    requires Every(rows, P)
    ensures Every(Without(rows, sel), P)
  {
    var r := Without(rows, sel);
    forall i | 0 <= i < |r|
      ensures P(r[i])
    {
      WithoutMember(rows, sel, r[i]);
      var k :| 0 <= k < |rows| && rows[k] == r[i];
    }
  }

  /**
    The clock-in button: `if today_row.empty:` append the row (today, now, "") by `pd.concat`,
    with `blank` in the page's extra column; otherwise the table is left as it is.
  */
  function ClockIn<H>(rows: seq<Row<H>>, today: string, now: string, blank: H): seq<Row<H>>
  {
    if HasDate(rows, today) then rows else rows + [Row(Text(today), Text(now), Text(""), blank)]
  }

  /**
    The clock-out button: with a row of today whose first one has an unset end (`unset`, which
    the pages define differently), every row of today gets end `now`; otherwise nothing changes.
  */
  function ClockOut<H>(rows: seq<Row<H>>, today: string, now: string, unset: Cell -> bool): seq<Row<H>>
  {
    if HasDate(rows, today) && unset(rows[FirstOn(rows, today)].end) then SetEnd(rows, today, now) else rows
  }

  /** The clear-today button: `df[df["date"] != today]`. */
  function ClearToday<H>(rows: seq<Row<H>>, today: string): seq<Row<H>>
  {
    Without(rows, Text(today))
  }

  /** `df[0:0]`: the delete-all button. */
  function DeleteAll<H>(rows: seq<Row<H>>): (r: seq<Row<H>>)
    ensures r == []
  {
    rows[0..0]
  }

  /**
    Clocking in appends exactly one row, dated today, only when there is none; afterwards there
    is one, a table with one row per date keeps that property, and a second clock-in changes
    nothing.
  */
  lemma ClockInSpec<H>(rows: seq<Row<H>>, today: string, now: string, blank: H)
    ensures HasDate(rows, today) ==> ClockIn(rows, today, now, blank) == rows
    ensures !HasDate(rows, today) ==> ClockIn(rows, today, now, blank) == rows + [Row(Text(today), Text(now), Text(""), blank)]
    ensures HasDate(ClockIn(rows, today, now, blank), today)
    ensures OnePerDate(rows) ==> OnePerDate(ClockIn(rows, today, now, blank))
    ensures ClockIn(ClockIn(rows, today, now, blank), today, now, blank) == ClockIn(rows, today, now, blank)
  {
    var r := ClockIn(rows, today, now, blank);
    if !HasDate(rows, today) {
      assert Dated(r[|rows|], today);
    }
  }

  /** Clearing today right after the first clock-in of the day gives back the table before it. */
  lemma ClearUndoesClockIn<H>(rows: seq<Row<H>>, today: string, now: string, blank: H)
    requires !HasDate(rows, today)
    ensures ClearToday(ClockIn(rows, today, now, blank), today) == rows
  {
    var added := Row(Text(today), Text(now), Text(""), blank);
    WithoutAppend(rows, [added], Text(today));
    WithoutAbsent(rows, Text(today));
    assert Without([added], Text(today)) == [] by {
      assert [added][1..] == [];
    }
  }

  /**
    Clocking out changes the table only when today has a row whose first one is unset, and then
    sets exactly the ends of today's rows; once set to a reading that counts as set, a second
    clock-out changes nothing.
  */
  lemma ClockOutSpec<H>(rows: seq<Row<H>>, today: string, now: string, unset: Cell -> bool)
    ensures !HasDate(rows, today) ==> ClockOut(rows, today, now, unset) == rows
    ensures HasDate(rows, today) && !unset(rows[FirstOn(rows, today)].end) ==> ClockOut(rows, today, now, unset) == rows
    ensures HasDate(rows, today) && unset(rows[FirstOn(rows, today)].end) ==>
      var r := ClockOut(rows, today, now, unset);
      |r| == |rows| &&
      (forall i :: 0 <= i < |rows| && !Dated(rows[i], today) ==> r[i] == rows[i]) &&
      (forall i :: 0 <= i < |rows| && Dated(rows[i], today) ==> r[i] == rows[i].(end := Text(now)))
    ensures OnePerDate(rows) ==> OnePerDate(ClockOut(rows, today, now, unset))
    ensures !unset(Text(now)) ==> ClockOut(ClockOut(rows, today, now, unset), today, now, unset) == ClockOut(rows, today, now, unset)
  {
    if HasDate(rows, today) && unset(rows[FirstOn(rows, today)].end) {
      var r := SetEnd(rows, today, now);
      if OnePerDate(rows) {
        SetEndOnePerDate(rows, today, now);
      }
      assert HasDate(r, today) by {
        assert Dated(r[FirstOn(rows, today)], today);
      }
      FirstOnSame(rows, r, today);
    }
  }

  /** Two tables with the same dates have their first row of a date at the same place. */
  lemma FirstOnSame<H>(a: seq<Row<H>>, b: seq<Row<H>>, d: string)
    requires |a| == |b| && forall i :: 0 <= i < |a| ==> a[i].date == b[i].date
    requires HasDate(a, d)
    ensures HasDate(b, d) && FirstOn(b, d) == FirstOn(a, d)
  {
    var i := FirstOn(a, d);
    assert Dated(b[i], d);
    var j := FirstOn(b, d);
    assert !Dated(a[j], d) ==> j > i;
    assert !Dated(b[i], d) ==> i > j;
  }

  /**
    A working day from a table without today: clock in at `t1`, clock out at `t2`, and the table
    has gained the single row (today, t1, t2).
  */
  lemma DayShift<H>(rows: seq<Row<H>>, today: string, t1: string, t2: string, blank: H, unset: Cell -> bool)
    requires !HasDate(rows, today) && unset(Text(""))
    ensures ClockOut(ClockIn(rows, today, t1, blank), today, t2, unset) == rows + [Row(Text(today), Text(t1), Text(t2), blank)]
  {
    var r := ClockIn(rows, today, t1, blank);
    assert r == rows + [Row(Text(today), Text(t1), Text(""), blank)];
    assert Dated(r[|rows|], today);
    assert forall i :: 0 <= i < |rows| ==> r[i] == rows[i] && !Dated(rows[i], today);
    var f := FirstOn(r, today);
    assert f == |rows|;
  }

  /** `end_value == ""`: the unset end of timecard01.py and timecard03.py. */
  predicate Blank(c: Cell)
  {
    c == Text("")
  }

  /** `end_value in ["", None] or pd.isna(end_value)`: the unset end of timecard00.py. */
  predicate Unset(c: Cell)
  {
    c == Text("") || c.NaN?
  }

  /**
    On a normalised table the two tests of an unset end agree, so the later pages'
    `end_value == ""` clocks out exactly when the first page's test would.
  */
  lemma UnsetAgrees<H>(rows: seq<Row<H>>, today: string, now: string)
    requires AllNormalised(rows)
    ensures ClockOut(rows, today, now, Blank) == ClockOut(rows, today, now, Unset)
  {
    if HasDate(rows, today) {
      var f := FirstOn(rows, today);
      assert rows[f].end.Text?;
    }
  }

  /** Both times of a row normalised. */
  predicate TimesNormalised<H>(r: Row<H>)
  {
    Normalised(r.start) && Normalised(r.end)
  }

  /** Clocking in or out at a clock reading keeps a normalised table normalised. */
  lemma ClockKeepsNormalised<H>(rows: seq<Row<H>>, today: string, now: string, blank: H, unset: Cell -> bool)
    requires AllNormalised(rows) && Clock8(now)
    ensures AllNormalised(ClockIn(rows, today, now, blank))
    ensures AllNormalised(ClockOut(rows, today, now, unset))
  {
    var r := ClockIn(rows, today, now, blank);
    assert forall i :: 0 <= i < |rows| ==> r[i] == rows[i];
  }

  /** The date filter keeps a normalised table normalised. */
  lemma WithoutKeepsNormalised<H>(rows: seq<Row<H>>, sel: Cell)
    requires AllNormalised(rows)
    ensures AllNormalised(Without(rows, sel))
  {
    assert Every(rows, TimesNormalised);
    WithoutEvery(rows, sel, TimesNormalised);
    var w := Without(rows, sel);
    assert forall i :: 0 <= i < |w| ==> TimesNormalised(w[i]);
  }
}
