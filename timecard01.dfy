/**
  The timecard page of timecard01.py: a table of (date, start, end) rows loaded from its CSV file
  with the times normalised to the "HH:MM:SS" pattern or "", the buttons that change it, and the
  normalised table it saves after editing.
*/
module Timecard01 {
  import opened TimecardTable

  /** A row of this page: it has no extra column. */
  type Entry = Row<()>

  /** Loading the CSV file: the missing columns filled with "", then both time columns normalised. */
  function Load(present: Columns, csv: seq<Entry>): (r: seq<Entry>)
    ensures AllNormalised(r)
  {
    NormaliseTimesSpec(FillColumns(present, csv));
    NormaliseTimes(FillColumns(present, csv))
  }

  /**
    The save button writes `NormaliseTimes(edited)`; reading that file back with all three columns
    gives the saved table itself.
  */
  lemma LoadSaved(edited: seq<Entry>)
    ensures Load(Columns(true, true, true), NormaliseTimes(edited)) == NormaliseTimes(edited)
  {
    NormaliseTimesSpec(edited);
    FillColumnsSpec(Columns(true, true, true), NormaliseTimes(edited));
  }

  /** The page's table, as it stands between button presses; its times stay normalised. */
  class Sheet {
    var rows: seq<Entry>

    ghost predicate Valid()
      reads this
    {
      AllNormalised(rows)
    }

    /** Loading the CSV file. */
    constructor (present: Columns, csv: seq<Entry>)
      ensures rows == Load(present, csv)
      ensures Valid()
    {
      var filled := FillColumns(present, csv);
      NormaliseTimesSpec(filled);
      rows := NormaliseTimes(filled);
    }

    /** The clock-in button, with today's date and the clock reading `now`. */
    method ClockIn(today: string, now: string)
      requires Valid() && Clock8(now)
      modifies this
      ensures rows == TimecardTable.ClockIn(old(rows), today, now, ())
      ensures Valid()
    {
      ClockKeepsNormalised(rows, today, now, (), Blank);
      if !HasDate(rows, today) {
        var added := Row(Text(today), Text(now), Text(""), ());
        rows := rows + [added];
      }
    }

    /** The clock-out button. */
    method ClockOut(today: string, now: string)
      requires Valid() && Clock8(now)
      modifies this
      ensures rows == TimecardTable.ClockOut(old(rows), today, now, Blank)
      ensures Valid()
    {
      ClockKeepsNormalised(rows, today, now, (), Blank);
      if HasDate(rows, today) {
        var endValue := rows[FirstOn(rows, today)].end;
        if endValue == Text("") {
          rows := SetEnd(rows, today, now);
        }
      }
    }

    /** The clear-today button. */
    method ClearToday(today: string)
      requires Valid()
      modifies this
      ensures rows == TimecardTable.ClearToday(old(rows), today)
      ensures Valid()
    {
      WithoutKeepsNormalised(rows, Text(today));
      rows := Without(rows, Text(today));
    }

    /** The delete button, with the option chosen in the date selector. */
    method DeleteSelected(selected: Cell)
      requires Valid()
      modifies this
      ensures rows == DeleteDate(old(rows), selected)
      ensures Valid()
    {
      if selected != Text(Placeholder) {
        WithoutKeepsNormalised(rows, selected);
        rows := Without(rows, selected);
      }
    }

    /** The delete-all button. */
    method DeleteAll()
      modifies this
      ensures rows == []
      ensures Valid()
    {
      rows := TimecardTable.DeleteAll(rows);
    }
  }
}
