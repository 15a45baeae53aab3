/**
  The first timecard page, timecard00.py: a table of (date, start, end) rows read from its CSV file
  as they are (only a missing end column is added), and its clock-in, clock-out and clear buttons.
  Nothing is normalised here, so an end read from an empty CSV field is missing, and the clock-out
  test accepts "", None and NaN as unset.
*/
module Timecard00 {
  import opened TimecardTable

  /** A row of this page: it has no extra column. */
  type Entry = Row<()>

  /** The page's table, as it stands between button presses. */
  class Sheet {
    var rows: seq<Entry>

    /** Loading the CSV file: `if "end" not in df.columns: df["end"] = ""`. */
    constructor (hasEnd: bool, csv: seq<Entry>)
      ensures rows == FillColumns(Columns(true, true, hasEnd), csv)
    {
      rows := FillColumns(Columns(true, true, hasEnd), csv);
    }

    /** The clock-in button, with today's date and the clock reading `now`. */
    method ClockIn(today: string, now: string)
      modifies this
      ensures rows == TimecardTable.ClockIn(old(rows), today, now, ())
    {
      if !HasDate(rows, today) {
        var added := Row(Text(today), Text(now), Text(""), ());
        rows := rows + [added];
      }
    }

    /** The clock-out button. */
    method ClockOut(today: string, now: string)
      modifies this
      ensures rows == TimecardTable.ClockOut(old(rows), today, now, Unset)
    {
      if HasDate(rows, today) {
        var endValue := rows[FirstOn(rows, today)].end;
        if endValue == Text("") || endValue.NaN? {
          rows := SetEnd(rows, today, now);
        }
      }
    }

    /** The clear button. */
    method ClearToday(today: string)
      modifies this
      ensures rows == TimecardTable.ClearToday(old(rows), today)
    {
      rows := Without(rows, Text(today));
    }
  }
}
