/**
  `calculate_work_hours` of timecard03.py: two clock readings "H:M:S" as `datetime.strptime`
  with "%H:%M:%S" reads them, the duration from the first to the second (past midnight when the
  second is earlier), and that duration written "HH:MM".
*/
module WorkTime {
  import opened Wrappers
  import opened Decimal

  const SecondsPerDay: nat := 86400

  /** The position of the first colon. */
  function FirstColon(s: string): (i: nat)
    requires ':' in s
    ensures i < |s| && s[i] == ':' && ':' !in s[..i]
  {
    if s[0] == ':' then 0
    else
      assert ':' in s[1..] by {
        var k :| 0 <= k < |s| && s[k] == ':';
        assert s[1..][k - 1] == ':';
      }
      var j := FirstColon(s[1..]);
      assert s[..j + 1] == [s[0]] + s[1..][..j];
      j + 1
  }

  /** `s.split(":")`: the pieces between the colons. */
  function Fields(s: string): (r: seq<string>)
    ensures |r| >= 1
    decreases |s|
  {
    if ':' in s then
      var i := FirstColon(s);
      [s[..i]] + Fields(s[i + 1..])
    else [s]
  }

  /** A field of "%H", "%M" or "%S": one or two digits. */
  function Number(f: string): Option<nat>
  {
    if 1 <= |f| <= 2 && AllDigits(f) then Some(Value(f)) else None
  }

  /**
    `datetime.strptime(s, "%H:%M:%S").time()` as seconds since midnight: three fields of one or
    two digits separated by colons and nothing else, an hour of at most 23, a minute and a
    second of at most 59 (the pattern admits seconds 60 and 61, which `datetime` then rejects);
    None where Python raises ValueError.
  */
  function ParseTime(s: string): (r: Option<nat>)
    ensures r.Some? ==> r.value < SecondsPerDay
  {
    var f := Fields(s);
    if |f| == 3 && Number(f[0]).Some? && Number(f[1]).Some? && Number(f[2]).Some? then
      var h, m, sec := Number(f[0]).value, Number(f[1]).value, Number(f[2]).value;
      if h <= 23 && m <= 59 && sec <= 59 then Some(h * 3600 + m * 60 + sec) else None
    else None
  }

  /** `end_dt - start_dt` in seconds, with a day added to the end when it is earlier than the start. */
  function Duration(start: nat, end: nat): int
  {
    if end < start then end + SecondsPerDay - start else end - start
  }

  /** `f"{hours:02d}:{minutes:02d}"` for `total_seconds // 3600` and `(total_seconds % 3600) // 60`. */
  function Format(d: int): string
  {
    Pad2(d / 3600) + ":" + Pad2((d % 3600) / 60)
  }

  /** `calculate_work_hours(start_str, end_str)`. */
  function WorkHours(start: string, end: string): string
  {
    if start == "" || end == "" then ""
    else
      match (ParseTime(start), ParseTime(end))
      case (Some(a), Some(b)) => Format(Duration(a, b))
      case _ => ""
  }

  /**
    The duration is the one amount of time in [0, 86400) that leads from start to end on a
    24-hour clock; equal readings give 0.
  */
  lemma DurationSpec(start: nat, end: nat, d: int)
    requires start < SecondsPerDay && end < SecondsPerDay
    ensures 0 <= Duration(start, end) < SecondsPerDay
    ensures (start + Duration(start, end)) % SecondsPerDay == end
    ensures 0 <= d < SecondsPerDay && (start + d) % SecondsPerDay == end ==> d == Duration(start, end)
    ensures start == end ==> Duration(start, end) == 0
  {
    if 0 <= d < SecondsPerDay && (start + d) % SecondsPerDay == end {
      var q := (start + d) / SecondsPerDay;
      assert start + d == q * SecondsPerDay + end;
      assert q == 0 || q == 1;
    }
  }

  /**
    A duration of less than a day is written as two digits of whole hours (at most 23), a colon
    and two digits of whole minutes (at most 59); the seconds are dropped.
  */
  lemma FormatSpec(d: int)
    requires 0 <= d < SecondsPerDay
    ensures |Format(d)| == 5 && Format(d)[2] == ':'
    ensures AllDigits(Format(d)[..2]) && Value(Format(d)[..2]) == d / 3600 <= 23
    ensures AllDigits(Format(d)[3..]) && Value(Format(d)[3..]) == (d % 3600) / 60 <= 59
  {
    Pad2Value(d / 3600);
    Pad2Value((d % 3600) / 60);
    var r := Format(d);
    assert r[..2] == Pad2(d / 3600);
    assert r[3..] == Pad2((d % 3600) / 60);
  }

  /** Reading "HH:MM" back gives the whole hours and minutes of the duration. */
  function ReadHoursMinutes(r: string): (hm: Option<(nat, nat)>)
  {
    if |r| == 5 && r[2] == ':' && AllDigits(r[..2]) && AllDigits(r[3..]) then Some((Value(r[..2]), Value(r[3..])))
    else None
  }

  lemma FormatRoundTrip(d: int)
    requires 0 <= d < SecondsPerDay
    ensures ReadHoursMinutes(Format(d)) == Some((d / 3600, (d % 3600) / 60))
  {
    FormatSpec(d);
  }

  /** An empty reading, or one `strptime` rejects, gives "". */
  lemma WorkHoursBlank(start: string, end: string)
    ensures start == "" || end == "" ==> WorkHours(start, end) == ""
    ensures ParseTime(start).None? || ParseTime(end).None? ==> WorkHours(start, end) == ""
  {
  }

  /**
    Two readings that parse give the "HH:MM" form of the single duration d in [0, 86400) that
    leads from the first to the second; two equal readings give "00:00".
  */
  lemma WorkHoursSpec(start: string, end: string)
    requires ParseTime(start).Some? && ParseTime(end).Some?
    ensures var a, b := ParseTime(start).value, ParseTime(end).value;
      exists d :: 0 <= d < SecondsPerDay && (a + d) % SecondsPerDay == b && WorkHours(start, end) == Format(d)
    ensures ReadHoursMinutes(WorkHours(start, end)).Some?
    ensures start == end ==> WorkHours(start, end) == "00:00"
  {
    var a, b := ParseTime(start).value, ParseTime(end).value;
    assert start != "" && end != "" by {
      assert Fields("") == [""];
    }
    DurationSpec(a, b, 0);
    FormatRoundTrip(Duration(a, b));
    if start == end {
      assert Duration(a, b) == 0;
      assert Format(0) == "00:00" by {
        assert Digits(0) == "0";
        assert Pad2(0) == "00";
      }
    }
  }

  /** Whatever the readings, the result is "" or two digits, a colon and two digits. */
  lemma WorkHoursShape(start: string, end: string)
    ensures WorkHours(start, end) == "" || ReadHoursMinutes(WorkHours(start, end)).Some?
  {
    if WorkHours(start, end) != "" {
      WorkHoursSpec(start, end);
    }
  }

  /** A colon with none before it is the first colon. */
  lemma FirstColonAt(s: string, j: int)
    requires 0 <= j < |s| && s[j] == ':' && ':' !in s[..j]
    ensures FirstColon(s) == j
  {
    var i := FirstColon(s);
    assert forall k :: 0 <= k < j ==> s[..j][k] == s[k];
    assert forall k :: 0 <= k < i ==> s[..i][k] == s[k];
  }

  /** The pieces of "a:rest" for a colon-free a are a and the pieces of rest. */
  lemma FieldsCons(a: string, rest: string)
    requires ':' !in a
    ensures Fields(a + ":" + rest) == [a] + Fields(rest)
  {
    var s := a + ":" + rest;
    assert s[..|a|] == a;
    FirstColonAt(s, |a|);
    assert s[|a| + 1..] == rest;
  }

  /** A colon-free string is a single piece. */
  lemma FieldsOne(z: string)
    requires ':' !in z
    ensures Fields(z) == [z]
  {
  }

  lemma JoinAssoc(x: string, y: string, z: string)
    ensures x + ":" + y + ":" + z == x + ":" + (y + ":" + z)
  {
  }

  /** Three colon-free pieces joined by colons are read with their numbers. */
  lemma FieldsThree(x: string, y: string, z: string)
    requires ':' !in x && ':' !in y && ':' !in z
    ensures Fields(x + ":" + y + ":" + z) == [x, y, z]
  {
    FieldsOne(z);
    FieldsCons(y, z);
    JoinAssoc(x, y, z);
    FieldsCons(x, y + ":" + z);
  }

  lemma ParseThree(x: string, y: string, z: string)
    requires ':' !in x && ':' !in y && ':' !in z
    ensures ParseTime(x + ":" + y + ":" + z) ==
      if Number(x).Some? && Number(y).Some? && Number(z).Some? &&
         Number(x).value <= 23 && Number(y).value <= 59 && Number(z).value <= 59
      then Some(Number(x).value * 3600 + Number(y).value * 60 + Number(z).value)
      else None
  {
    FieldsThree(x, y, z);
  }

  lemma Pad2Number(n: int)
    requires 0 <= n < 100
    ensures ':' !in Pad2(n) && Number(Pad2(n)) == Some(n)
  {
    Pad2Value(n);
  }

  /**
    What `strftime("%H:%M:%S")` writes for a time of day, `strptime` reads back: the clock
    reading of `datetime.now()` always parses, to its own seconds since midnight.
  */
  lemma ClockReadingParses(h: nat, m: nat, sec: nat)
    requires h <= 23 && m <= 59 && sec <= 59
    ensures ParseTime(Pad2(h) + ":" + Pad2(m) + ":" + Pad2(sec)) == Some(h * 3600 + m * 60 + sec)
  {
    Pad2Number(h);
    Pad2Number(m);
    Pad2Number(sec);
    ParseThree(Pad2(h), Pad2(m), Pad2(sec));
  }
}
