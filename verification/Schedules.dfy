/** Weekly opening hours: validation of a full week and the resolution of one
    row into the opening hours of a calendar day. */
module Schedules {
  import opened Clock
  import opened Availability
  import opened Decimal
  import opened Iteration
  import opened Options

  type PointId = nat

  datatype Error = InvalidSchedule | InvalidWeekday | DuplicateWeekday | InvalidHours | InvalidBreak

  datatype Result<+T> = Ok(value: T) | Err(error: Error)

  datatype Input = Input(weekday: int, isOpen: bool, openTime: Option<string>, closeTime: Option<string>,
                         breakStart: Option<string>, breakEnd: Option<string>)

  /** One stored weekday, counted from Monday. */
  datatype Row = Row(weekday: int, isOpen: bool, openTime: Option<string>, closeTime: Option<string>,
                     breakStart: Option<string>, breakEnd: Option<string>)

  // ----- "HH:MM" -----

  /** The stored format: two digits of hour below 24, a colon, two of minute below 60. */
  predicate TimeFormat(s: string) {
    && |s| == 5 && s[2] == ':'
    && ((('0' <= s[0] <= '1') && IsDigit(s[1])) || (s[0] == '2' && '0' <= s[1] <= '3'))
    && '0' <= s[3] <= '5' && IsDigit(s[4])
  }

  /** The library's reading of the layout "15:04": the hour may have one digit. */
  function ParseClock(s: string): Option<(int, int)> {
    if |s| == 0 || !IsDigit(s[0]) then None
    else
      var two := |s| > 1 && IsDigit(s[1]);
      var hour := if two then 10 * DigitValue(s[0]) + DigitValue(s[1]) else DigitValue(s[0]);
      var rest := if two then s[2..] else s[1..];
      if hour >= 24 || |rest| != 3 || rest[0] != ':' || !IsDigit(rest[1]) || !IsDigit(rest[2]) then None
      else
        var minute := 10 * DigitValue(rest[1]) + DigitValue(rest[2]);
        if minute >= 60 then None else Some((hour, minute))
  }

  /** Minutes since midnight. */
  function Minutes(s: string): int
    requires ParseClock(s).Some?
  {
    60 * ParseClock(s).value.0 + ParseClock(s).value.1
  }

  lemma FormatParses(s: string)
    requires TimeFormat(s)
    ensures ParseClock(s).Some? && 0 <= Minutes(s) < 24 * 60
    ensures Minutes(s) == 600 * DigitValue(s[0]) + 60 * DigitValue(s[1]) + 10 * DigitValue(s[3]) + DigitValue(s[4])
  {
    assert s[2..][0] == ':' && s[2..][1] == s[3] && s[2..][2] == s[4];
  }

  function TwoDigits(n: nat): string
    requires n < 100
  {
    [DigitOf(n / 10), DigitOf(n % 10)]
  }

  /** The accepted strings are exactly the 24-hour times, each naming its own minute. */
  lemma TimeFormatIsClock(s: string)
    ensures TimeFormat(s) <==> exists h: nat, m: nat :: h < 24 && m < 60 && s == TwoDigits(h) + ":" + TwoDigits(m)
    ensures forall h: nat, m: nat :: h < 24 && m < 60 && s == TwoDigits(h) + ":" + TwoDigits(m) ==>
              ParseClock(s).Some? && Minutes(s) == 60 * h + m
  {
    forall h: nat, m: nat | h < 24 && m < 60 && s == TwoDigits(h) + ":" + TwoDigits(m)
      ensures TimeFormat(s) && ParseClock(s).Some? && Minutes(s) == 60 * h + m
    {
      assert s[0] == DigitOf(h / 10) && s[1] == DigitOf(h % 10) && s[3] == DigitOf(m / 10) && s[4] == DigitOf(m % 10);
      FormatParses(s);
    }
    if TimeFormat(s) {
      var h: nat, m: nat := 10 * DigitValue(s[0]) + DigitValue(s[1]), 10 * DigitValue(s[3]) + DigitValue(s[4]);
      assert h / 10 == DigitValue(s[0]) && m / 10 == DigitValue(s[3]);
      assert s == TwoDigits(h) + ":" + TwoDigits(m);
    }
  }

  /** The language's order on strings. */
  predicate Less(a: string, b: string) {
    if b == [] then false
    else if a == [] then true
    else a[0] < b[0] || (a[0] == b[0] && Less(a[1..], b[1..]))
  }

  lemma LessAt(a: string, b: string, k: nat)
    requires k < |a| && k < |b| && a[..k] == b[..k]
    requires a[k] != b[k]
    ensures Less(a, b) <==> a[k] < b[k]
  {
    if k > 0 {
      assert a[0] == a[..k][0] && b[0] == b[..k][0];
      assert a[1..][..k - 1] == a[..k][1..] && b[1..][..k - 1] == b[..k][1..];
      LessAt(a[1..], b[1..], k - 1);
    }
  }

  lemma {:induction false} LessIrreflexive(a: string)
    ensures !Less(a, a)
  {
    if a != [] { LessIrreflexive(a[1..]); }
  }

  /** On well-formed times the string order is the order of the clock. */
  lemma StringOrderIsClockOrder(a: string, b: string)
    requires TimeFormat(a) && TimeFormat(b)
    ensures ParseClock(a).Some? && ParseClock(b).Some?
    ensures Less(a, b) <==> Minutes(a) < Minutes(b)
    ensures a == b <==> Minutes(a) == Minutes(b)
  {
    FormatParses(a);
    FormatParses(b);
    if k :| 0 <= k < 5 && a[k] != b[k] && a[..k] == b[..k] {
      LessAt(a, b, k);
      assert forall i :: 0 <= i < k ==> a[i] == a[..k][i] && b[i] == b[..k][i];
    } else {
      assert a[..0] == b[..0];
      assert a[0] == b[0] && a[..1] == b[..1];
      assert a[1] == b[1] && a[..2] == b[..2];
      assert a[..3] == b[..3];
      assert a[3] == b[3] && a[..4] == b[..4];
      assert a == b;
      LessIrreflexive(a);
    }
  }

  // ----- validation -----

  predicate LessEq(a: string, b: string) {
    !Less(b, a)
  }

  predicate Formatted(t: Option<string>) {
    t.Some? && TimeFormat(t.value)
  }

  /** What is wrong with an open weekday's hours, if anything. */
  function HoursError(i: Input): Option<Error> {
    if !Formatted(i.openTime) || !Formatted(i.closeTime) then Some(InvalidHours)
    else if Minutes(i.closeTime.value) <= Minutes(i.openTime.value) then Some(InvalidHours)
    else if i.breakStart.None? && i.breakEnd.None? then None
    else if !Formatted(i.breakStart) || !Formatted(i.breakEnd) then Some(InvalidBreak)
    else if Minutes(i.breakStart.value) < Minutes(i.breakEnd.value)
         && Minutes(i.openTime.value) <= Minutes(i.breakStart.value)
         && Minutes(i.breakEnd.value) <= Minutes(i.closeTime.value) then None
    else Some(InvalidBreak)
  }

  /** The row stored for an accepted input: a closed weekday keeps no hours. */
  function RowOf(i: Input): Row {
    if i.isOpen then Row(i.weekday, true, i.openTime, i.closeTime, i.breakStart, i.breakEnd)
    else Row(i.weekday, false, None, None, None, None)
  }

  /** validateHours compares the strings; its verdict is that of the clock times. */
  method ValidateHours(row: Row, i: Input) returns (filled: Row, err: Option<Error>)
    requires row == Row(i.weekday, true, None, None, None, None) && i.isOpen
    ensures err == HoursError(i)
    ensures err.None? ==> filled == RowOf(i)
  {
    filled, err := row, None;
    if i.openTime.None? || i.closeTime.None? {
      return filled, Some(InvalidHours);
    }
    if !TimeFormat(i.openTime.value) || !TimeFormat(i.closeTime.value) {
      return filled, Some(InvalidHours);
    }
    StringOrderIsClockOrder(i.openTime.value, i.closeTime.value);
    if LessEq(i.closeTime.value, i.openTime.value) {
      return filled, Some(InvalidHours);
    }
    filled := filled.(openTime := i.openTime, closeTime := i.closeTime);
    if i.breakStart.None? && i.breakEnd.None? {
      return;
    }
    if i.breakStart.None? || i.breakEnd.None? {
      return filled, Some(InvalidBreak);
    }
    if !TimeFormat(i.breakStart.value) || !TimeFormat(i.breakEnd.value) {
      return filled, Some(InvalidBreak);
    }
    StringOrderIsClockOrder(i.breakStart.value, i.breakEnd.value);
    if LessEq(i.breakEnd.value, i.breakStart.value) {
      return filled, Some(InvalidBreak);
    }
    StringOrderIsClockOrder(i.breakStart.value, i.openTime.value);
    StringOrderIsClockOrder(i.closeTime.value, i.breakEnd.value);
    if Less(i.breakStart.value, i.openTime.value) || Less(i.closeTime.value, i.breakEnd.value) {
      return filled, Some(InvalidBreak);
    }
    filled := filled.(breakStart := i.breakStart, breakEnd := i.breakEnd);
  }

  /** The k-th input's own fault, given those before it. */
  ghost function InputError(inputs: seq<Input>, k: nat): Option<Error>
    requires k < |inputs|
  {
    if !(0 <= inputs[k].weekday <= 6) then Some(InvalidWeekday)
    else if exists j :: 0 <= j < k && inputs[j].weekday == inputs[k].weekday then Some(DuplicateWeekday)
    else if inputs[k].isOpen then HoursError(inputs[k])
    else None
  }

  ghost predicate IsFirstError(inputs: seq<Input>, e: Error) {
    exists k :: 0 <= k < |inputs| && InputError(inputs, k) == Some(e) && NoErrorBefore(inputs, k)
  }

  ghost predicate NoErrorBefore(inputs: seq<Input>, k: nat)
    requires k <= |inputs|
  {
    forall j :: 0 <= j < k ==> InputError(inputs, j).None?
  }

  ghost predicate AcceptableWeek(inputs: seq<Input>) {
    |inputs| == 7 && forall k :: 0 <= k < 7 ==> InputError(inputs, k).None?
  }

  /** rows holds one row per weekday, each made from the one input for that weekday. */
  ghost predicate IsWeekOf(rows: seq<Row>, inputs: seq<Input>) {
    && |rows| == 7
    && (forall w :: 0 <= w < 7 ==> rows[w].weekday == w)
    && (forall w :: 0 <= w < 7 ==> MadeFor(rows[w], inputs, w))
    && (forall k :: 0 <= k < |inputs| ==> 0 <= inputs[k].weekday < 7 && rows[inputs[k].weekday] == RowOf(inputs[k]))
  }

  ghost predicate MadeFor(row: Row, inputs: seq<Input>, w: int) {
    exists k :: 0 <= k < |inputs| && inputs[k].weekday == w && row == RowOf(inputs[k])
  }

  function Weekdays(inputs: seq<Input>): set<int> {
    set k | 0 <= k < |inputs| :: inputs[k].weekday
  }

  lemma {:induction false} DistinctWeekdays(inputs: seq<Input>, n: nat)
    requires n <= |inputs|
    requires forall i, j :: 0 <= i < j < n ==> inputs[i].weekday != inputs[j].weekday
    ensures |Weekdays(inputs[..n])| == n
  {
    if n > 0 {
      DistinctWeekdays(inputs, n - 1);
      assert Weekdays(inputs[..n]) == Weekdays(inputs[..n - 1]) + {inputs[n - 1].weekday};
    } else {
      assert Weekdays(inputs[..0]) == {};
    }
  }

  /** Seven different weekdays leave none out. */
  lemma AllWeekdaysCovered(inputs: seq<Input>, w: int)
    requires AcceptableWeek(inputs) && 0 <= w < 7
    ensures exists k :: 0 <= k < 7 && inputs[k].weekday == w
  {
    forall i, j | 0 <= i < j < 7 ensures inputs[i].weekday != inputs[j].weekday {
      assert InputError(inputs, j).None?;
    }
    DistinctWeekdays(inputs, 7);
    assert inputs[..7] == inputs;
    var days := Weekdays(inputs);
    forall d | d in days ensures 0 <= d < 7 {
      var k :| 0 <= k < |inputs| && inputs[k].weekday == d;
      assert InputError(inputs, k).None?;
    }
    assert days <= {0, 1, 2, 3, 4, 5, 6};
    if w !in days {
      assert days <= {0, 1, 2, 3, 4, 5, 6} - {w};
      SubsetSize(days, {0, 1, 2, 3, 4, 5, 6} - {w});
    }
  }

  class Store {
    var rows: map<PointId, seq<Row>>

    constructor ()
      ensures rows == map[]
    {
      rows := map[];
    }

    /** Replaces the whole week of a point when every input is acceptable; otherwise
        reports the first fault and changes nothing. */
    method Replace(point: PointId, inputs: seq<Input>) returns (r: Result<seq<Row>>)
      modifies this
      ensures r.Ok? <==> AcceptableWeek(inputs)
      ensures r.Ok? ==> IsWeekOf(r.value, inputs) && rows == old(rows)[point := r.value]
      ensures r.Err? ==> rows == old(rows)
      ensures r.Err? && |inputs| != 7 ==> r.error == InvalidSchedule
      ensures r.Err? && |inputs| == 7 ==> IsFirstError(inputs, r.error)
    {
      if |inputs| != 7 {
        return Err(InvalidSchedule);
      }
      var week := seq(7, i => Row(0, false, None, None, None, None));
      var seen: set<int> := {};
      for k := 0 to 7
        invariant rows == old(rows) && |week| == 7
        invariant seen == Weekdays(inputs[..k]) && NoErrorBefore(inputs, k)
        invariant forall j :: 0 <= j < k ==> 0 <= inputs[j].weekday < 7 && week[inputs[j].weekday] == RowOf(inputs[j])
      {
        var i := inputs[k];
        if i.weekday < 0 || i.weekday > 6 {
          assert InputError(inputs, k) == Some(InvalidWeekday);
          return Err(InvalidWeekday);
        }
        if i.weekday in seen {
          var j :| 0 <= j < |inputs[..k]| && inputs[..k][j].weekday == i.weekday;
          assert inputs[j].weekday == i.weekday && InputError(inputs, k) == Some(DuplicateWeekday);
          return Err(DuplicateWeekday);
        }
        forall j | 0 <= j < k ensures inputs[j].weekday != i.weekday {
          assert inputs[..k][j] == inputs[j];
        }
        seen := seen + {i.weekday};
        var row := Row(i.weekday, i.isOpen, None, None, None, None);
        if i.isOpen {
          var filled, err := ValidateHours(row, i);
          if err.Some? {
            assert InputError(inputs, k) == err;
            return Err(err.value);
          }
          row := filled;
        }
        week := week[i.weekday := row];
        assert Weekdays(inputs[..k + 1]) == Weekdays(inputs[..k]) + {i.weekday};
      }
      forall w | 0 <= w < 7
        ensures week[w].weekday == w
        ensures MadeFor(week[w], inputs, w)
      {
        AllWeekdaysCovered(inputs, w);
        var k :| 0 <= k < 7 && inputs[k].weekday == w;
      }
      rows := rows[point := week];
      r := Ok(week);
    }
  }

  // ----- resolution -----

  function CombineDayAndTime(day: Instant, hhmm: string): Option<Instant> {
    match ParseClock(hhmm)
    case None => None
    case Some(t) => Some(LocalMidnight(day) + t.0 * HOUR + t.1 * MINUTE)
  }

  const CLOSED: DaySchedule := DaySchedule(false, 0, 0, None, None)

  /** None when a stored time does not parse. */
  function ResolveDaySchedule(day: Instant, row: Option<Row>): Option<DaySchedule> {
    if row.None? || !row.value.isOpen || row.value.openTime.None? || row.value.closeTime.None? then Some(CLOSED)
    else
      var open, close := CombineDayAndTime(day, row.value.openTime.value), CombineDayAndTime(day, row.value.closeTime.value);
      if open.None? || close.None? then None
      else if row.value.breakStart.Some? && row.value.breakEnd.Some? then
        var bs, be := CombineDayAndTime(day, row.value.breakStart.value), CombineDayAndTime(day, row.value.breakEnd.value);
        if bs.None? || be.None? then None
        else Some(DaySchedule(true, open.value, close.value, bs, be))
      else Some(DaySchedule(true, open.value, close.value, None, None))
  }

  /** A stored time that is missing or readable. */
  predicate Readable(t: Option<string>) {
    t.Some? ==> ParseClock(t.value).Some?
  }

  /** The instant lies between two stored times of the local day. */
  predicate Between(day: Instant, from: string, until: string, t: Instant)
    requires ParseClock(from).Some? && ParseClock(until).Some?
  {
    Minutes(from) * MINUTE <= t - LocalMidnight(day) < Minutes(until) * MINUTE
  }

  lemma CombineIsMinutes(day: Instant, hhmm: string)
    ensures CombineDayAndTime(day, hhmm).Some? <==> ParseClock(hhmm).Some?
    ensures ParseClock(hhmm).Some? ==> CombineDayAndTime(day, hhmm).value == LocalMidnight(day) + Minutes(hhmm) * MINUTE
  {
    if ParseClock(hhmm).Some? {
      var t := ParseClock(hhmm).value;
      assert t.0 * HOUR + t.1 * MINUTE == (60 * t.0 + t.1) * MINUTE;
    }
  }

  /** Any stored row, on any day: open exactly from its opening to its closing time, except from
      the start to the end of its break when it has both; closed without a row, when marked so
      or without hours. */
  lemma ResolvedDayIsOpen(day: Instant, row: Option<Row>, t: Instant)
    requires row.Some? ==>
               Readable(row.value.openTime) && Readable(row.value.closeTime)
               && Readable(row.value.breakStart) && Readable(row.value.breakEnd)
    ensures ResolveDaySchedule(day, row).Some?
    ensures ResolveDaySchedule(day, row).value.OpenAt(t) <==>
            && row.Some? && row.value.isOpen && row.value.openTime.Some? && row.value.closeTime.Some?
            && Between(day, row.value.openTime.value, row.value.closeTime.value, t)
            && !(row.value.breakStart.Some? && row.value.breakEnd.Some?
                 && Between(day, row.value.breakStart.value, row.value.breakEnd.value, t))
  {
    if row.Some? && row.value.isOpen && row.value.openTime.Some? && row.value.closeTime.Some? {
      CombineIsMinutes(day, row.value.openTime.value);
      CombineIsMinutes(day, row.value.closeTime.value);
      if row.value.breakStart.Some? && row.value.breakEnd.Some? {
        CombineIsMinutes(day, row.value.breakStart.value);
        CombineIsMinutes(day, row.value.breakEnd.value);
      }
    }
  }

  /** After an accepted input the day is open from the opening to the closing time asked for,
      outside the break asked for. */
  lemma AcceptedRowIsOpen(day: Instant, i: Input, t: Instant)
    requires i.isOpen && HoursError(i).None?
    ensures ResolveDaySchedule(day, Some(RowOf(i))).Some?
    ensures var m := t - LocalMidnight(day);
            ResolveDaySchedule(day, Some(RowOf(i))).value.OpenAt(t) <==>
              && Minutes(i.openTime.value) * MINUTE <= m < Minutes(i.closeTime.value) * MINUTE
              && !(i.breakStart.Some?
                   && Minutes(i.breakStart.value) * MINUTE <= m < Minutes(i.breakEnd.value) * MINUTE)
  {
    FormatParses(i.openTime.value);
    FormatParses(i.closeTime.value);
    if i.breakStart.Some? {
      FormatParses(i.breakStart.value);
      FormatParses(i.breakEnd.value);
    }
    ResolvedDayIsOpen(day, Some(RowOf(i)), t);
  }

  function TotalLength(windows: seq<TimeRange>): Duration {
    if windows == [] then 0
    else windows[0].end - windows[0].start + TotalLength(windows[1..])
  }

  /** Minutes the input asks the point to be open: the hours less the break. */
  function OpenMinutes(i: Input): int
    requires i.isOpen && HoursError(i).None?
  {
    Minutes(i.closeTime.value) - Minutes(i.openTime.value) -
    (if i.breakStart.Some? then Minutes(i.breakEnd.value) - Minutes(i.breakStart.value) else 0)
  }

  lemma CombineIsOffset(day: Instant, hhmm: string)
    requires TimeFormat(hhmm)
    ensures ParseClock(hhmm).Some? && 0 <= Minutes(hhmm) < 24 * 60
    ensures CombineDayAndTime(day, hhmm) == Some(LocalMidnight(day) + Minutes(hhmm) * MINUTE)
  {
    FormatParses(hhmm);
    var t := ParseClock(hhmm).value;
    assert t.0 * HOUR + t.1 * MINUTE == (60 * t.0 + t.1) * MINUTE;
  }

  lemma WindowsLength(d: DaySchedule)
    requires d.isOpen && d.open < d.close
    requires d.breakStart.Some? <==> d.breakEnd.Some?
    requires d.breakStart.Some? ==> d.open <= d.breakStart.value < d.breakEnd.value <= d.close
    ensures TotalLength(d.Windows()) ==
            d.close - d.open - (if d.breakStart.Some? then d.breakEnd.value - d.breakStart.value else 0)
  {
    var ws := d.Windows();
    if |ws| == 2 {
      assert ws[1..] == [ws[1]] && ws[1..][1..] == [];
      assert TotalLength(ws[1..]) == ws[1].end - ws[1].start;
    } else if |ws| == 1 {
      assert ws[1..] == [];
    }
  }

  /** An accepted input resolves, on any day, to opening hours inside that local day:
      the break within them and open for exactly the minutes asked for. */
  lemma AcceptedRowResolves(day: Instant, i: Input)
    requires i.isOpen ==> HoursError(i).None?
    ensures ResolveDaySchedule(day, Some(RowOf(i))).Some?
    ensures var d := ResolveDaySchedule(day, Some(RowOf(i))).value;
            && d.isOpen == i.isOpen
            && (i.isOpen ==>
                  && DayBounds(day).0 <= d.open < d.close < DayBounds(day).1
                  && (d.breakStart.Some? <==> d.breakEnd.Some?)
                  && (d.breakStart.Some? ==> d.open <= d.breakStart.value < d.breakEnd.value <= d.close)
                  && TotalLength(d.Windows()) == OpenMinutes(i) * MINUTE)
            && (!i.isOpen ==> d.Windows() == [])
  {
    if i.isOpen {
      CombineIsOffset(day, i.openTime.value);
      CombineIsOffset(day, i.closeTime.value);
      if i.breakStart.Some? {
        CombineIsOffset(day, i.breakStart.value);
        CombineIsOffset(day, i.breakEnd.value);
      }
      WindowsLength(ResolveDaySchedule(day, Some(RowOf(i))).value);
    }
  }

  /** From the request to the calendar: after an accepted replacement each day of the
      week resolves through the one input given for its weekday. */
  lemma AcceptedWeekResolves(rows: seq<Row>, inputs: seq<Input>, day: Instant) returns (k: nat)
    requires AcceptableWeek(inputs) && IsWeekOf(rows, inputs)
    ensures k < 7 && inputs[k].weekday == WeekdayIndex(day)
    ensures forall j :: 0 <= j < 7 && inputs[j].weekday == WeekdayIndex(day) ==> j == k
    ensures ResolveDaySchedule(day, Some(rows[WeekdayIndex(day)])) == ResolveDaySchedule(day, Some(RowOf(inputs[k])))
    ensures ResolveDaySchedule(day, Some(rows[WeekdayIndex(day)])).Some?
    ensures inputs[k].isOpen ==> HoursError(inputs[k]).None?
    ensures ResolveDaySchedule(day, Some(rows[WeekdayIndex(day)])).value.isOpen <==> inputs[k].isOpen
  {
    AllWeekdaysCovered(inputs, WeekdayIndex(day));
    k :| 0 <= k < 7 && inputs[k].weekday == WeekdayIndex(day);
    assert InputError(inputs, k).None?;
    forall j | 0 <= j < 7 && inputs[j].weekday == WeekdayIndex(day) ensures j == k {
      assert InputError(inputs, j).None?;
    }
    AcceptedRowResolves(day, inputs[k]);
  }

  /** So each instant of a day is open exactly when the input for its weekday says so. */
  lemma AcceptedWeekIsOpen(rows: seq<Row>, inputs: seq<Input>, day: Instant, k: nat, t: Instant)
    requires AcceptableWeek(inputs) && IsWeekOf(rows, inputs) && k < 7 && inputs[k].weekday == WeekdayIndex(day)
    ensures inputs[k].isOpen ==> HoursError(inputs[k]).None?
    ensures var i := inputs[k];
            var m := t - LocalMidnight(day);
            var d := ResolveDaySchedule(day, Some(rows[WeekdayIndex(day)]));
            d.Some? &&
            (d.value.OpenAt(t) <==>
              && i.isOpen
              && Minutes(i.openTime.value) * MINUTE <= m < Minutes(i.closeTime.value) * MINUTE
              && !(i.breakStart.Some?
                   && Minutes(i.breakStart.value) * MINUTE <= m < Minutes(i.breakEnd.value) * MINUTE))
  {
    assert InputError(inputs, k).None?;
    if inputs[k].isOpen {
      AcceptedRowIsOpen(day, inputs[k], t);
    } else {
      ResolvedDayIsOpen(day, Some(RowOf(inputs[k])), t);
    }
  }

  // ----- which hours are accepted -----

  /** t is the text of minute m of a day. */
  predicate Says(t: Option<string>, m: nat) {
    m < 24 * 60 && t == Some(TwoDigits(m / 60) + ":" + TwoDigits(m % 60))
  }

  lemma MinuteSaid(t: Option<string>, m: nat)
    requires Says(t, m)
    ensures Formatted(t) && ParseClock(t.value).Some? && Minutes(t.value) == m
  {
    var h: nat, n: nat := m / 60, m % 60;
    assert h < 24 && n < 60 && t.value == TwoDigits(h) + ":" + TwoDigits(n);
    TimeFormatIsClock(t.value);
  }

  lemma FormattedSays(t: Option<string>)
    requires Formatted(t)
    ensures ParseClock(t.value).Some? && Minutes(t.value) >= 0 && Says(t, Minutes(t.value))
  {
    TimeFormatIsClock(t.value);
    var h: nat, n: nat :| h < 24 && n < 60 && t.value == TwoDigits(h) + ":" + TwoDigits(n);
    assert Minutes(t.value) == 60 * h + n;
    assert (60 * h + n) / 60 == h && (60 * h + n) % 60 == n;
  }

  ghost predicate NamesHours(i: Input) {
    exists o: nat, c: nat :: Says(i.openTime, o) && Says(i.closeTime, c) && o < c
  }

  ghost predicate NamesBreak(i: Input) {
    exists o: nat, c: nat, s: nat, e: nat ::
      Says(i.openTime, o) && Says(i.closeTime, c) && Says(i.breakStart, s) && Says(i.breakEnd, e) && o <= s < e <= c
  }

  /** An open weekday needs two times of day, the opening before the closing one, and either no
      break or two more times, the break's start before its end and both within the hours. */
  lemma HoursAcceptedExactly(i: Input)
    ensures HoursError(i) == Some(InvalidHours) <==> !NamesHours(i)
    ensures HoursError(i).None? <==>
            NamesHours(i) && ((i.breakStart.None? && i.breakEnd.None?) || NamesBreak(i))
  {
    HoursNamed(i);
    if NamesHours(i) {
      BreakNamed(i);
    }
  }

  lemma HoursNamed(i: Input)
    ensures NamesHours(i) <==> HoursError(i) != Some(InvalidHours)
  {
    if NamesHours(i) {
      var o: nat, c: nat :| Says(i.openTime, o) && Says(i.closeTime, c) && o < c;
      MinuteSaid(i.openTime, o);
      MinuteSaid(i.closeTime, c);
    } else if HoursError(i) != Some(InvalidHours) {
      FormattedSays(i.openTime);
      FormattedSays(i.closeTime);
    }
  }

  lemma BreakNamed(i: Input)
    requires NamesHours(i)
    ensures HoursError(i).None? <==> (i.breakStart.None? && i.breakEnd.None?) || NamesBreak(i)
  {
    HoursNamed(i);
    FormattedSays(i.openTime);
    FormattedSays(i.closeTime);
    if NamesBreak(i) {
      NamedBreakIsAccepted(i);
    } else if Formatted(i.breakStart) && Formatted(i.breakEnd) {
      FormattedSays(i.breakStart);
      FormattedSays(i.breakEnd);
    }
  }

  lemma NamedBreakIsAccepted(i: Input)
    requires NamesBreak(i)
    ensures HoursError(i).None?
  {
    var o: nat, c: nat, s: nat, e: nat :|
      Says(i.openTime, o) && Says(i.closeTime, c) && Says(i.breakStart, s) && Says(i.breakEnd, e) && o <= s < e <= c;
    BreakWithin(i, o, c, s, e);
  }

  lemma BreakWithin(i: Input, o: nat, c: nat, s: nat, e: nat)
    requires Says(i.openTime, o) && Says(i.closeTime, c) && Says(i.breakStart, s) && Says(i.breakEnd, e)
    requires o <= s < e <= c
    ensures HoursError(i).None?
  {
    MinuteSaid(i.openTime, o);
    MinuteSaid(i.closeTime, c);
    MinuteSaid(i.breakStart, s);
    MinuteSaid(i.breakEnd, e);
  }
}
