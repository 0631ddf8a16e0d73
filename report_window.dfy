// The start/end window of an inventory report, derived from the report form:
// monthly (a "YYYY-MM" month), weekly ("<date> to <date>") or daily (one date,
// working hours), then refused when it starts in the future and clamped to now.

module ReportWindow {
  import opened Base
  import opened Calendar

  /** [start, end] as naive datetimes in microseconds. */
  datatype Window = Window(start: int, end: int)

  datatype WindowError =
    | MonthRequired      // monthly report without a month
    | RangeRequired      // weekly report without a "to" range
    | RangeFormat        // the range did not split into exactly two parts
    | DateRequired       // daily report without a date
    | UnknownReportType
    | BadDate            // strptime raised ValueError
    | DateOverflow       // timedelta arithmetic left the date range (OverflowError)
    | FutureDates        // the window starts after now

  /** Last day of the month of `first`, computed as the view does: take the 28th, add four days
      (which always lands in the next month), then step back by that date's day number.
      None where Python raises OverflowError (December 9999). */
  function MonthEnd(first: Date): Option<Date>
    requires ValidDate(first)
  {
    var d28 := Date(first.year, first.month, 28);
    if Ordinal(d28) + 4 > MaxOrdinal then None
    else
      var next := AddDays(d28, 4);
      OrdinalAtLeastDay(d28);
      Some(SubDays(next, next.day))
  }

  /** The month trick lands on the last day of the same month. */
  lemma MonthEndIsLastDay(first: Date)
    requires ValidDate(first) && !(first.year == MaxYear && first.month == 12)
    ensures MonthEnd(first) == Some(Date(first.year, first.month, DaysInMonth(first.year, first.month)))
  {
    var y, m := first.year, first.month;
    var d28 := Date(y, m, 28);
    var expected := FourDaysAfter28(y, m);
    FourDaysAfter28Ordinal(y, m);
    OrdinalRange(expected);
    var next := AddDays(d28, 4);
    OrdinalInjective(next, expected);
    var last := Date(y, m, DaysInMonth(y, m));
    OrdinalInjective(SubDays(next, next.day), last);
  }

  /** The date four days after the 28th of a month: day 32 - n of the next month, where the
      month has n days. */
  function FourDaysAfter28(y: int, m: int): Date
    requires 1 <= m <= 12
  {
    var k := 32 - DaysInMonth(y, m);
    if m == 12 then Date(y + 1, 1, k) else Date(y, m + 1, k)
  }

  lemma FourDaysAfter28Ordinal(y: int, m: int)
    requires ValidDate(Date(y, m, 1)) && !(y == MaxYear && m == 12)
    ensures ValidDate(FourDaysAfter28(y, m))
    ensures Ordinal(FourDaysAfter28(y, m)) == Ordinal(Date(y, m, 28)) + 4
  {
    if m == 12 {
      YearStep(y);
      WholeYear(y);
    }
  }

  /** December 9999 has no "four days after the 28th". */
  lemma MonthEndOverflow(first: Date)
    requires ValidDate(first) && first.year == MaxYear && first.month == 12
    ensures MonthEnd(first) == None
  {
    MaxOrdinalValue();
    assert Ordinal(Date(MaxYear, 12, 28)) == Ordinal(MaxDate) - 3;
  }

  /** Monthly: strptime(month + "-01") to the last day of that month found by MonthEnd. */
  function MonthlyRaw(month: Option<string>): Result<Window, WindowError>
  {
    if !Truthy(month) then Err(MonthRequired)
    else
      match ParseDate(month.value + "-01")
      case None => Err(BadDate)
      case Some(first) =>
        match MonthEnd(first)
        case None => Err(DateOverflow)
        case Some(last) => Ok(Window(Instant(first, 0, 0), Instant(last, 0, 0)))
  }

  /** Weekly: split on "to", strip both halves and parse each as a date. */
  function WeeklyRaw(weekRange: Option<string>): Result<Window, WindowError>
  {
    if !Truthy(weekRange) || !Occurs(weekRange.value, "to") then Err(RangeRequired)
    else
      WeekFromParts(Split(weekRange.value, "to"))
  }

  /** The two halves of a split range, each stripped and parsed. */
  function WeekFromParts(parts: seq<string>): Result<Window, WindowError>
  {
    if |parts| != 2 then Err(RangeFormat)
    else
      match ParseDate(Strip(parts[0]))
      case None => Err(BadDate)
      case Some(a) =>
        match ParseDate(Strip(parts[1]))
        case None => Err(BadDate)
        case Some(b) => Ok(Window(Instant(a, 0, 0), Instant(b, 0, 0)))
  }

  /** Daily: the working hours 06:00 to 19:00 of one date. */
  function DailyRaw(dayDate: Option<string>): Result<Window, WindowError>
  {
    if !Truthy(dayDate) then Err(DateRequired)
    else
      match ParseDate(dayDate.value)
      case None => Err(BadDate)
      case Some(d) => Ok(Window(Instant(d, 6, 0), Instant(d, 19, 0)))
  }

  /** The window the form asks for, before comparing it with now. */
  function RawWindow(reportType: Option<string>, month: Option<string>, weekRange: Option<string>,
                     dayDate: Option<string>): Result<Window, WindowError>
  {
    if reportType == Some("monthly") then MonthlyRaw(month)
    else if reportType == Some("weekly") then WeeklyRaw(weekRange)
    else if reportType == Some("daily") then DailyRaw(dayDate)
    else Err(UnknownReportType)
  }

  /** The window the report is generated for: a window starting after `now` is refused,
      and one ending after `now` is cut back to `now`. */
  function DeriveWindow(reportType: Option<string>, month: Option<string>, weekRange: Option<string>,
                        dayDate: Option<string>, now: int): (r: Result<Window, WindowError>)
    ensures r.Ok? ==> r.value.start <= now && r.value.end <= now
    ensures var raw := RawWindow(reportType, month, weekRange, dayDate);
            && (raw.Err? ==> r == Err(raw.error))
            && (raw.Ok? && raw.value.start > now ==> r == Err(FutureDates))
            && (raw.Ok? && raw.value.start <= now ==>
                  r.Ok? && r.value.start == raw.value.start
                  && (raw.value.end <= now ==> r.value.end == raw.value.end)
                  && (raw.value.end > now ==> r.value.end == now))
  {
    match RawWindow(reportType, month, weekRange, dayDate)
    case Err(e) => Err(e)
    case Ok(w) =>
      if w.start > now then Err(FutureDates)
      else if w.end > now then Ok(Window(w.start, now))
      else Ok(w)
  }

  /** A successfully parsed "<month>-01" is always the first of a month. */
  lemma FirstOfMonth(month: string)
    requires ParseDate(month + "-01").Some?
    ensures ParseDate(month + "-01").value.day == 1
  {
    var s := month + "-01";
    assert s[|s| - 3] == '-' && s[|s| - 2] == '0' && s[|s| - 1] == '1';
  }

  /** Monthly: from midnight of the 1st to midnight of the last day of that same month. */
  lemma MonthlyWindow(month: string)
    requires month != "" && ParseDate(month + "-01").Some?
    requires var first := ParseDate(month + "-01").value; !(first.year == MaxYear && first.month == 12)
    ensures var first := ParseDate(month + "-01").value;
            var last := Date(first.year, first.month, DaysInMonth(first.year, first.month));
            && first.day == 1
            && MonthlyRaw(Some(month)) == Ok(Window(Instant(first, 0, 0), Instant(last, 0, 0)))
  {
    FirstOfMonth(month);
    MonthEndIsLastDay(ParseDate(month + "-01").value);
  }

  /** The monthly end is 00:00 of the last day, so a transaction later that day is outside it. */
  lemma MonthlyWindowEndsAtMidnight(month: string, hour: int)
    requires month != "" && ParseDate(month + "-01").Some?
    requires var first := ParseDate(month + "-01").value; !(first.year == MaxYear && first.month == 12)
    requires 0 < hour < 24
    ensures var first := ParseDate(month + "-01").value;
            var last := Date(first.year, first.month, DaysInMonth(first.year, first.month));
            var w := MonthlyRaw(Some(month));
            w.Ok? && Instant(last, hour, 0) > w.value.end
  {
    MonthlyWindow(month);
  }

  /** Weekly, one direction: "<a>to<b>" whose halves hold no "to" and parse after strip
      gives midnight of the first date to midnight of the second. */
  lemma WeeklyWindow(a: string, b: string)
    requires !Occurs(a, "to") && !Occurs(b, "to")
    requires ParseDate(Strip(a)).Some? && ParseDate(Strip(b)).Some?
    ensures WeeklyRaw(Some(a + "to" + b))
            == Ok(Window(Instant(ParseDate(Strip(a)).value, 0, 0), Instant(ParseDate(Strip(b)).value, 0, 0)))
  {
    var s := a + "to" + b;
    SeparatorOccurs(a, b);
    SplitTwo(a, "to", b);
    WeeklyRawSplits(s);
    WeekFromTwo(a, b);
  }

  lemma SeparatorOccurs(a: string, b: string)
    ensures Occurs(a + "to" + b, "to")
  {
    var s := a + "to" + b;
    assert OccursAt(s, "to", |a|) by { assert s[|a|..|a| + 2] == "to"; }
  }

  lemma WeekFromTwo(a: string, b: string)
    requires ParseDate(Strip(a)).Some? && ParseDate(Strip(b)).Some?
    ensures WeekFromParts([a, b]) == Ok(Window(Instant(ParseDate(Strip(a)).value, 0, 0), Instant(ParseDate(Strip(b)).value, 0, 0)))
  {
  }

  lemma WeeklyRawSplits(range: string)
    requires range != "" && Occurs(range, "to")
    ensures WeeklyRaw(Some(range)) == WeekFromParts(Split(range, "to"))
  {
  }

  /** Weekly, the other direction: an accepted range is exactly two "to"-free halves around one "to". */
  lemma WeeklyWindowShape(range: string)
    requires WeeklyRaw(Some(range)).Ok?
    ensures exists a, b :: range == a + "to" + b && !Occurs(a, "to") && !Occurs(b, "to")
  {
    var parts := Split(range, "to");
    assert Join(parts, "to") == parts[0] + "to" + parts[1];
    assert range == parts[0] + "to" + parts[1];
  }

  /** Daily: 06:00 to 19:00 of the given day. */
  lemma DailyWindow(day: string)
    requires ParseDate(day).Some?
    ensures var w := DailyRaw(Some(day)).value;
            && w.end - w.start == 13 * 60 * MicrosPerMinute
            && DayOf(w.start) == DayOf(w.end) == Ordinal(ParseDate(day).value)
            && w.start == Instant(ParseDate(day).value, 6, 0)
  {
    var d := ParseDate(day).value;
    InstantDay(d, 6, 0);
    InstantDay(d, 19, 0);
  }
}
