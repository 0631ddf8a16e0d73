// Python's calendar arithmetic as the report views use it: proleptic Gregorian dates,
// date.toordinal(), date.weekday(), day steps (timedelta arithmetic), naive datetimes
// as microsecond counts, and datetime.strptime(s, "%Y-%m-%d").

module Calendar {
  import opened Base

  datatype Date = Date(year: int, month: int, day: int)

  const MinYear := 1
  const MaxYear := 9999

  predicate IsLeap(y: int)
  {
    y % 4 == 0 && (y % 100 != 0 || y % 400 == 0)
  }

  function DaysInMonth(y: int, m: int): (n: int)
    requires 1 <= m <= 12
    ensures 28 <= n <= 31
  {
    if m == 2 then (if IsLeap(y) then 29 else 28)
    else if m == 4 || m == 6 || m == 9 || m == 11 then 30
    else 31
  }

  function DaysInYear(y: int): int
  {
    if IsLeap(y) then 366 else 365
  }

  /** A date Python's `date` type accepts (MINYEAR..MAXYEAR). */
  predicate ValidDate(d: Date)
  {
    MinYear <= d.year <= MaxYear && 1 <= d.month <= 12 && 1 <= d.day <= DaysInMonth(d.year, d.month)
  }

  function DaysBeforeYear(y: int): int
    requires y >= 1
  {
    var p := y - 1;
    p * 365 + p / 4 - p / 100 + p / 400
  }

  /** The days of the year before month `m`: between 28 and 31 for each earlier month. */
  function DaysBeforeMonth(y: int, m: int): (n: int)
    requires 1 <= m <= 12
    ensures n >= 0
    ensures 28 * (m - 1) <= n <= 31 * (m - 1)
  {
    if m == 1 then 0 else DaysBeforeMonth(y, m - 1) + DaysInMonth(y, m - 1)
  }

  /** date.toordinal(): 0001-01-01 is day 1. */
  function Ordinal(d: Date): int
    requires ValidDate(d)
  {
    DaysBeforeYear(d.year) + DaysBeforeMonth(d.year, d.month) + d.day
  }

  const MaxDate := Date(MaxYear, 12, 31)
  const MaxOrdinal := 3652059

  /** date.weekday() of the date with the given ordinal: Monday is 0, Sunday 6. */
  function Weekday(ordinal: int): (w: int)
    ensures 0 <= w < 7
  {
    (ordinal + 6) % 7
  }

  // ---------------------------------------------------------------------------
  // The ordinal is a bijection between valid dates and 1..MaxOrdinal.

  lemma YearStep(y: int)
    requires y >= 1
    ensures DaysBeforeYear(y + 1) == DaysBeforeYear(y) + DaysInYear(y)
  {
    var p := y - 1;
    assert (p + 1) / 4 == p / 4 + (if y % 4 == 0 then 1 else 0);
    assert (p + 1) / 100 == p / 100 + (if y % 100 == 0 then 1 else 0);
    assert (p + 1) / 400 == p / 400 + (if y % 400 == 0 then 1 else 0);
  }

  lemma WholeYear(y: int)
    ensures DaysBeforeMonth(y, 12) + DaysInMonth(y, 12) == DaysInYear(y)
  {
    var leap := if IsLeap(y) then 1 else 0;
    assert DaysBeforeMonth(y, 2) == 31;
    assert DaysBeforeMonth(y, 3) == 59 + leap;
    assert DaysBeforeMonth(y, 4) == 90 + leap;
    assert DaysBeforeMonth(y, 5) == 120 + leap;
    assert DaysBeforeMonth(y, 6) == 151 + leap;
    assert DaysBeforeMonth(y, 7) == 181 + leap;
    assert DaysBeforeMonth(y, 8) == 212 + leap;
    assert DaysBeforeMonth(y, 9) == 243 + leap;
    assert DaysBeforeMonth(y, 10) == 273 + leap;
    assert DaysBeforeMonth(y, 11) == 304 + leap;
    assert DaysBeforeMonth(y, 12) == 334 + leap;
  }

  /** Months before m, plus month m itself, fit in the year. */
  lemma {:induction false} MonthsFitYear(y: int, m: int)
    requires 1 <= m <= 12
    ensures DaysBeforeMonth(y, m) + DaysInMonth(y, m) <= DaysInYear(y)
    decreases 12 - m
  {
    if m == 12 {
      WholeYear(y);
    } else {
      MonthsFitYear(y, m + 1);
    }
  }

  lemma {:induction false} MonthsIncrease(y: int, m1: int, m2: int)
    requires 1 <= m1 < m2 <= 12
    ensures DaysBeforeMonth(y, m1) + DaysInMonth(y, m1) <= DaysBeforeMonth(y, m2)
    decreases m2 - m1
  {
    if m1 + 1 < m2 {
      MonthsIncrease(y, m1, m2 - 1);
    }
  }

  lemma {:induction false} YearsIncrease(y1: int, y2: int)
    requires 1 <= y1 < y2
    ensures DaysBeforeYear(y1) + DaysInYear(y1) <= DaysBeforeYear(y2)
    decreases y2 - y1
  {
    YearStep(y1);
    if y1 + 1 < y2 {
      YearsIncrease(y1 + 1, y2);
      YearStep(y1 + 1);
    }
  }

  /** Lexicographic order of (year, month, day). */
  predicate Before(a: Date, b: Date)
  {
    a.year < b.year || (a.year == b.year && (a.month < b.month || (a.month == b.month && a.day < b.day)))
  }

  lemma OrdinalWithinYear(d: Date)
    requires ValidDate(d)
    ensures DaysBeforeYear(d.year) < Ordinal(d) <= DaysBeforeYear(d.year) + DaysInYear(d.year)
  {
    MonthsFitYear(d.year, d.month);
  }

  /** toordinal() is strictly increasing in calendar order. */
  lemma OrdinalMonotone(a: Date, b: Date)
    requires ValidDate(a) && ValidDate(b) && Before(a, b)
    ensures Ordinal(a) < Ordinal(b)
  {
    if a.year < b.year {
      OrdinalWithinYear(a);
      OrdinalWithinYear(b);
      YearsIncrease(a.year, b.year);
    } else if a.month < b.month {
      MonthsIncrease(a.year, a.month, b.month);
    }
  }

  /** Hence two valid dates with the same ordinal are the same date (date.fromordinal is a function). */
  lemma OrdinalInjective(a: Date, b: Date)
    requires ValidDate(a) && ValidDate(b) && Ordinal(a) == Ordinal(b)
    ensures a == b
  {
    if Before(a, b) {
      OrdinalMonotone(a, b);
    } else if Before(b, a) {
      OrdinalMonotone(b, a);
    }
  }

  lemma MaxOrdinalValue()
    ensures ValidDate(MaxDate) && Ordinal(MaxDate) == MaxOrdinal
  {
  }

  /** A date's ordinal is at least its day of the month. */
  lemma OrdinalAtLeastDay(d: Date)
    requires ValidDate(d)
    ensures Ordinal(d) >= d.day
  {
    assert DaysBeforeYear(d.year) >= 0;
  }

  lemma OrdinalRange(d: Date)
    requires ValidDate(d)
    ensures 1 <= Ordinal(d) <= MaxOrdinal
  {
    assert DaysBeforeYear(d.year) >= 0;
    MaxOrdinalValue();
    if d != MaxDate {
      OrdinalMonotone(d, MaxDate);
    }
  }

  // ---------------------------------------------------------------------------
  // timedelta(days=n) arithmetic, one day at a time.

  /** d + timedelta(days=1). */
  function NextDay(d: Date): (r: Date)
    requires ValidDate(d) && d != MaxDate
    ensures ValidDate(r) && Ordinal(r) == Ordinal(d) + 1
  {
    if d.day < DaysInMonth(d.year, d.month) then Date(d.year, d.month, d.day + 1)
    else if d.month < 12 then
      MonthStep(d.year, d.month);
      Date(d.year, d.month + 1, 1)
    else
      NewYear(d.year);
      Date(d.year + 1, 1, 1)
  }

  /** The first of the next month follows the last day of this one. */
  lemma MonthStep(y: int, m: int)
    requires MinYear <= y <= MaxYear && 1 <= m < 12
    ensures ValidDate(Date(y, m, DaysInMonth(y, m))) && ValidDate(Date(y, m + 1, 1))
    ensures Ordinal(Date(y, m + 1, 1)) == Ordinal(Date(y, m, DaysInMonth(y, m))) + 1
  {
  }

  /** January 1st follows December 31st. */
  lemma NewYear(y: int)
    requires MinYear <= y < MaxYear
    ensures ValidDate(Date(y, 12, 31)) && ValidDate(Date(y + 1, 1, 1))
    ensures Ordinal(Date(y + 1, 1, 1)) == Ordinal(Date(y, 12, 31)) + 1
  {
    YearStep(y);
    WholeYear(y);
  }

  /** d - timedelta(days=1). */
  function PrevDay(d: Date): (r: Date)
    requires ValidDate(d) && d != Date(MinYear, 1, 1)
    ensures ValidDate(r) && Ordinal(r) == Ordinal(d) - 1
  {
    if d.day > 1 then Date(d.year, d.month, d.day - 1)
    else if d.month > 1 then
      MonthStep(d.year, d.month - 1);
      Date(d.year, d.month - 1, DaysInMonth(d.year, d.month - 1))
    else
      NewYear(d.year - 1);
      Date(d.year - 1, 12, 31)
  }

  /** d + timedelta(days=n), defined when the result is still a valid date. */
  function AddDays(d: Date, n: nat): (r: Date)
    requires ValidDate(d) && Ordinal(d) + n <= MaxOrdinal
    decreases n
    ensures ValidDate(r) && Ordinal(r) == Ordinal(d) + n
  {
    if n == 0 then d
    else
      MaxOrdinalValue();
      AddDays(NextDay(d), n - 1)
  }

  /** d - timedelta(days=n), defined when the result is still a valid date. */
  function SubDays(d: Date, n: nat): (r: Date)
    requires ValidDate(d) && Ordinal(d) - n >= 1
    decreases n
    ensures ValidDate(r) && Ordinal(r) == Ordinal(d) - n
  {
    if n == 0 then d
    else
      SubDays(PrevDay(d), n - 1)
  }

  // ---------------------------------------------------------------------------
  // Naive datetimes as microseconds since 0001-01-01 00:00.

  const MicrosPerMinute := 60_000_000
  const MicrosPerDay := 86_400_000_000

  /** datetime(d.year, d.month, d.day, hour, minute). */
  function Instant(d: Date, hour: int, minute: int): int
    requires ValidDate(d)
  {
    (Ordinal(d) - 1) * MicrosPerDay + (hour * 60 + minute) * MicrosPerMinute
  }

  /** The day count of a timestamp, as a date's ordinal. */
  function DayOf(t: int): int
  {
    t / MicrosPerDay + 1
  }

  lemma InstantDay(d: Date, hour: int, minute: int)
    requires ValidDate(d) && 0 <= hour < 24 && 0 <= minute < 60
    ensures DayOf(Instant(d, hour, minute)) == Ordinal(d)
  {
  }

  // ---------------------------------------------------------------------------
  // datetime.strptime(s, "%Y-%m-%d").
  //
  // The format compiles to the regular expression
  //   (?P<Y>\d\d\d\d)-(?P<m>1[0-2]|0[1-9]|[1-9])-(?P<d>3[01]|[12]\d|0[1-9]|[1-9]| [1-9])
  // which is matched at the start of s; the match must then reach the end of s.

  /** The month token: 1-9 as one digit, 01-12 as two. It is followed by '-'. */
  function MonthToken(s: string, i: nat): (r: Option<(int, nat)>)
    ensures r.Some? ==> 1 <= r.value.0 <= 12 && i < r.value.1 <= |s|
  {
    if i + 2 < |s| && s[i] == '1' && '0' <= s[i + 1] <= '2' && s[i + 2] == '-' then
      Some((10 + DigitValue(s[i + 1]), i + 2))
    else if i + 2 < |s| && s[i] == '0' && '1' <= s[i + 1] <= '9' && s[i + 2] == '-' then
      Some((DigitValue(s[i + 1]), i + 2))
    else if i + 1 < |s| && '1' <= s[i] <= '9' && s[i + 1] == '-' then
      Some((DigitValue(s[i]), i + 1))
    else None
  }

  /** The day token, taken by the first alternative that matches; it must end the string. */
  function DayToken(s: string, i: nat): (r: Option<int>)
    ensures r.Some? ==> 1 <= r.value <= 31
  {
    if i >= |s| then None
    else if i + 1 < |s| && s[i] == '3' && (s[i + 1] == '0' || s[i + 1] == '1') then
      (if i + 2 == |s| then Some(30 + DigitValue(s[i + 1])) else None)
    else if i + 1 < |s| && (s[i] == '1' || s[i] == '2') && IsDigit(s[i + 1]) then
      (if i + 2 == |s| then Some(10 * DigitValue(s[i]) + DigitValue(s[i + 1])) else None)
    else if i + 1 < |s| && s[i] == '0' && '1' <= s[i + 1] <= '9' then
      (if i + 2 == |s| then Some(DigitValue(s[i + 1])) else None)
    else if '1' <= s[i] <= '9' then
      (if i + 1 == |s| then Some(DigitValue(s[i])) else None)
    else if i + 1 < |s| && s[i] == ' ' && '1' <= s[i + 1] <= '9' then
      (if i + 2 == |s| then Some(DigitValue(s[i + 1])) else None)
    else None
  }

  function YearValue(s: string): int
    requires |s| >= 4
  {
    1000 * DigitValue(s[0]) + 100 * DigitValue(s[1]) + 10 * DigitValue(s[2]) + DigitValue(s[3])
  }

  /** datetime.strptime(s, "%Y-%m-%d").date(), or None where Python raises ValueError. */
  function ParseDate(s: string): (r: Option<Date>)
    ensures r.Some? ==> ValidDate(r.value)
  {
    if |s| < 5 || !(IsDigit(s[0]) && IsDigit(s[1]) && IsDigit(s[2]) && IsDigit(s[3])) || s[4] != '-' then None
    else
      match MonthToken(s, 5)
      case None => None
      case Some((m, dash)) =>
        match DayToken(s, dash + 1)
        case None => None
        case Some(d) =>
          var y := YearValue(s);
          if y < MinYear || d > DaysInMonth(y, m) then None else Some(Date(y, m, d))
  }

  /** Zero-padded decimal digits. */
  function Digits(n: nat, width: nat): (r: string)
    ensures |r| == width
    ensures forall k :: 0 <= k < width ==> IsDigit(r[k])
  {
    if width == 0 then "" else Digits(n / 10, width - 1) + [('0' as int + n % 10) as char]
  }

  /** date.isoformat(): the YYYY-MM-DD text an HTML date input submits. */
  function IsoFormat(d: Date): string
    requires ValidDate(d)
  {
    Digits(d.year, 4) + "-" + Digits(d.month, 2) + "-" + Digits(d.day, 2)
  }

  lemma DigitsValue2(n: nat)
    requires n < 100
    ensures 10 * DigitValue(Digits(n, 2)[0]) + DigitValue(Digits(n, 2)[1]) == n
  {
  }

  lemma DigitsValue4(n: nat)
    requires n < 10000
    ensures YearValue(Digits(n, 4)) == n
  {
    var s := Digits(n, 4);
    var q1 := n / 10;
    var q2 := q1 / 10;
    var q3 := q2 / 10;
    assert q3 < 10;
    assert s == Digits(q1, 3) + [('0' as int + n % 10) as char];
    assert Digits(q1, 3) == Digits(q2, 2) + [('0' as int + q1 % 10) as char];
    assert Digits(q2, 2) == Digits(q3, 1) + [('0' as int + q2 % 10) as char];
    assert Digits(q3, 1) == [('0' as int + q3) as char];
    assert DigitValue(s[0]) == q3 && DigitValue(s[1]) == q2 % 10;
    assert DigitValue(s[2]) == q1 % 10 && DigitValue(s[3]) == n % 10;
  }

  /** strptime reads back every date isoformat writes. */
  lemma ParseIsoFormat(d: Date)
    requires ValidDate(d)
    ensures ParseDate(IsoFormat(d)) == Some(d)
  {
    var s := IsoFormat(d);
    var ys, ms, ds := Digits(d.year, 4), Digits(d.month, 2), Digits(d.day, 2);
    assert s == ys + "-" + ms + "-" + ds;
    assert s[..4] == ys && s[4] == '-' && s[5] == ms[0] && s[6] == ms[1] && s[7] == '-';
    assert s[8] == ds[0] && s[9] == ds[1] && |s| == 10;
    DigitsValue4(d.year);
    DigitsValue2(d.month);
    DigitsValue2(d.day);
    assert YearValue(s) == YearValue(ys);
    MonthTokenReads(s, 5, d.month);
    DayTokenReads(s, 8, d.day);
  }

  /** Two digits spelling a month, then '-', are read as that month. */
  lemma MonthTokenReads(s: string, i: nat, m: int)
    requires i + 2 < |s| && IsDigit(s[i]) && IsDigit(s[i + 1]) && s[i + 2] == '-'
    requires 10 * DigitValue(s[i]) + DigitValue(s[i + 1]) == m && 1 <= m <= 12
    ensures MonthToken(s, i) == Some((m, i + 2))
  {
    if m >= 10 {
      assert s[i] == '1';
    } else {
      assert s[i] == '0';
    }
  }

  /** Two digits spelling a day and ending the string are read as that day. */
  lemma DayTokenReads(s: string, i: nat, d: int)
    requires i + 2 == |s| && IsDigit(s[i]) && IsDigit(s[i + 1])
    requires 10 * DigitValue(s[i]) + DigitValue(s[i + 1]) == d && 1 <= d <= 31
    ensures DayToken(s, i) == Some(d)
  {
    if d >= 30 {
      assert s[i] == '3';
    } else if d >= 10 {
      assert s[i] == '1' || s[i] == '2';
    } else {
      assert s[i] == '0';
    }
  }

  // ---------------------------------------------------------------------------
  // daterange_skip_weekends(start, end), dates represented by their ordinals.

  /** The generator's output: start, start+1, ..., end, keeping Monday to Friday. */
  function SkipWeekends(first: int, last: int): (r: seq<int>)
    decreases last - first
    ensures forall k :: 0 <= k < |r| ==> first <= r[k] <= last && Weekday(r[k]) < 5
    ensures forall k, l :: 0 <= k < l < |r| ==> r[k] < r[l]
  {
    if first > last then []
    else
      var rest := SkipWeekends(first + 1, last);
      if Weekday(first) < 5 then [first] + rest else rest
  }

  /** Every weekday of the range is produced. */
  lemma {:induction false} SkipWeekendsComplete(first: int, last: int, x: int)
    requires first <= x <= last && Weekday(x) < 5
    ensures x in SkipWeekends(first, last)
    decreases last - first
  {
    if x != first {
      SkipWeekendsComplete(first + 1, last, x);
    }
  }
}
