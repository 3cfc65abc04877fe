/** The slice of Python's `datetime` that `display_upcoming_birthdays` uses:
    proleptic Gregorian dates, `datetime.strptime(s, "%Y-%m-%d")`,
    `replace(year=...)` and the `.days` of the difference of two datetimes. */
module Calendar {
  import opened Wrappers
  import opened Text

  /** `datetime.MINYEAR` and `datetime.MAXYEAR`. */
  const MinYear := 1
  const MaxYear := 9999

  /** Microseconds in a day: the resolution of a `datetime`. */
  const MicrosPerDay := 86_400_000_000

  datatype Date = Date(year: int, month: int, day: int)

  /** A `datetime`: a date and the microseconds elapsed since its midnight. */
  datatype Instant = Instant(date: Date, sinceMidnight: int)

  predicate IsLeapYear(y: int)
  {
    y % 4 == 0 && (y % 100 != 0 || y % 400 == 0)
  }

  function DaysInMonth(y: int, m: int): (r: int)
    requires 1 <= m <= 12
    ensures 28 <= r <= 31
    ensures r == 29 <==> m == 2 && IsLeapYear(y)
  {
    if m == 2 then (if IsLeapYear(y) then 29 else 28)
    else if m == 4 || m == 6 || m == 9 || m == 11 then 30
    else 31
  }

  /** The dates `datetime.date` can represent. */
  predicate ValidDate(d: Date)
  {
    MinYear <= d.year <= MaxYear && 1 <= d.month <= 12 && 1 <= d.day <= DaysInMonth(d.year, d.month)
  }

  predicate ValidInstant(t: Instant)
  {
    ValidDate(t.date) && 0 <= t.sinceMidnight < MicrosPerDay
  }

  /** Days in the years before year `y`. */
  function DaysBeforeYear(y: int): (r: int)
    requires MinYear <= y
  {
    var p := y - 1;
    365 * p + p / 4 - p / 100 + p / 400
  }

  /** Days in year `y` before the first of month `m`. */
  function DaysBeforeMonth(y: int, m: int): (r: int)
    requires 1 <= m <= 12
    ensures 0 <= r <= 31 * (m - 1)
  {
    if m == 1 then 0 else DaysBeforeMonth(y, m - 1) + DaysInMonth(y, m - 1)
  }

  /** `date.toordinal()`: 1 for 1 January of year 1, counting up by one a day. */
  function Ordinal(d: Date): (r: int)
    requires ValidDate(d)
  {
    DaysBeforeYear(d.year) + DaysBeforeMonth(d.year, d.month) + d.day
  }

  /** The months of a year follow each other without gaps or overlaps. */
  lemma {:induction false} MonthsAreConsecutive(y: int, m1: int, m2: int)
    requires 1 <= m1 < m2 <= 12
    ensures DaysBeforeMonth(y, m1) + DaysInMonth(y, m1) <= DaysBeforeMonth(y, m2)
  {
    if m2 > m1 + 1 {
      MonthsAreConsecutive(y, m1, m2 - 1);
    }
  }

  /** Within one year, `toordinal` follows calendar order: a date earlier in
      the year (by month, then day) has a smaller ordinal. */
  lemma OrdinalFollowsCalendarOrder(a: Date, b: Date)
    requires ValidDate(a) && ValidDate(b) && a.year == b.year
    requires a.month < b.month || (a.month == b.month && a.day < b.day)
    ensures Ordinal(a) < Ordinal(b)
  {
    if a.month < b.month {
      MonthsAreConsecutive(a.year, a.month, b.month);
    }
  }

  /** `(later - now).days` for a date at midnight and a datetime: Python
      normalises a timedelta so that its `days` is the floor of its length in
      days, which is Dafny's division by a positive divisor. */
  function DaysFrom(now: Instant, later: Date): (r: int)
    requires ValidInstant(now) && ValidDate(later)
  {
    ((Ordinal(later) - Ordinal(now.date)) * MicrosPerDay - now.sinceMidnight) / MicrosPerDay
  }

  /** Any time past midnight makes the floor drop one whole day below the
      difference of the calendar dates. */
  lemma DaysFromFloors(now: Instant, later: Date)
    requires ValidInstant(now) && ValidDate(later)
    ensures DaysFrom(now, later) == Ordinal(later) - Ordinal(now.date) - (if now.sinceMidnight == 0 then 0 else 1)
  {
    var n := Ordinal(later) - Ordinal(now.date);
    var t := now.sinceMidnight;
    if t == 0 {
      assert n * MicrosPerDay / MicrosPerDay == n;
    } else {
      assert (n - 1) * MicrosPerDay <= n * MicrosPerDay - t < n * MicrosPerDay;
    }
  }

  function DigitValue(c: char): int
    requires IsDigit(c)
  {
    c as int - '0' as int
  }

  /** strptime's `%Y`: exactly four digits. */
  function YearToken(t: string): (r: Option<int>)
    ensures r.Some? ==> 0 <= r.value <= 9999
  {
    if |t| == 4 && IsDigit(t[0]) && IsDigit(t[1]) && IsDigit(t[2]) && IsDigit(t[3])
    then Some(1000 * DigitValue(t[0]) + 100 * DigitValue(t[1]) + 10 * DigitValue(t[2]) + DigitValue(t[3]))
    else None
  }

  /** strptime's `%m`: `1[0-2]|0[1-9]|[1-9]`, so one or two digits. */
  function MonthToken(t: string): (r: Option<int>)
    ensures r.Some? ==> 1 <= r.value <= 12
  {
    if |t| == 2 && t[0] == '1' && '0' <= t[1] <= '2' then Some(10 + DigitValue(t[1]))
    else if |t| == 2 && t[0] == '0' && '1' <= t[1] <= '9' then Some(DigitValue(t[1]))
    else if |t| == 1 && '1' <= t[0] <= '9' then Some(DigitValue(t[0]))
    else None
  }

  /** strptime's `%d`: `3[01]|[12]\d|0[1-9]|[1-9]| [1-9]`, so one or two
      digits, or a space and one digit. */
  function DayToken(t: string): (r: Option<int>)
    ensures r.Some? ==> 1 <= r.value <= 31
  {
    if |t| == 2 && t[0] == '3' && (t[1] == '0' || t[1] == '1') then Some(30 + DigitValue(t[1]))
    else if |t| == 2 && (t[0] == '1' || t[0] == '2') && IsDigit(t[1]) then Some(10 * DigitValue(t[0]) + DigitValue(t[1]))
    else if |t| == 2 && t[0] == '0' && '1' <= t[1] <= '9' then Some(DigitValue(t[1]))
    else if |t| == 1 && '1' <= t[0] <= '9' then Some(DigitValue(t[0]))
    else if |t| == 2 && t[0] == ' ' && '1' <= t[1] <= '9' then Some(DigitValue(t[1]))
    else None
  }

  /** `datetime.strptime(s, "%Y-%m-%d")`, with `None` for its ValueError: the
      whole string must be year, `-`, month, `-`, day, and the three must form
      a date `datetime` can represent. No month token contains `-`, so the
      month ends at the first `-` after the year. */
  function ParseIsoDate(s: string): (r: Option<Date>)
    ensures r.Some? ==> ValidDate(r.value)
  {
    if |s| < 5 || s[4] != '-' then None
    else
      var rest := s[5..];
      var k := IndexOf(rest, '-');
      if k == |rest| then None
      else
        match (YearToken(s[..4]), MonthToken(rest[..k]), DayToken(rest[k + 1..]))
        case (Some(y), Some(m), Some(d)) =>
          if MinYear <= y && d <= DaysInMonth(y, m) then Some(Date(y, m, d)) else None
        case _ => None
  }

  /** Two decimal digits of `n`, zero-padded. */
  function TwoDigits(n: int): string
    requires 0 <= n < 100
  {
    [(n / 10 + '0' as int) as char, (n % 10 + '0' as int) as char]
  }

  /** `date.isoformat()`: `YYYY-MM-DD`, zero-padded. */
  function FormatIsoDate(d: Date): (r: string)
    requires ValidDate(d)
    ensures |r| == 10 && r[4] == '-' && r[7] == '-'
  {
    TwoDigits(d.year / 100) + TwoDigits(d.year % 100) + "-" + TwoDigits(d.month) + "-" + TwoDigits(d.day)
  }

  /** strptime reads back every date that isoformat writes. */
  lemma ParseFormatRoundTrip(d: Date)
    requires ValidDate(d)
    ensures ParseIsoDate(FormatIsoDate(d)) == Some(d)
  {
    var s := FormatIsoDate(d);
    var rest := s[5..];
    assert rest == TwoDigits(d.month) + "-" + TwoDigits(d.day);
    assert IndexOf(rest, '-') == 2;
    assert rest[..2] == TwoDigits(d.month) && rest[3..] == TwoDigits(d.day);
    assert s[..4] == TwoDigits(d.year / 100) + TwoDigits(d.year % 100);
    assert YearToken(s[..4]) == Some(d.year);
    assert MonthToken(rest[..2]) == Some(d.month);
    assert DayToken(rest[3..]) == Some(d.day);
  }

  /** One-digit months and days are read as strptime reads them. */
  lemma ParseIsoDateOneDigitFields()
    ensures ParseIsoDate("1990-7-4") == Some(Date(1990, 7, 4))
  {
    assert IndexOf("7-4", '-') == 1;
  }

  /** A space-padded day is read as strptime reads it. */
  lemma ParseIsoDateSpacePaddedDay()
    ensures ParseIsoDate("1990-07- 4") == Some(Date(1990, 7, 4))
  {
    assert IndexOf("07- 4", '-') == 2;
  }

  /** A day past the end of its month is an error. */
  lemma ParseIsoDateRejectsDayPastMonthEnd()
    ensures ParseIsoDate("1990-04-31") == None
  {
    assert IndexOf("04-31", '-') == 2;
  }

  /** 29 February outside a leap year is an error. */
  lemma ParseIsoDateRejectsCommonYearLeapDay()
    ensures ParseIsoDate("1990-02-29") == None
  {
    assert IndexOf("02-29", '-') == 2;
  }

  /** Year 0 is an error. */
  lemma ParseIsoDateRejectsYearZero()
    ensures ParseIsoDate("0000-01-01") == None
  {
    assert IndexOf("01-01", '-') == 2;
  }

  /** Text after the day is an error. */
  lemma ParseIsoDateRejectsTrailingText()
    ensures ParseIsoDate("1990-07-041") == None
  {
    assert IndexOf("07-041", '-') == 2;
  }
}
