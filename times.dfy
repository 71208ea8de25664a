/** Calendar dates and wall-clock date-times in the proleptic Gregorian calendar,
    as Python's `date` and `datetime` represent them (years 1 to 9999), with the
    instant of a date-time counted in microseconds so that a `timedelta` is an
    integer. Every timestamp of one run is taken to be in the same UTC offset. */
module Times {
  import opened Wrappers

  const MinYear := 1
  const MaxYear := 9999

  const MicrosPerSecond := 1000000
  const MicrosPerMinute := 60 * MicrosPerSecond

  predicate IsLeap(y: int)
  {
    y % 4 == 0 && (y % 100 != 0 || y % 400 == 0)
  }

  function DaysInMonth(y: int, m: int): (n: int)
    requires 1 <= m <= 12
    ensures 28 <= n <= 31
    ensures m == 2 ==> (n == 29 <==> IsLeap(y))
  {
    if m == 2 then (if IsLeap(y) then 29 else 28)
    else if m == 4 || m == 6 || m == 9 || m == 11 then 30
    else 31
  }

  function DaysInYear(y: int): int
  {
    if IsLeap(y) then 366 else 365
  }

  datatype Date = Date(year: int, month: int, day: int)

  ghost predicate ValidDate(d: Date)
  {
    MinYear <= d.year <= MaxYear && 1 <= d.month <= 12 && 1 <= d.day <= DaysInMonth(d.year, d.month)
  }

  /** A `date` value. */
  type CalendarDate = d: Date | ValidDate(d) witness Date(1, 1, 1)

  datatype DateTime = DateTime(date: Date, hour: int, minute: int, second: int, microsecond: int)

  ghost predicate ValidDateTime(t: DateTime)
  {
    ValidDate(t.date) && 0 <= t.hour < 24 && 0 <= t.minute < 60 && 0 <= t.second < 60
    && 0 <= t.microsecond < MicrosPerSecond
  }

  /** A `datetime` value. */
  type Timestamp = t: DateTime | ValidDateTime(t) witness DateTime(Date(1, 1, 1), 0, 0, 0, 0)

  /** Days in the years before `y`. */
  function DaysBeforeYear(y: int): (n: nat)
    requires y >= MinYear
    decreases y
  {
    if y == MinYear then 0 else DaysBeforeYear(y - 1) + DaysInYear(y - 1)
  }

  /** Days in year `y` before the first of month `m`: the common-year table plus
      the leap day once February is over. */
  function DaysBeforeMonth(y: int, m: int): (n: nat)
    requires 1 <= m <= 12
  {
    [0, 31, 59, 90, 120, 151, 181, 212, 243, 273, 304, 334][m - 1] + (if m > 2 && IsLeap(y) then 1 else 0)
  }

  /** The table adds up the month lengths: each month starts where the one before
      it ends, and December ends the year. */
  lemma DaysBeforeMonthStep(y: int, m: int)
    requires 1 <= m <= 12
    ensures m > 1 ==> DaysBeforeMonth(y, m) == DaysBeforeMonth(y, m - 1) + DaysInMonth(y, m - 1)
    ensures m == 12 ==> DaysBeforeMonth(y, m) + DaysInMonth(y, m) == DaysInYear(y)
  {
  }

  /** `date.toordinal()`: 0001-01-01 is day 1. */
  function Ordinal(d: CalendarDate): (n: int)
    ensures n >= 1
  {
    DaysBeforeYear(d.year) + DaysBeforeMonth(d.year, d.month) + d.day
  }

  /** The instant of a timestamp, in microseconds from 0001-01-01 00:00:00. */
  function Micros(t: Timestamp): int
  {
    ((((Ordinal(t.date) as int) * 24 + t.hour) * 60 + t.minute) * 60 + t.second) * MicrosPerSecond
      + t.microsecond
  }

  /** `a - b` for two timestamps: a `timedelta`, in microseconds. */
  function Elapsed(a: Timestamp, b: Timestamp): int
  {
    Micros(a) - Micros(b)
  }

  /** `d - timedelta(days=1)`; `None` where Python raises `OverflowError`. */
  function PrevDay(d: CalendarDate): (r: Option<CalendarDate>)
    ensures r.None? <==> d == Date(MinYear, 1, 1)
  {
    if d.day > 1 then Some(Date(d.year, d.month, d.day - 1))
    else if d.month > 1 then Some(Date(d.year, d.month - 1, DaysInMonth(d.year, d.month - 1)))
    else if d.year > MinYear then Some(Date(d.year - 1, 12, 31))
    else None
  }

  /** The day before is exactly one ordinal earlier. */
  lemma PrevDayOrdinal(d: CalendarDate)
    requires PrevDay(d).Some?
    ensures Ordinal(PrevDay(d).value) == Ordinal(d) - 1
  {
    var p := PrevDay(d).value;
    if d.day > 1 {
      assert p == Date(d.year, d.month, d.day - 1);
    } else if d.month > 1 {
      assert p == Date(d.year, d.month - 1, DaysInMonth(d.year, d.month - 1));
      DaysBeforeMonthStep(d.year, d.month);
    } else {
      assert p == Date(d.year - 1, 12, 31);
      DaysBeforeMonthStep(d.year - 1, 12);
      assert DaysInMonth(d.year - 1, 12) == 31;
      assert DaysBeforeYear(d.year) == DaysBeforeYear(d.year - 1) + DaysInYear(d.year - 1);
    }
  }

  /** The day before today lies in today's month unless today is the first, so
      today's day number is a valid day in the month of yesterday. */
  lemma PrevDayKeepsDayValid(d: CalendarDate)
    requires PrevDay(d).Some?
    ensures var p := PrevDay(d).value; d.day <= DaysInMonth(p.year, p.month)
    ensures var p := PrevDay(d).value; p.month != d.month ==> d.day == 1
  {
  }

  /** A wall-clock time of the same date never lies on another day, so instants of
      one date compare like their time fields. */
  lemma {:induction false} MicrosWithinDay(t: Timestamp)
    ensures (Ordinal(t.date) as int) * 86400 * MicrosPerSecond <= Micros(t)
    ensures Micros(t) < (Ordinal(t.date) as int + 1) * 86400 * MicrosPerSecond
  {
    var o := Ordinal(t.date) as int;
    var secs := ((o * 24 + t.hour) * 60 + t.minute) * 60 + t.second;
    assert o * 86400 <= secs < (o + 1) * 86400;
    assert secs * MicrosPerSecond + t.microsecond < (secs + 1) * MicrosPerSecond;
    assert (o + 1) * 86400 * MicrosPerSecond == ((o + 1) * 86400) * MicrosPerSecond;
  }
}
