/**
 * The part of Python's `datetime` the event pipeline uses: a date, a time of day,
 * an optional UTC offset (aware versus naive), and the difference of two
 * date-times. Parsing is not modelled here; parsers are parameters elsewhere.
 */
module Clock {
  import opened Wrappers

  datatype Date = Date(year: int, month: int, day: int)

  datatype TimeOfDay = TimeOfDay(hour: int, minute: int, second: int, microsecond: int)

  /** A date-time; `utcOffset` (seconds east of UTC) is `None` for a naive value. */
  datatype DateTime = DateTime(date: Date, time: TimeOfDay, utcOffset: Option<int>)

  const Midnight: TimeOfDay := TimeOfDay(0, 0, 0, 0)

  predicate IsLeap(year: int)
  {
    year % 4 == 0 && (year % 100 != 0 || year % 400 == 0)
  }

  /** Days in the years before `year` (Python's proleptic Gregorian count). */
  function DaysBeforeYear(year: int): int
  {
    var y := year - 1;
    y * 365 + y / 4 - y / 100 + y / 400
  }

  /** Days in the months of `year` before `month` (1..12). */
  function DaysBeforeMonth(year: int, month: int): int
  {
    var table := [0, 31, 59, 90, 120, 151, 181, 212, 243, 273, 304, 334];
    if 1 <= month <= 12 then table[month - 1] + (if month > 2 && IsLeap(year) then 1 else 0)
    else 0
  }

  /** `date.toordinal()`: 1 for 0001-01-01, one more for every following day. */
  function Ordinal(d: Date): int
  {
    DaysBeforeYear(d.year) + DaysBeforeMonth(d.year, d.month) + d.day
  }

  /** Microseconds of `dt` on one time line; an aware value is first moved to UTC. */
  function Micros(dt: DateTime): int
  {
    var t := dt.time;
    var seconds := Ordinal(dt.date) * 86400 + t.hour * 3600 + t.minute * 60 + t.second;
    (seconds - dt.utcOffset.GetOr(0)) * 1000000 + t.microsecond
  }

  /** Python refuses to subtract an aware and a naive date-time (it raises TypeError). */
  predicate Comparable(a: DateTime, b: DateTime)
  {
    a.utcOffset.Some? == b.utcOffset.Some?
  }

  /** `(b - a).total_seconds() / 3600`, exactly, as a real number of hours. */
  function HoursBetween(a: DateTime, b: DateTime): (h: real)
    ensures h < 0.0 <==> Micros(b) < Micros(a)
    ensures h == 0.0 <==> Micros(b) == Micros(a)
  {
    (Micros(b) - Micros(a)) as real / 3600000000.0
  }

  /** The length of `month` (1..12) in `year`. */
  function DaysInMonth(year: int, month: int): int
  {
    if month == 2 then (if IsLeap(year) then 29 else 28)
    else if month in {4, 6, 9, 11} then 30
    else 31
  }

  predicate ValidDate(d: Date)
  {
    1 <= d.month <= 12 && 1 <= d.day <= DaysInMonth(d.year, d.month)
  }

  /** The calendar's following day, counted by hand: next day, next month, or next year. */
  function NextDay(d: Date): Date
  {
    if d.day < DaysInMonth(d.year, d.month) then Date(d.year, d.month, d.day + 1)
    else if d.month < 12 then Date(d.year, d.month + 1, 1)
    else Date(d.year + 1, 1, 1)
  }

  /** A year has 366 days when it is a leap year and 365 otherwise. */
  lemma YearLength(year: int)
    ensures DaysBeforeYear(year + 1) - DaysBeforeYear(year) == if IsLeap(year) then 366 else 365
  {
    var y := year;
    assert y / 4 - (y - 1) / 4 == if y % 4 == 0 then 1 else 0;
    assert y / 100 - (y - 1) / 100 == if y % 100 == 0 then 1 else 0;
    assert y / 400 - (y - 1) / 400 == if y % 400 == 0 then 1 else 0;
    if y % 400 == 0 {
      assert y % 100 == 0 && y % 4 == 0;
    } else if y % 100 == 0 {
      assert y % 4 == 0;
    }
  }

  /** The months before `month + 1` are the months before `month` and `month` itself. */
  lemma MonthLength(year: int, month: int)
    requires 1 <= month < 12
    ensures DaysBeforeMonth(year, month + 1) == DaysBeforeMonth(year, month) + DaysInMonth(year, month)
  {
  }

  /** Ordinals number consecutive calendar days consecutively, across month and year ends. */
  lemma OrdinalNextDay(d: Date)
    requires ValidDate(d)
    ensures ValidDate(NextDay(d))
    ensures Ordinal(NextDay(d)) == Ordinal(d) + 1
  {
    if d.day < DaysInMonth(d.year, d.month) {
    } else if d.month < 12 {
      MonthLength(d.year, d.month);
    } else {
      YearLength(d.year);
    }
  }

  /**
   * An aware value lies its UTC offset before the naive value with the same
   * fields, so two aware values are compared in UTC.
   */
  lemma AwareIsShifted(d: Date, t: TimeOfDay, offset: int)
    ensures Micros(DateTime(d, t, Some(offset))) == Micros(DateTime(d, t, None)) - offset * 1000000
  {
  }

  /**
   * Two date-only values read at midnight lie a whole number of days apart: their
   * difference in hours is 24 times the difference of their ordinals.
   */
  lemma WholeDays(a: Date, b: Date)
    ensures HoursBetween(DateTime(a, Midnight, None), DateTime(b, Midnight, None))
            == 24.0 * (Ordinal(b) - Ordinal(a)) as real
  {
    var d := Ordinal(b) - Ordinal(a);
    assert Micros(DateTime(b, Midnight, None)) - Micros(DateTime(a, Midnight, None)) == d * 86400000000;
  }
}
