/** Calendar dates, wall-clock times and the "now" instant, as integer tuples.

    The application keeps dates as `YYYY-MM-DD` strings and times as `HH:MM`
    strings and compares them through JavaScript `Date` objects. For such
    fixed-width values that comparison is the lexicographic order on
    (year, month, day, hour, minute), which is what this module defines.
 */
module Calendar {

  type Month = m: int | 1 <= m <= 12 witness 1

  /** A calendar date (year, month 1..12, day); `ValidDate` bounds the day. */
  datatype Date = Date(year: int, month: Month, day: int)

  type Hour = h: int | 0 <= h < 24
  type Minute = m: int | 0 <= m < 60
  /** Milliseconds elapsed within the current minute. */
  type Millis = ms: int | 0 <= ms < 60000

  /** A 24-hour wall-clock time of day, as an `<input type="time">` yields it. */
  datatype Clock = Clock(hour: Hour, minute: Minute)

  /** The local instant `new Date()` denotes: date, time to the minute, and the
      seconds and milliseconds past that minute. */
  datatype Moment = Moment(date: Date, time: Clock, millis: Millis)

  /** `a` is a strictly earlier calendar day than `b`. */
  predicate DateBefore(a: Date, b: Date)
  {
    a.year < b.year
    || (a.year == b.year && (a.month < b.month || (a.month == b.month && a.day < b.day)))
  }

  /** `a` is a strictly earlier time of day than `b`. */
  predicate ClockBefore(a: Clock, b: Clock)
  {
    a.hour < b.hour || (a.hour == b.hour && a.minute < b.minute)
  }

  /** The instant `date`T`time` (seconds zero) lies strictly before `other`T`otherTime`. */
  predicate StartBefore(date: Date, time: Clock, otherDate: Date, otherTime: Clock)
  {
    DateBefore(date, otherDate) || (date == otherDate && ClockBefore(time, otherTime))
  }

  /** The instant `date`T`time` (seconds and milliseconds zero) lies strictly
      before the instant `now`. */
  predicate BeforeMoment(date: Date, time: Clock, now: Moment)
  {
    StartBefore(date, time, now.date, now.time)
    || (date == now.date && time == now.time && now.millis > 0)
  }

  lemma DateBeforeIsStrictOrder(a: Date, b: Date, c: Date)
    ensures !DateBefore(a, a)
    ensures DateBefore(a, b) ==> !DateBefore(b, a)
    ensures DateBefore(a, b) && DateBefore(b, c) ==> DateBefore(a, c)
    ensures a == b || DateBefore(a, b) || DateBefore(b, a)
  {
  }

  lemma StartBeforeIsStrictOrder(d1: Date, t1: Clock, d2: Date, t2: Clock, d3: Date, t3: Clock)
    ensures !StartBefore(d1, t1, d1, t1)
    ensures StartBefore(d1, t1, d2, t2) && StartBefore(d2, t2, d3, t3) ==> StartBefore(d1, t1, d3, t3)
    ensures (d1 == d2 && t1 == t2) || StartBefore(d1, t1, d2, t2) || StartBefore(d2, t2, d1, t1)
  {
  }

  predicate LeapYear(y: int)
  {
    y % 4 == 0 && (y % 100 != 0 || y % 400 == 0)
  }

  function DaysInYear(y: int): int
  {
    if LeapYear(y) then 366 else 365
  }

  function DaysInMonth(y: int, m: Month): int
  {
    if m == 2 then (if LeapYear(y) then 29 else 28)
    else if m == 4 || m == 6 || m == 9 || m == 11 then 30
    else 31
  }

  /** A day that exists in the proleptic Gregorian calendar, as every value of
      an `<input type="date">` does. */
  predicate ValidDate(d: Date)
  {
    1 <= d.day <= DaysInMonth(d.year, d.month)
  }

  /** `y / 4 - y / 100 + y / 400`: the leap years counted up to year `y`. */
  function LeapsThrough(y: int): int
  {
    y / 4 - y / 100 + y / 400
  }

  /** Days from 1970-01-01 to January 1 of year `y`. */
  function DaysBeforeYear(y: int): int
  {
    365 * (y - 1970) + LeapsThrough(y - 1) - LeapsThrough(1969)
  }

  /** Days from January 1 to the first of month `m` of year `y`. */
  function DaysBeforeMonth(y: int, m: Month): int
  {
    [0, 31, 59, 90, 120, 151, 181, 212, 243, 273, 304, 334][m - 1]
    + (if m > 2 && LeapYear(y) then 1 else 0)
  }

  /** Days from 1970-01-01 to `d` in the proleptic Gregorian calendar: the day
      number ECMAScript's `MakeDay` gives a valid date. */
  function DayNumber(d: Date): int
  {
    DaysBeforeYear(d.year) + DaysBeforeMonth(d.year, d.month) + d.day - 1
  }

  lemma DayNumberEpoch()
    ensures DayNumber(Date(1970, 1, 1)) == 0
    ensures DayNumber(Date(2000, 3, 1)) == 11017
  {
  }

  /** Stepping `y` by one raises `y / k` by one exactly at multiples of `k`. */
  lemma DivStep(y: int, k: int)
    requires k == 4 || k == 100 || k == 400
    ensures y / k - (y - 1) / k == if y % k == 0 then 1 else 0
  {
    var q, r := y / k, y % k;
    if r == 0 {
      assert y - 1 == k * (q - 1) + (k - 1);
    } else {
      assert y - 1 == k * q + (r - 1);
    }
  }

  /** A year is exactly as long as the gap to the next one. */
  lemma DaysBeforeYearStep(y: int)
    ensures DaysBeforeYear(y + 1) == DaysBeforeYear(y) + DaysInYear(y)
  {
    DivStep(y, 4);
    DivStep(y, 100);
    DivStep(y, 400);
    assert y % 400 == 0 ==> y % 100 == 0 by {
      if y % 400 == 0 {
        assert y == 100 * (4 * (y / 400));
      }
    }
    assert y % 100 == 0 ==> y % 4 == 0 by {
      if y % 100 == 0 {
        assert y == 4 * (25 * (y / 100));
      }
    }
  }

  /** Every day of year `a` comes before January 1 of any later year `b`. */
  lemma {:induction false} DaysBeforeYearGrows(a: int, b: int)
    requires a < b
    ensures DaysBeforeYear(a) + DaysInYear(a) <= DaysBeforeYear(b)
    decreases b - a
  {
    DaysBeforeYearStep(a);
    if a + 1 < b {
      DaysBeforeYearGrows(a + 1, b);
    }
  }

  /** A valid date's offset within its year lies inside that year. */
  lemma DayOfYearBounds(d: Date)
    requires ValidDate(d)
    ensures 0 <= DaysBeforeMonth(d.year, d.month) + d.day - 1 < DaysInYear(d.year)
  {
  }

  /** Every day of month `m` comes before the first of a later month `n`. */
  lemma DaysBeforeMonthGrows(y: int, m: Month, n: Month)
    requires m < n
    ensures DaysBeforeMonth(y, m) + DaysInMonth(y, m) <= DaysBeforeMonth(y, n)
  {
  }

  lemma DayNumberIncreasing(a: Date, b: Date)
    requires ValidDate(a) && ValidDate(b) && DateBefore(a, b)
    ensures DayNumber(a) < DayNumber(b)
  {
    if a.year < b.year {
      DayOfYearBounds(a);
      DayOfYearBounds(b);
      DaysBeforeYearGrows(a.year, b.year);
    } else if a.month < b.month {
      DaysBeforeMonthGrows(a.year, a.month, b.month);
    }
  }

  /** On valid dates the day count is an order isomorphism: earlier days
      have smaller numbers, and distinct days distinct numbers. */
  lemma DayNumberOrder(a: Date, b: Date)
    requires ValidDate(a) && ValidDate(b)
    ensures DateBefore(a, b) <==> DayNumber(a) < DayNumber(b)
    ensures a == b <==> DayNumber(a) == DayNumber(b)
  {
    DateBeforeIsStrictOrder(a, b, a);
    if DateBefore(a, b) {
      DayNumberIncreasing(a, b);
    } else if DateBefore(b, a) {
      DayNumberIncreasing(b, a);
    }
  }

  /** Minutes from 1970-01-01T00:00 to `date`T`time`, on one clock. */
  function MinuteNumber(date: Date, time: Clock): int
  {
    DayNumber(date) * 1440 + time.hour * 60 + time.minute
  }

  /** Milliseconds from 1970-01-01T00:00 to the instant `now`, on the same clock. */
  function MomentMillis(now: Moment): int
  {
    MinuteNumber(now.date, now.time) * 60000 + now.millis
  }

  /** `BeforeMoment` is the comparison of time values that `Date`'s `<` makes:
      the start, at zero seconds, has fewer milliseconds than `now`. */
  lemma BeforeMomentAsMillis(date: Date, time: Clock, now: Moment)
    requires ValidDate(date) && ValidDate(now.date)
    ensures BeforeMoment(date, time, now) <==> MinuteNumber(date, time) * 60000 < MomentMillis(now)
  {
    DayNumberOrder(date, now.date);
  }
}
