/** Calendar arithmetic behind `datetime.fromtimestamp(t, tz=timezone.utc)`:
    seconds since the Epoch to a proleptic-Gregorian UTC date and time of day,
    and back again through the "Seconds Since the Epoch" formula of POSIX.1-2017
    (Base Definitions, section 4.16). Everything here is integer arithmetic. */
module CivilTime {

  const SecondsPerDay: int := 86400

  /** The year range of Python's `datetime` (`MINYEAR`, `MAXYEAR`). */
  const MinYear: int := 1
  const MaxYear: int := 9999

  /** First second of 0001-01-01 and last second of 9999-12-31, in seconds since the Epoch. */
  const MinEpochSeconds: int := -62135596800
  const MaxEpochSeconds: int := 253402300799

  predicate IsLeapYear(y: int) {
    y % 4 == 0 && (y % 100 != 0 || y % 400 == 0)
  }

  function DaysInYear(y: int): int {
    if IsLeapYear(y) then 366 else 365
  }

  function DaysInMonth(y: int, m: int): int
    requires 1 <= m <= 12
  {
    if m == 2 then (if IsLeapYear(y) then 29 else 28)
    else if m == 4 || m == 6 || m == 9 || m == 11 then 30
    else 31
  }

  /** Days before the first day of month `m` in a year without February 29th. */
  function CommonYearDaysBefore(m: int): int
    requires 1 <= m <= 12
  {
    if m <= 6 then
      (if m == 1 then 0 else if m == 2 then 31 else if m == 3 then 59
       else if m == 4 then 90 else if m == 5 then 120 else 151)
    else
      (if m == 7 then 181 else if m == 8 then 212 else if m == 9 then 243
       else if m == 10 then 273 else if m == 11 then 304 else 334)
  }

  /** Days in year `y` before the first day of month `m`. */
  function DaysBeforeMonth(y: int, m: int): int
    requires 1 <= m <= 12
  {
    CommonYearDaysBefore(m) + (if m > 2 && IsLeapYear(y) then 1 else 0)
  }

  /** Days from 1970-01-01 to January 1st of year `y` (negative before 1970):
      the year terms of the POSIX formula, divided by 86400. `/` rounds down. */
  function DaysBeforeYear(y: int): int {
    365 * (y - 1970) + (y - 1969) / 4 - (y - 1901) / 100 + (y - 1601) / 400
  }

  /** A UTC calendar date and time of day, to the second. */
  datatype DateTime = DateTime(year: int, month: int, day: int, hour: int, minute: int, second: int)

  predicate Valid(dt: DateTime) {
    && 1 <= dt.month <= 12
    && 1 <= dt.day <= DaysInMonth(dt.year, dt.month)
    && 0 <= dt.hour < 24
    && 0 <= dt.minute < 60
    && 0 <= dt.second < 60
  }

  /** The fields of a POSIX `struct tm` that the seconds-since-the-Epoch formula reads. */
  datatype BrokenDownTime = BrokenDownTime(tmSec: int, tmMin: int, tmHour: int, tmYday: int, tmYear: int)

  function ToBrokenDown(dt: DateTime): BrokenDownTime
    requires Valid(dt)
  {
    BrokenDownTime(dt.second, dt.minute, dt.hour,
                   DayOfYear(dt), dt.year - 1900)
  }

  /** The POSIX "Seconds Since the Epoch" expression, with divisions rounding down. */
  function PosixSecondsSinceEpoch(tm: BrokenDownTime): int {
    tm.tmSec + tm.tmMin * 60 + tm.tmHour * 3600 + tm.tmYday * 86400
    + (tm.tmYear - 70) * 31536000 + ((tm.tmYear - 69) / 4) * 86400
    - ((tm.tmYear - 1) / 100) * 86400 + ((tm.tmYear + 299) / 400) * 86400
  }

  /** C's integer division, which rounds toward zero. */
  function TruncatingDiv(a: int, b: int): int
    requires b > 0
  {
    if a >= 0 then a / b else -((-a) / b)
  }

  /** The same expression evaluated with C's truncating division, as POSIX writes it. */
  function PosixSecondsTruncating(tm: BrokenDownTime): int {
    tm.tmSec + tm.tmMin * 60 + tm.tmHour * 3600 + tm.tmYday * 86400
    + (tm.tmYear - 70) * 31536000 + TruncatingDiv(tm.tmYear - 69, 4) * 86400
    - TruncatingDiv(tm.tmYear - 1, 100) * 86400 + TruncatingDiv(tm.tmYear + 299, 400) * 86400
  }

  /** Seconds since the Epoch of a valid date and time. */
  function EpochSeconds(dt: DateTime): int
    requires Valid(dt)
  {
    PosixSecondsSinceEpoch(ToBrokenDown(dt))
  }

  /** From 1970 on, where POSIX defines the formula, the rounding direction of `/` does not matter. */
  lemma TruncatingFormulaAgreesFromEpoch(tm: BrokenDownTime)
    requires tm.tmYear >= 70
    ensures PosixSecondsTruncating(tm) == PosixSecondsSinceEpoch(tm)
  {
  }

  lemma PosixSecondsDecomposition(tm: BrokenDownTime)
    ensures PosixSecondsSinceEpoch(tm)
         == (DaysBeforeYear(tm.tmYear + 1900) + tm.tmYday) * SecondsPerDay
            + tm.tmHour * 3600 + tm.tmMin * 60 + tm.tmSec
  {
  }

  /** Splitting a second of the day into hours, minutes and seconds loses nothing. */
  lemma TimeOfDaySplit(t: int)
    requires 0 <= t < SecondsPerDay
    ensures 0 <= t / 3600 < 24 && 0 <= t % 3600 / 60 < 60 && 0 <= t % 60 < 60
    ensures (t / 3600) * 3600 + (t % 3600 / 60) * 60 + t % 60 == t
  {
  }

  /** Consecutive years start `DaysInYear` days apart. */
  lemma YearLength(y: int)
    ensures DaysBeforeYear(y + 1) == DaysBeforeYear(y) + DaysInYear(y)
  {
    QuadrennialTerm(y);
    CenturyTerm(y);
    QuadricentennialTerm(y);
    DivisibilityChain(y);
  }

  /** A multiple of 400 is a multiple of 100, which is a multiple of 4. */
  lemma DivisibilityChain(y: int)
    ensures y % 400 == 0 ==> y % 100 == 0
    ensures y % 100 == 0 ==> y % 4 == 0
  {
    if y % 100 == 0 {
      assert y == 4 * (25 * (y / 100));
    }
    if y % 400 == 0 {
      assert y == 100 * (4 * (y / 400));
    }
  }

  /** The every-fourth-year term of the formula grows by one at the years divisible by 4. */
  lemma QuadrennialTerm(y: int)
    ensures (y - 1968) / 4 - (y - 1969) / 4 == if y % 4 == 0 then 1 else 0
  {
  }

  /** The century term of the formula grows by one at the years divisible by 100. */
  lemma CenturyTerm(y: int)
    ensures (y - 1900) / 100 - (y - 1901) / 100 == if y % 100 == 0 then 1 else 0
  {
  }

  /** The four-century term of the formula grows by one at the years divisible by 400. */
  lemma QuadricentennialTerm(y: int)
    ensures (y - 1600) / 400 - (y - 1601) / 400 == if y % 400 == 0 then 1 else 0
  {
  }

  lemma {:induction false} DaysBeforeYearMonotone(a: int, b: int)
    requires a <= b
    ensures DaysBeforeYear(a) <= DaysBeforeYear(b)
    decreases b - a
  {
    if a < b {
      DaysBeforeYearMonotone(a, b - 1);
      YearLength(b - 1);
    }
  }

  /** Consecutive months start `DaysInMonth` days apart, and December ends the year. */
  lemma MonthLength(y: int, m: int)
    requires 1 <= m <= 12
    ensures m < 12 ==> DaysBeforeMonth(y, m + 1) == DaysBeforeMonth(y, m) + DaysInMonth(y, m)
    ensures m == 12 ==> DaysBeforeMonth(y, m) + DaysInMonth(y, m) == DaysInYear(y)
  {
  }

  /** Months are disjoint: a later month starts after an earlier one ends. */
  lemma MonthsOrdered(y: int, m: int, n: int)
    requires 1 <= m < n <= 12
    ensures DaysBeforeMonth(y, m) + DaysInMonth(y, m) <= DaysBeforeMonth(y, n)
  {
  }

  function SearchYearDown(days: int, y: int): (r: int)
    requires days < DaysBeforeYear(y + 1)
    ensures DaysBeforeYear(r) <= days < DaysBeforeYear(r + 1)
    decreases DaysBeforeYear(y) - days
  {
    if days < DaysBeforeYear(y) then
      YearLength(y - 1);
      SearchYearDown(days, y - 1)
    else
      y
  }

  function SearchYearUp(days: int, y: int): (r: int)
    requires DaysBeforeYear(y) <= days
    ensures DaysBeforeYear(r) <= days < DaysBeforeYear(r + 1)
    decreases days - DaysBeforeYear(y)
  {
    if days < DaysBeforeYear(y + 1) then
      y
    else
      YearLength(y);
      SearchYearUp(days, y + 1)
  }

  /** The year holding the day `days` days after 1970-01-01. */
  function YearOfDay(days: int): (y: int)
    ensures DaysBeforeYear(y) <= days < DaysBeforeYear(y + 1)
  {
    if days < DaysBeforeYear(1970) then SearchYearDown(days, 1969)
    else SearchYearUp(days, 1970)
  }

  function SearchMonth(y: int, dayOfYear: int, m: int): (r: int)
    requires 1 <= m <= 12
    requires DaysBeforeMonth(y, m) <= dayOfYear < DaysInYear(y)
    ensures 1 <= r <= 12
    ensures DaysBeforeMonth(y, r) <= dayOfYear < DaysBeforeMonth(y, r) + DaysInMonth(y, r)
    decreases 12 - m
  {
    MonthLength(y, m);
    if m == 12 || dayOfYear < DaysBeforeMonth(y, m + 1) then m
    else SearchMonth(y, dayOfYear, m + 1)
  }

  /** The month holding the zero-based day `dayOfYear` of year `y`. */
  function MonthOfDay(y: int, dayOfYear: int): (m: int)
    requires 0 <= dayOfYear < DaysInYear(y)
    ensures 1 <= m <= 12
    ensures DaysBeforeMonth(y, m) <= dayOfYear < DaysBeforeMonth(y, m) + DaysInMonth(y, m)
  {
    SearchMonth(y, dayOfYear, 1)
  }

  /** The date `days` days after 1970-01-01, at `timeOfDay` seconds past midnight. */
  function CivilFromDays(days: int, timeOfDay: int): (dt: DateTime)
    requires 0 <= timeOfDay < SecondsPerDay
    ensures Valid(dt)
    ensures DayNumber(dt) == days
    ensures TimeOfDay(dt) == timeOfDay
  {
    var y := YearOfDay(days);
    YearLength(y);
    var dayOfYear := days - DaysBeforeYear(y);
    var m := MonthOfDay(y, dayOfYear);
    TimeOfDaySplit(timeOfDay);
    DateTime(y, m, dayOfYear - DaysBeforeMonth(y, m) + 1,
             timeOfDay / 3600, timeOfDay % 3600 / 60, timeOfDay % 60)
  }

  /** The UTC date and time `s` seconds after 1970-01-01 00:00:00, rounding the day down.
      It is a valid calendar value, and the POSIX formula maps it back to `s`. */
  function FromEpochSeconds(s: int): (dt: DateTime)
    ensures Valid(dt)
    ensures EpochSeconds(dt) == s
  {
    DaySplit(s);
    var dt := CivilFromDays(s / SecondsPerDay, s % SecondsPerDay);
    EpochSecondsSplit(dt);
    dt
  }

  /** Days from 1970-01-01 to the date of `dt`. */
  function DayNumber(dt: DateTime): int
    requires Valid(dt)
  {
    DaysBeforeYear(dt.year) + DayOfYear(dt)
  }

  /** Seconds since midnight of `dt`. */
  function TimeOfDay(dt: DateTime): int {
    dt.hour * 3600 + dt.minute * 60 + dt.second
  }

  lemma DaySplit(s: int)
    ensures 0 <= s % SecondsPerDay < SecondsPerDay
    ensures (s / SecondsPerDay) * SecondsPerDay + s % SecondsPerDay == s
  {
  }

  /** The POSIX formula is the day number in seconds plus the time of day. */
  lemma EpochSecondsSplit(dt: DateTime)
    requires Valid(dt)
    ensures EpochSeconds(dt) == DayNumber(dt) * SecondsPerDay + TimeOfDay(dt)
    ensures 0 <= TimeOfDay(dt) < SecondsPerDay
  {
    PosixSecondsDecomposition(ToBrokenDown(dt));
  }

  lemma YearUnique(days: int, a: int, b: int)
    requires DaysBeforeYear(a) <= days < DaysBeforeYear(a + 1)
    requires DaysBeforeYear(b) <= days < DaysBeforeYear(b + 1)
    ensures a == b
  {
    if a < b {
      DaysBeforeYearMonotone(a + 1, b);
    } else if b < a {
      DaysBeforeYearMonotone(b + 1, a);
    }
  }

  lemma MonthUnique(y: int, dayOfYear: int, m: int, n: int)
    requires 1 <= m <= 12 && 1 <= n <= 12
    requires DaysBeforeMonth(y, m) <= dayOfYear < DaysBeforeMonth(y, m) + DaysInMonth(y, m)
    requires DaysBeforeMonth(y, n) <= dayOfYear < DaysBeforeMonth(y, n) + DaysInMonth(y, n)
    ensures m == n
  {
    if m < n {
      MonthsOrdered(y, m, n);
    } else if n < m {
      MonthsOrdered(y, n, m);
    }
  }

  /** Zero-based day of the year, as `tm_yday` counts it. */
  function DayOfYear(dt: DateTime): int
    requires Valid(dt)
  {
    DaysBeforeMonth(dt.year, dt.month) + dt.day - 1
  }

  /** A valid value's day of the year lies within its year. */
  lemma DayOfYearBounds(dt: DateTime)
    requires Valid(dt)
    ensures 0 <= DayOfYear(dt) < DaysInYear(dt.year)
  {
    MonthLength(dt.year, dt.month);
    if dt.month < 12 {
      MonthsOrdered(dt.year, dt.month, 12);
      MonthLength(dt.year, 12);
    }
  }

  lemma DivModUnique(s: int, q: int, r: int)
    requires s == q * SecondsPerDay + r && 0 <= r < SecondsPerDay
    ensures s / SecondsPerDay == q && s % SecondsPerDay == r
  {
  }

  lemma TimeOfDayUnique(a: DateTime, b: DateTime)
    requires Valid(a) && Valid(b)
    requires TimeOfDay(a) == TimeOfDay(b)
    ensures a.hour == b.hour && a.minute == b.minute && a.second == b.second
  {
  }

  /** A day number splits in one way only into a year and a day within that year. */
  lemma YearAndDayUnique(ya: int, da: int, yb: int, db: int)
    requires 0 <= da < DaysInYear(ya) && 0 <= db < DaysInYear(yb)
    requires DaysBeforeYear(ya) + da == DaysBeforeYear(yb) + db
    ensures ya == yb && da == db
  {
    YearLength(ya);
    YearLength(yb);
    YearUnique(DaysBeforeYear(ya) + da, ya, yb);
  }

  /** Within one year, the day of the year determines the month and the day. */
  lemma DayOfYearUnique(a: DateTime, b: DateTime)
    requires Valid(a) && Valid(b) && a.year == b.year
    requires DayOfYear(a) == DayOfYear(b)
    ensures a.month == b.month && a.day == b.day
  {
    MonthUnique(a.year, DayOfYear(a), a.month, b.month);
  }

  /** Distinct valid dates have distinct day numbers. */
  lemma DayNumberUnique(a: DateTime, b: DateTime)
    requires Valid(a) && Valid(b)
    requires DayNumber(a) == DayNumber(b)
    ensures a.year == b.year && a.month == b.month && a.day == b.day
  {
    DayOfYearBounds(a);
    DayOfYearBounds(b);
    YearAndDayUnique(a.year, DayOfYear(a), b.year, DayOfYear(b));
    DayOfYearUnique(a, b);
  }

  /** Distinct valid values have distinct seconds since the Epoch. */
  lemma EpochSecondsInjective(a: DateTime, b: DateTime)
    requires Valid(a) && Valid(b)
    requires EpochSeconds(a) == EpochSeconds(b)
    ensures a == b
  {
    EpochSecondsSplit(a);
    EpochSecondsSplit(b);
    DivModUnique(EpochSeconds(a), DayNumber(a), TimeOfDay(a));
    DivModUnique(EpochSeconds(b), DayNumber(b), TimeOfDay(b));
    TimeOfDayUnique(a, b);
    DayNumberUnique(a, b);
  }

  /** Every valid date and time is reached: `FromEpochSeconds` and `EpochSeconds`
      are inverse bijections between the integers and valid calendar values. */
  lemma FromEpochSecondsOfValid(dt: DateTime)
    requires Valid(dt)
    ensures FromEpochSeconds(EpochSeconds(dt)) == dt
  {
    EpochSecondsInjective(FromEpochSeconds(EpochSeconds(dt)), dt);
  }

  /** The year of `FromEpochSeconds(s)` is the one holding day number `s / SecondsPerDay`. */
  lemma YearBracket(s: int)
    ensures DaysBeforeYear(FromEpochSeconds(s).year) <= s / SecondsPerDay
            < DaysBeforeYear(FromEpochSeconds(s).year + 1)
  {
    var dt := FromEpochSeconds(s);
    EpochSecondsSplit(dt);
    DivModUnique(s, DayNumber(dt), TimeOfDay(dt));
    DayOfYearBounds(dt);
    YearLength(dt.year);
  }

  lemma YearRangeOfDays(days: int, y: int)
    requires DaysBeforeYear(y) <= days < DaysBeforeYear(y + 1)
    ensures MinYear <= y <= MaxYear <==> -719162 <= days < 2932897
  {
    assert DaysBeforeYear(MinYear) == -719162;
    assert DaysBeforeYear(MaxYear + 1) == 2932897;
    if y >= MinYear {
      DaysBeforeYearMonotone(MinYear, y);
    } else {
      DaysBeforeYearMonotone(y + 1, MinYear);
    }
    if y <= MaxYear {
      DaysBeforeYearMonotone(y + 1, MaxYear + 1);
    } else {
      DaysBeforeYearMonotone(MaxYear + 1, y);
    }
  }

  /** `fromtimestamp` accepts exactly the seconds whose date falls in years 1 through 9999. */
  lemma YearInRange(s: int)
    ensures MinYear <= FromEpochSeconds(s).year <= MaxYear
        <==> MinEpochSeconds <= s <= MaxEpochSeconds
  {
    YearBracket(s);
    YearRangeOfDays(s / SecondsPerDay, FromEpochSeconds(s).year);
  }
}
