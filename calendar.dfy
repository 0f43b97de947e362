/**
 * The proleptic Gregorian calendar over day numbers.
 *
 * main.go only handles dates parsed as UTC midnights, and only ever moves them
 * by whole days, so a date is a count of days since 1970-01-01. This module
 * converts between that count and (year, month, day), and gives the weekday
 * with Go's ordinals (Sunday = 0 ... Saturday = 6).
 */
module Calendar {

  /** A UTC midnight, as the number of days since 1970-01-01 (day 0). */
  type Day = int

  datatype Date = Date(year: int, month: int, day: int)

  predicate IsLeapYear(y: int) {
    y % 4 == 0 && (y % 100 != 0 || y % 400 == 0)
  }

  function DaysInYear(y: int): int {
    if IsLeapYear(y) then 366 else 365
  }

  function DaysInMonth(y: int, m: int): (n: int)
    requires 1 <= m <= 12
    ensures 28 <= n <= 31
  {
    if m == 2 then (if IsLeapYear(y) then 29 else 28)
    else if m == 4 || m == 6 || m == 9 || m == 11 then 30
    else 31
  }

  /** A calendar date that exists. */
  predicate Valid(dt: Date) {
    1 <= dt.month <= 12 && 1 <= dt.day <= DaysInMonth(dt.year, dt.month)
  }

  /** Days of year y that lie before the first of month m (m = 13: the whole year). */
  function DaysBeforeMonth(y: int, m: int): int
    requires 1 <= m <= 13
  {
    [0, 31, 59, 90, 120, 151, 181, 212, 243, 273, 304, 334, 365][m - 1]
      + (if m > 2 && IsLeapYear(y) then 1 else 0)
  }

  /** Each month starts where the previous one ends, and the last one ends with the year. */
  lemma DaysBeforeMonthStep(y: int, m: int)
    requires 1 <= m <= 12
    ensures DaysBeforeMonth(y, m + 1) == DaysBeforeMonth(y, m) + DaysInMonth(y, m)
    ensures DaysBeforeMonth(y, 13) == DaysInYear(y)
  {
  }

  /** Month starts grow with the month. */
  lemma DaysBeforeMonthMonotone(y: int, m1: int, m2: int)
    requires 1 <= m1 < m2 <= 13
    ensures DaysBeforeMonth(y, m1 + 1) <= DaysBeforeMonth(y, m2)
  {
  }

  /** Leap years before year y, counted from an arbitrary fixed origin. */
  function LeapsBefore(y: int): int {
    (y - 1) / 4 - (y - 1) / 100 + (y - 1) / 400
  }

  /** Flooring division by k goes up by one exactly when y is a multiple of k. */
  lemma FloorStep(y: int, k: int)
    requires k == 4 || k == 100 || k == 400
    ensures y / k - (y - 1) / k == (if y % k == 0 then 1 else 0)
  {
  }

  /** A multiple of 400 is a multiple of 100, and a multiple of 100 is a multiple of 4. */
  lemma MultipleChain(y: int)
    ensures y % 400 == 0 ==> y % 100 == 0
    ensures y % 100 == 0 ==> y % 4 == 0
  {
    var q, d, f := y / 400, y / 100, y / 4;
    assert y == 400 * q + y % 400;
    assert y == 100 * d + y % 100;
    assert y == 4 * f + y % 4;
    if y % 400 == 0 {
      assert y % 100 == 100 * (4 * q - d);
    }
    if y % 100 == 0 {
      assert y % 4 == 4 * (25 * d - f);
    }
  }

  lemma LeapsBeforeStep(y: int)
    ensures LeapsBefore(y + 1) == LeapsBefore(y) + (if IsLeapYear(y) then 1 else 0)
  {
    FloorStep(y, 4);
    FloorStep(y, 100);
    FloorStep(y, 400);
    MultipleChain(y);
  }

  /** The day number of January 1st of year y. */
  function DaysBeforeYear(y: int): Day {
    365 * (y - 1970) + LeapsBefore(y) - LeapsBefore(1970)
  }

  /** Each year starts where the previous one ends. */
  lemma DaysBeforeYearStep(y: int)
    ensures DaysBeforeYear(y + 1) == DaysBeforeYear(y) + DaysInYear(y)
  {
    LeapsBeforeStep(y);
  }

  /** Over n years the calendar advances by between 365 and 366 days a year. */
  lemma {:induction false} DaysBeforeYearMonotone(a: int, b: int)
    requires a <= b
    ensures DaysBeforeYear(a) + 365 * (b - a) <= DaysBeforeYear(b)
    ensures DaysBeforeYear(b) <= DaysBeforeYear(a) + 366 * (b - a)
    decreases b - a
  {
    if a < b {
      DaysBeforeYearMonotone(a, b - 1);
      DaysBeforeYearStep(b - 1);
    }
  }

  /** The day number of a calendar date. */
  function DayNumber(dt: Date): Day
    requires 1 <= dt.month <= 12
  {
    DaysBeforeYear(dt.year) + DaysBeforeMonth(dt.year, dt.month) + dt.day - 1
  }

  /** A valid date's day number lies within its own year. */
  lemma DayNumberInYear(dt: Date)
    requires Valid(dt)
    ensures DaysBeforeYear(dt.year) <= DayNumber(dt) < DaysBeforeYear(dt.year + 1)
  {
    DaysBeforeYearStep(dt.year);
    DaysBeforeMonthStep(dt.year, dt.month);
    DaysBeforeMonthMonotone(dt.year, dt.month, 13);
  }

  /**
   * 146097 days make 400 Gregorian years, so 400 * n / 146097 years after 1970
   * is within a year of the year that holds day n.
   */
  lemma YearEstimate(n: Day)
    ensures var k := 400 * n / 146097;
      DaysBeforeYear(1969 + k) <= n < DaysBeforeYear(1972 + k)
  {
    var k := 400 * n / 146097;
    assert 146097 * k <= 400 * n < 146097 * k + 146097;
    var a, b := 1968 + k, 1971 + k;
    assert 4 * (a / 4) <= a && 100 * (a / 100) > a - 100 && 400 * (a / 400) <= a;
    assert 4 * (b / 4) > b - 4 && 100 * (b / 100) <= b && 400 * (b / 400) > b - 400;
  }

  /** The year that holds day n. */
  function YearOf(n: Day): (y: int)
    ensures DaysBeforeYear(y) <= n < DaysBeforeYear(y + 1)
  {
    YearEstimate(n);
    var y := 1969 + 400 * n / 146097;
    DaysBeforeYearStep(y);
    DaysBeforeYearStep(y + 1);
    DaysBeforeYearStep(y + 2);
    if n < DaysBeforeYear(y + 1) then y
    else if n < DaysBeforeYear(y + 2) then y + 1
    else y + 2
  }

  /** No month is longer than 32 days, so doy / 32 + 1 is the month of day doy or the one before it. */
  lemma MonthEstimate(y: int, doy: int)
    requires 0 <= doy < DaysInYear(y)
    ensures doy / 32 + 1 <= 12
    ensures DaysBeforeMonth(y, doy / 32 + 1) <= doy
    ensures doy / 32 + 1 == 12 || doy < DaysBeforeMonth(y, doy / 32 + 3)
  {
    var e := doy / 32;
    assert 32 * e <= doy < 32 * e + 32;
  }

  /** The month holding day doy (counted from 0) of year y. */
  function MonthOf(y: int, doy: int): (m: int)
    requires 0 <= doy < DaysInYear(y)
    ensures 1 <= m <= 12
    ensures DaysBeforeMonth(y, m) <= doy < DaysBeforeMonth(y, m + 1)
  {
    MonthEstimate(y, doy);
    var m := doy / 32 + 1;
    DaysBeforeMonthStep(y, 12);
    if m == 12 || doy < DaysBeforeMonth(y, m + 1) then m else m + 1
  }

  /** The calendar date of day n: it exists and has day number n. */
  function DateOf(n: Day): (dt: Date)
    ensures Valid(dt)
    ensures DayNumber(dt) == n
  {
    var y := YearOf(n);
    DaysBeforeYearStep(y);
    var m := MonthOf(y, n - DaysBeforeYear(y));
    DaysBeforeMonthStep(y, m);
    Date(y, m, n - DaysBeforeYear(y) - DaysBeforeMonth(y, m) + 1)
  }

  /** Valid dates with the same day number fall in the same year. */
  lemma SameDayNumberSameYear(a: Date, b: Date)
    requires Valid(a) && Valid(b)
    requires DayNumber(a) == DayNumber(b)
    ensures a.year == b.year
  {
    DayNumberInYear(a);
    DayNumberInYear(b);
    if a.year < b.year {
      DaysBeforeYearMonotone(a.year + 1, b.year);
    } else if b.year < a.year {
      DaysBeforeYearMonotone(b.year + 1, a.year);
    }
  }

  /** Different valid dates have different day numbers. */
  lemma DayNumberInjective(a: Date, b: Date)
    requires Valid(a) && Valid(b)
    requires DayNumber(a) == DayNumber(b)
    ensures a == b
  {
    SameDayNumberSameYear(a, b);
    var y := a.year;
    DaysBeforeMonthStep(y, a.month);
    DaysBeforeMonthStep(y, b.month);
    if a.month < b.month {
      DaysBeforeMonthMonotone(y, a.month, b.month);
    } else if b.month < a.month {
      DaysBeforeMonthMonotone(y, b.month, a.month);
    }
  }

  /** Converting a valid date to its day number and back gives the date. */
  lemma DateOfDayNumber(dt: Date)
    requires Valid(dt)
    ensures DateOf(DayNumber(dt)) == dt
  {
    DayNumberInjective(DateOf(DayNumber(dt)), dt);
  }

  const Sunday := 0
  const Monday := 1
  const Saturday := 6

  /** Go's time.Weekday ordinal of day n; 1970-01-01 was a Thursday (4). */
  function Weekday(n: Day): (w: int)
    ensures Sunday <= w <= Saturday
    ensures n == 0 ==> w == 4 // 1 January 1970 was a Thursday
  {
    (n + 4) % 7
  }

  /** Weekdays follow one another day by day and repeat every seven days. */
  lemma WeekdayNext(n: Day)
    ensures Weekday(n + 1) == (Weekday(n) + 1) % 7
    ensures Weekday(n + 7) == Weekday(n)
  {
  }

  /** Go's time.Weekday.String. */
  function WeekdayName(w: int): (s: string)
    requires Sunday <= w <= Saturday
    ensures 6 <= |s| <= 9 && s[|s| - 3..] == "day"
    ensures 'a' <= s[2] <= 'z'
  {
    ["Sunday", "Monday", "Tuesday", "Wednesday", "Thursday", "Friday", "Saturday"][w]
  }

  /** Distinct weekdays have distinct names. */
  lemma WeekdayNameInjective(v: int, w: int)
    requires Sunday <= v <= Saturday && Sunday <= w <= Saturday
    ensures WeekdayName(v) == WeekdayName(w) ==> v == w
  {
    if WeekdayName(v) == WeekdayName(w) {
      // No two names share their first two letters.
      var a := WeekdayName(v);
      assert a[0] == WeekdayName(w)[0] && a[1] == WeekdayName(w)[1];
    }
  }
}
