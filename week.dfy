/**
 * The week resolver of main.go (weekStartDate): the Monday that starts the week
 * of a date, with weeks running Monday to Sunday, and the label of the sheet
 * that holds that week.
 */
module Week {
  import opened Calendar
  import opened Layout
  import opened Wrappers

  /** Go's integer `/`, which truncates toward zero. */
  function GoQuo(a: int, b: int): int
    requires b > 0
  {
    if a >= 0 then a / b else -((-a) / b)
  }

  /**
   * Go's `%`: since the quotient is truncated toward zero, the remainder takes
   * the sign of the dividend (Dafny's own `%` never returns a negative number).
   */
  function GoRem(a: int, b: int): (r: int)
    requires b > 0
    ensures 0 <= a ==> 0 <= r < b
    ensures a < 0 ==> -b < r <= 0
    ensures a == b * GoQuo(a, b) + r
  {
    if a >= 0 then a % b else -((-a) % b)
  }

  /** The day offset main.go computes from a weekday: (Monday - weekday - 7) % 7 in Go. */
  function WeekOffset(w: int): (offset: int)
    requires Sunday <= w <= Saturday
    ensures -6 <= offset <= 0
    ensures offset == 0 <==> w == Monday
    ensures offset == -((w + 6) % 7)
  {
    GoRem(Monday - w - 7, 7)
  }

  /** weekStartDate: steps back from a date to the Monday of its week. */
  function WeekStartDate(date: Day): (start: Day)
    ensures Weekday(start) == Monday
    ensures start <= date < start + 7
    ensures start == date <==> Weekday(date) == Monday
  {
    date + WeekOffset(Weekday(date))
  }

  /** The week start is the only Monday in the seven days ending on the date. */
  lemma WeekStartUnique(date: Day, monday: Day)
    requires Weekday(monday) == Monday
    requires monday <= date < monday + 7
    ensures WeekStartDate(date) == monday
  {
    var start := WeekStartDate(date);
    var k := (start + 4) / 7;
    var j := (monday + 4) / 7;
    assert start + 4 == 7 * k + 1;
    assert monday + 4 == 7 * j + 1;
  }

  /** Resolving the week of a week start changes nothing. */
  lemma WeekStartIdempotent(date: Day)
    ensures WeekStartDate(WeekStartDate(date)) == WeekStartDate(date)
  {
    WeekStartUnique(WeekStartDate(date), WeekStartDate(date));
  }

  /**
   * The name of the sheet for a date's week: the label of the Monday among the
   * seven days ending on the date, which names that Monday's day and month.
   */
  function SheetLabel(date: Day): (name: string)
    ensures forall monday :: Weekday(monday) == Monday && monday <= date < monday + 7 ==>
      name == WeekLabelText(monday) && ParseWeekLabel(name) == Some((DateOf(monday).day, DateOf(monday).month))
  {
    forall monday | Weekday(monday) == Monday && monday <= date < monday + 7
      ensures WeekStartDate(date) == monday
    {
      WeekStartUnique(date, monday);
    }
    WeekLabelText(WeekStartDate(date))
  }

  /** All seven days of a Monday-to-Sunday week look up the sheet labelled with their Monday. */
  lemma SheetLabelOfWeek(monday: Day, k: int)
    requires Weekday(monday) == Monday
    requires 0 <= k < 7
    ensures SheetLabel(monday + k) == WeekLabelText(monday)
  {
    WeekStartUnique(monday + k, monday);
    assert WeekStartDate(monday + k) == monday;
  }
}
