/**
 * Recurrence rollover: completing a recurring task moves its target date to
 * the next occurrence instead of marking it done (`completeTask`, recurring
 * branch). Dates are day numbers of the local calendar.
 */
module Recurrence {
  import opened Text
  import opened Calendar

  /** No three days in a row are all Saturday or Sunday. */
  lemma WeekendsAreShort(day: int)
    ensures !(IsWeekend(day + 1) && IsWeekend(day + 2) && IsWeekend(day + 3))
  {
  }

  /** The first day after `day` that is neither a Saturday nor a Sunday. */
  function NextWeekday(day: int): (r: int)
    ensures day < r <= day + 3
    ensures !IsWeekend(r)
    ensures forall d :: day < d < r ==> IsWeekend(d)
  {
    WeekendsAreShort(day);
    if !IsWeekend(day + 1) then day + 1
    else if !IsWeekend(day + 2) then day + 2
    else day + 3
  }

  /** A Friday rolls over to the following Monday. */
  lemma FridayToMonday(day: int)
    requires Weekday(day) == 5
    ensures NextWeekday(day) == day + 3 && Weekday(day + 3) == 1
  {
  }

  /**
   * `setMonth(getMonth() + 1)`: the same day of the month in the next month,
   * where a day the next month lacks spills over into the month after.
   */
  function AddOneMonth(day: int): (r: int)
    ensures r == day + DaysInMonth(ToCivil(day).year, ToCivil(day).month)
  {
    var c := ToCivil(day);
    if c.month == 12 then
      YearLength(c.year);
      WholeYear(c.year);
      MonthStep(c.year, 12);
      DaysFromCivil(c.year + 1, 1, c.day)
    else
      MonthStep(c.year, c.month);
      DaysFromCivil(c.year, c.month + 1, c.day)
  }

  /** The month after month `m` of year `y`. */
  function NextMonth(y: int, m: int): (r: Date)
    requires 1 <= m <= 12
    ensures 1 <= r.month <= 12
  {
    if m == 12 then Date(y + 1, 1, 1) else Date(y, m + 1, 1)
  }

  /** Monthly recurrence keeps the day of the month when the next month has that day. */
  lemma MonthlyKeepsDayOfMonth(day: int, c: Date, n: Date)
    requires c == ToCivil(day) && n == NextMonth(c.year, c.month)
    requires c.day <= DaysInMonth(n.year, n.month)
    ensures ToCivil(AddOneMonth(day)) == Date(n.year, n.month, c.day)
  {
    assert AddOneMonth(day) == DaysFromCivil(n.year, n.month, c.day);
    assert ValidDate(Date(n.year, n.month, c.day));
    CivilRoundTrip(Date(n.year, n.month, c.day));
  }

  /**
   * When the next month is too short, monthly recurrence lands in the month
   * after it, on the day count the next month lacked.
   */
  lemma MonthlyOverflow(day: int, c: Date, n: Date)
    requires c == ToCivil(day) && n == NextMonth(c.year, c.month)
    requires c.day > DaysInMonth(n.year, n.month)
    ensures n.month < 12
    ensures ToCivil(AddOneMonth(day)) == Date(n.year, n.month + 1, c.day - DaysInMonth(n.year, n.month))
  {
    assert n.month != 12;
    assert AddOneMonth(day) == DaysFromCivil(n.year, n.month, c.day);
    MonthStep(n.year, n.month);
    assert DaysFromCivil(n.year, n.month, c.day)
        == DaysFromCivil(n.year, n.month + 1, c.day - DaysInMonth(n.year, n.month));
    CivilRoundTrip(Date(n.year, n.month + 1, c.day - DaysInMonth(n.year, n.month)));
  }

  /**
   * January 31st rolls over to March 3rd (March 2nd in a leap year), never to
   * a day in February.
   */
  lemma MonthlyFromJanuary31st(y: int)
    ensures AddOneMonth(DaysFromCivil(y, 1, 31)) == DaysFromCivil(y, 3, if IsLeapYear(y) then 2 else 3)
  {
    CivilRoundTrip(Date(y, 1, 31));
    assert DaysBeforeMonth(y, 3) == 31 + DaysInMonth(y, 2);
  }

  /** The next target date for each frequency; an unrecognised or missing frequency keeps the date. */
  function Rollover(day: int, freq: Option<string>): (r: int)
    ensures freq == Some("daily") ==> r == day + 1
    ensures freq == Some("weekly") ==> r == day + 7
    ensures freq == Some("weekdays") ==>
              day < r <= day + 3 && !IsWeekend(r) && forall d :: day < d < r ==> IsWeekend(d)
    ensures freq == Some("monthly") ==> 28 <= r - day <= 31
    ensures freq !in {Some("daily"), Some("weekdays"), Some("weekly"), Some("monthly")} ==> r == day
  {
    match freq
    case Some(f) =>
      if f == "daily" then day + 1
      else if f == "weekdays" then NextWeekday(day)
      else if f == "weekly" then day + 7
      else if f == "monthly" then AddOneMonth(day)
      else day
    case None => day
  }

  /** The date arithmetic of `completeTask`'s recurring branch, with its do-while loop for weekdays. */
  method NextTargetDate(day: int, freq: Option<string>) returns (next: int)
    ensures next == Rollover(day, freq)
  {
    next := day;
    if freq == Some("daily") {
      next := next + 1;
    } else if freq == Some("weekdays") {
      next := next + 1;
      while IsWeekend(next)
        invariant day < next <= day + 3
        invariant forall d :: day < d < next ==> IsWeekend(d)
        invariant IsWeekend(next) ==> next < day + 3
        decreases day + 3 - next
      {
        next := next + 1;
        WeekendsAreShort(day);
      }
    } else if freq == Some("weekly") {
      next := next + 7;
    } else if freq == Some("monthly") {
      next := AddOneMonth(next);
    }
  }

  /**
   * The date `toISOString().slice(0, 10)` gives for local midnight of `day`
   * in a time zone `eastMinutes` ahead of UTC (UTC+05:30 is 330).
   */
  function IsoDayOfLocalMidnight(day: int, eastMinutes: int): (r: int)
    requires -1440 < eastMinutes < 1440
    ensures eastMinutes <= 0 ==> r == day
    ensures eastMinutes > 0 ==> r == day - 1
  {
    (day * 1440 - eastMinutes) / 1440
  }

  /** The date `completeTask` stores: the rolled-over local midnight, written back as a UTC date. */
  function RolloverAsWritten(day: int, freq: Option<string>, eastMinutes: int): int
    requires -1440 < eastMinutes < 1440
  {
    IsoDayOfLocalMidnight(Rollover(day, freq), eastMinutes)
  }

  /**
   * East of UTC the stored date is one day short: a daily task never moves,
   * a weekly one moves six days, and an unrecognised frequency moves the
   * date back a day on every completion. A weekdays task due on a Friday is
   * moved to the Sunday, and from a Sunday it never moves again.
   */
  lemma RolloverSlipsEastOfUtc(day: int, eastMinutes: int)
    requires 0 < eastMinutes < 1440
    ensures RolloverAsWritten(day, Some("daily"), eastMinutes) == day
    ensures RolloverAsWritten(day, Some("weekly"), eastMinutes) == day + 6
    ensures RolloverAsWritten(day, None, eastMinutes) == day - 1
    ensures Weekday(day) == 5 ==> RolloverAsWritten(day, Some("weekdays"), eastMinutes) == day + 2
    ensures Weekday(day) == 0 ==> RolloverAsWritten(day, Some("weekdays"), eastMinutes) == day
  {
    if Weekday(day) == 5 {
      FridayToMonday(day);
    }
    if Weekday(day) == 0 {
      assert Weekday(day + 1) == 1;
      assert NextWeekday(day) == day + 1;
    }
  }

  /** West of UTC, and at UTC, the stored date is the rolled-over date. */
  lemma RolloverExactWestOfUtc(day: int, freq: Option<string>, eastMinutes: int)
    requires -1440 < eastMinutes <= 0
    ensures RolloverAsWritten(day, freq, eastMinutes) == Rollover(day, freq)
  {
  }
}
