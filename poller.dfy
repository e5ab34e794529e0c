/** The poller's date arithmetic (serverless/poller/index.js): `getNextMonday` moves the current
    local date to noon of the next week's Monday. */
module Poller {
  import opened Calendar

  const DayMillis := 86400000
  const Noon := 12 * 3600000

  /** A local `Date`: the day number of its calendar date and the milliseconds into that day. */
  class LocalDate {
    var day: nat
    var millis: nat

    constructor(day: nat, millis: nat)
      requires millis < DayMillis
      ensures this.day == day && this.millis == millis
    {
      this.day := day;
      this.millis := millis;
    }

    /** `getDay()`. */
    function GetDay(): (w: nat)
      reads this
      ensures w < 7
    {
      Weekday(day)
    }

    /** `getDate()`: the day of the month. */
    function GetDate(): (d: int)
      reads this
      ensures 1 <= d <= 31
    {
      CivilFromDays(day).day
    }

    /** `setDate(d)`: the date `d - 1` days after the first of the current month, so a `d` past
        the month's end rolls into the following months; the time of day is kept. */
    method SetDate(d: int)
      requires DaysFromCivil(Date(CivilFromDays(day).year, CivilFromDays(day).month, 1)) + d - 1 >= 0
      modifies this
      ensures day == DaysFromCivil(Date(CivilFromDays(old(day)).year, CivilFromDays(old(day)).month, 1)) + d - 1
      ensures millis == old(millis)
    {
      var c := CivilFromDays(day);
      day := DaysFromCivil(Date(c.year, c.month, 1)) + d - 1;
    }

    /** `setHours(12, 0, 0, 0)` and the like: the date is kept. */
    method SetHours(hours: nat)
      requires hours < 24
      modifies this
      ensures day == old(day) && millis == hours * 3600000
    {
      millis := hours * 3600000;
    }
  }

  /** Setting the day of the month to today's day plus `k` moves the date `k` days ahead. */
  lemma SetDateOffset(n: nat, k: int)
    ensures var c := CivilFromDays(n);
      DaysFromCivil(Date(c.year, c.month, 1)) + (c.day + k) - 1 == n + k
  {
  }

  /** `getNextMonday(now)`: `now` is moved `8 - weekday` days ahead, to noon. */
  method GetNextMonday(now: LocalDate)
    modifies now
    ensures now.day == old(now.day) + 8 - Weekday(old(now.day))
    ensures now.millis == Noon
  {
    var today := now.GetDay();
    var monday: int := 1;
    var distance := monday - today;
    SetDateOffset(now.day, distance + 7);
    now.SetDate(now.GetDate() + distance + 7);
    now.SetHours(12);
  }

  /** The next Monday is a Monday, two to eight days after today (never today), and its calendar
      date is a valid date, rolling over a month or year end. */
  lemma NextMondayProperties(n: nat)
    ensures Weekday(n + 8 - Weekday(n)) == 1
    ensures 2 <= 8 - Weekday(n) <= 8
    ensures ValidDate(CivilFromDays(n + 8 - Weekday(n)))
    ensures CivilFromDays(n + 8 - Weekday(n)) != CivilFromDays(n)
  {
  }
}
