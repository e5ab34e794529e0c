/** Proleptic Gregorian dates as day numbers, ISO 8601 weeks (Monday to Sunday) and the
    Brazilian Portuguese names and formats the application prints through moment's `pt-br`
    locale. Day 0 is Monday 1 January 1900; later days count up from there. */
module Calendar {
  import opened Js

  const EpochYear := 1900

  predicate IsLeapYear(y: int) {
    y % 4 == 0 && (y % 100 != 0 || y % 400 == 0)
  }

  function DaysInYear(y: int): (n: int)
    ensures n == 365 || n == 366
  {
    if IsLeapYear(y) then 366 else 365
  }

  function DaysInMonth(y: int, m: int): (n: int)
    requires 1 <= m <= 12
    ensures 28 <= n <= 31
  {
    if m == 2 then (if IsLeapYear(y) then 29 else 28)
    else if m == 4 || m == 6 || m == 9 || m == 11 then 30
    else 31
  }

  /** The number of days in year `y` before the first of month `m`. */
  function MonthOffset(y: int, m: int): (n: int)
    requires 1 <= m <= 12
    ensures 0 <= n <= 335
  {
    var leap := if IsLeapYear(y) && m > 2 then 1 else 0;
    leap + (if m == 1 then 0 else if m == 2 then 31 else if m == 3 then 59
            else if m == 4 then 90 else if m == 5 then 120 else if m == 6 then 151
            else if m == 7 then 181 else if m == 8 then 212 else if m == 9 then 243
            else if m == 10 then 273 else if m == 11 then 304 else 334)
  }

  lemma MonthOffsetStep(y: int, m: int)
    requires 1 <= m < 12
    ensures MonthOffset(y, m + 1) == MonthOffset(y, m) + DaysInMonth(y, m)
  {
  }

  lemma LastMonthEndsYear(y: int)
    ensures MonthOffset(y, 12) + DaysInMonth(y, 12) == DaysInYear(y)
  {
  }

  /** The day number of 1 January of year `y`. */
  function YearStart(y: int): (n: nat)
    requires y >= EpochYear
    decreases y
  {
    if y == EpochYear then 0 else YearStart(y - 1) + DaysInYear(y - 1)
  }

  lemma {:induction false} YearStartMonotonic(a: int, b: int)
    requires EpochYear <= a <= b
    ensures YearStart(a) + (b - a) * 365 <= YearStart(b)
    decreases b - a
  {
    if a < b {
      YearStartMonotonic(a, b - 1);
    }
  }

  datatype Date = Date(year: int, month: int, day: int)

  predicate ValidDate(d: Date) {
    d.year >= EpochYear && 1 <= d.month <= 12 && 1 <= d.day <= DaysInMonth(d.year, d.month)
  }

  /** The day number of a calendar date. */
  function DaysFromCivil(d: Date): (n: nat)
    requires ValidDate(d)
    ensures YearStart(d.year) <= n < YearStart(d.year + 1)
  {
    LastMonthEndsYear(d.year);
    YearStart(d.year) + MonthOffset(d.year, d.month) + d.day - 1
  }

  /** The year that contains day `n`, searching upwards from year `y`. */
  function FindYear(n: nat, y: int): (r: int)
    requires y >= EpochYear && YearStart(y) <= n
    ensures r >= y && YearStart(r) <= n < YearStart(r + 1)
    decreases n - YearStart(y)
  {
    if n < YearStart(y + 1) then y else FindYear(n, y + 1)
  }

  /** The date `r` days after the first of month `m` of year `y`, searching month by month. */
  function FindMonth(y: int, m: int, r: int): (d: Date)
    requires y >= EpochYear && 1 <= m <= 12
    requires 0 <= r < DaysInYear(y) - MonthOffset(y, m)
    ensures ValidDate(d) && d.year == y && m <= d.month
    ensures MonthOffset(y, d.month) + d.day - 1 == MonthOffset(y, m) + r
    decreases 12 - m
  {
    if r < DaysInMonth(y, m) then Date(y, m, r + 1)
    else
      LastMonthEndsYear(y);
      MonthOffsetStep(y, m);
      FindMonth(y, m + 1, r - DaysInMonth(y, m))
  }

  /** The calendar date of day number `n`. */
  function CivilFromDays(n: nat): (d: Date)
    ensures ValidDate(d) && DaysFromCivil(d) == n
  {
    var y := FindYear(n, EpochYear);
    FindMonth(y, 1, n - YearStart(y))
  }

  lemma {:induction false} FindYearExact(n: nat, y0: int, y: int)
    requires EpochYear <= y0 <= y && YearStart(y0) <= YearStart(y) <= n < YearStart(y + 1)
    ensures FindYear(n, y0) == y
    decreases y - y0
  {
    if y0 < y {
      YearStartMonotonic(y0 + 1, y);
      assert YearStart(y0 + 1) <= n;
      FindYearExact(n, y0 + 1, y);
    }
  }

  lemma {:induction false} FindMonthExact(y: int, m0: int, d: Date)
    requires ValidDate(d) && d.year == y && 1 <= m0 <= d.month
    requires MonthOffset(y, d.month) - MonthOffset(y, m0) + d.day - 1 < DaysInYear(y) - MonthOffset(y, m0)
    ensures FindMonth(y, m0, MonthOffset(y, d.month) - MonthOffset(y, m0) + d.day - 1) == d
    decreases d.month - m0
  {
    if m0 < d.month {
      MonthOffsetStep(y, m0);
      var k := m0 + 1;
      assert MonthOffset(y, k) <= MonthOffset(y, d.month) by {
        MonthOffsetMonotonic(y, k, d.month);
      }
      FindMonthExact(y, k, d);
    }
  }

  lemma {:induction false} MonthOffsetMonotonic(y: int, a: int, b: int)
    requires 1 <= a <= b <= 12
    ensures MonthOffset(y, a) + 28 * (b - a) <= MonthOffset(y, b)
    decreases b - a
  {
    if a < b {
      MonthOffsetStep(y, b - 1);
      MonthOffsetMonotonic(y, a, b - 1);
    }
  }

  /** Converting a valid date to its day number and back gives the date. */
  lemma CivilRoundTrip(d: Date)
    requires ValidDate(d)
    ensures CivilFromDays(DaysFromCivil(d)) == d
  {
    var n := DaysFromCivil(d);
    YearStartMonotonic(EpochYear, d.year);
    FindYearExact(n, EpochYear, d.year);
    LastMonthEndsYear(d.year);
    MonthOffsetMonotonic(d.year, d.month, 12);
    FindMonthExact(d.year, 1, d);
  }

  /** Day numbers name dates one-to-one. */
  lemma DaysFromCivilInjective(a: Date, b: Date)
    requires ValidDate(a) && ValidDate(b) && DaysFromCivil(a) == DaysFromCivil(b)
    ensures a == b
  {
    CivilRoundTrip(a);
    CivilRoundTrip(b);
  }

  /** The day of the week as JavaScript's `getDay()` and moment's `day()` number it:
      0 is Sunday, 1 is Monday, ..., 6 is Saturday. */
  function Weekday(n: nat): (w: nat)
    ensures w < 7
  {
    (n + 1) % 7
  }

  /** The Monday that starts the ISO 8601 week containing day `n` (moment's `startOf('isoWeek')`). */
  function MondayOf(n: nat): (m: nat)
    ensures m <= n < m + 7 && Weekday(m) == 1
  {
    n - n % 7
  }

  /** Any Monday within the six days up to `n` is the Monday of `n`'s week. */
  lemma MondayOfUnique(n: nat, m: nat)
    requires m <= n < m + 7 && Weekday(m) == 1
    ensures MondayOf(n) == m
  {
    assert m % 7 == 0;
  }

  /** Moving a whole week moves the week's Monday by a week. */
  lemma MondayOfNextWeek(n: nat)
    ensures MondayOf(n + 7) == MondayOf(n) + 7
  {
    MondayOfUnique(n + 7, MondayOf(n) + 7);
  }

  /** The days of the week in ISO order are Monday (1), ..., Saturday (6), Sunday (0). */
  lemma WeekdayWithinWeek(n: nat)
    ensures Weekday(n) == (n - MondayOf(n) + 1) % 7
  {
  }

  /** moment's `pt-br` abbreviations (`ddd`), indexed by `Weekday`. */
  const WeekdaysShort: seq<string> := ["dom", "seg", "ter", "qua", "qui", "sex", "sáb"]

  /** moment's `pt-br` month names (`MMMM`), January first. */
  const MonthNames: seq<string> := [
    "janeiro", "fevereiro", "março", "abril", "maio", "junho",
    "julho", "agosto", "setembro", "outubro", "novembro", "dezembro"
  ]

  function MonthName(m: int): (s: string)
    requires 1 <= m <= 12
    ensures |s| >= 4 && '-' !in s
  {
    MonthNames[m - 1]
  }

  /** Different months have different names. */
  lemma MonthNameInjective(a: int, b: int)
    requires 1 <= a <= 12 && 1 <= b <= 12
    ensures MonthName(a) == MonthName(b) <==> a == b
  {
    if a != b {
      var x, y := MonthName(a), MonthName(b);
      assert (x[0], x[2], |x|) != (y[0], y[2], |y|);
    }
  }

  /** A two-digit, zero-padded number (moment's `DD` and `MM`). */
  function Pad2(n: nat): (s: string)
    requires n < 100
    ensures |s| == 2 && AllDigits(s) && ToNumber(s) == Some(n)
  {
    var s := [DigitChar(n / 10), DigitChar(n % 10)];
    assert s[..1] == [DigitChar(n / 10)] && s[..1][..0] == [];
    assert DigitsValue(s[..1]) == n / 10;
    assert DigitsValue(s) == n / 10 * 10 + n % 10;
    s
  }

  /** moment's `format('DD/MM')`: zero-padded day and month separated by a slash. */
  function FormatDayMonth(d: Date): (s: string)
    requires ValidDate(d)
    ensures |s| == 5 && s[2] == '/'
    ensures ToNumber(s[..2]) == Some(d.day) && ToNumber(s[3..]) == Some(d.month)
  {
    var s := Pad2(d.day) + "/" + Pad2(d.month);
    assert s[..2] == Pad2(d.day) && s[3..] == Pad2(d.month);
    s
  }

  /** moment's `format('D')`: the day of the month without padding. */
  function FormatDay(d: Date): (s: string)
    requires ValidDate(d)
    ensures 1 <= |s| <= 2 && ToNumber(s) == Some(d.day)
    ensures s[0] != '0'
  {
    NatToStringRoundTrip(d.day);
    NatToString(d.day)
  }
}
