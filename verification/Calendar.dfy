/** UTC dates as section 21.4.1 of ECMA-262 computes them: a time value counts milliseconds,
    and year, month and day are read off the proleptic Gregorian calendar. */
module Calendar {

  const MS_PER_DAY: int := 86400000

  /** Day number of January 1st. */
  function DayFromYear(y: int): int {
    365 * (y - 1970) + (y - 1969) / 4 - (y - 1901) / 100 + (y - 1601) / 400
  }

  predicate Leap(y: int) {
    y % 4 == 0 && (y % 100 != 0 || y % 400 == 0)
  }

  function DaysInYear(y: int): int {
    if Leap(y) then 366 else 365
  }

  lemma FourthYear(y: int)
    ensures (y - 1968) / 4 == (y - 1969) / 4 + (if y % 4 == 0 then 1 else 0)
  {
  }

  lemma HundredthYear(y: int)
    ensures (y - 1900) / 100 == (y - 1901) / 100 + (if y % 100 == 0 then 1 else 0)
  {
  }

  lemma FourHundredthYear(y: int)
    ensures (y - 1600) / 400 == (y - 1601) / 400 + (if y % 400 == 0 then 1 else 0)
  {
  }

  lemma FourCenturies(y: int)
    requires y % 400 == 0
    ensures y % 100 == 0
  {
    var q, d := y / 400, y / 100;
    assert y == 400 * q;
    assert y % 100 == 100 * (4 * q - d);
  }

  lemma Century(y: int)
    requires y % 100 == 0
    ensures y % 4 == 0
  {
    var q, d := y / 100, y / 4;
    assert y == 100 * q;
    assert y % 4 == 4 * (25 * q - d);
  }

  lemma LeapDays(y: int)
    ensures (if y % 4 == 0 then 1 else 0) - (if y % 100 == 0 then 1 else 0) + (if y % 400 == 0 then 1 else 0)
         == DaysInYear(y) - 365
  {
    if y % 400 == 0 { FourCenturies(y); }
    if y % 100 == 0 { Century(y); }
  }

  lemma YearStep(y: int)
    ensures DayFromYear(y + 1) == DayFromYear(y) + DaysInYear(y)
  {
    hide Leap, DaysInYear;
    FourthYear(y);
    HundredthYear(y);
    FourHundredthYear(y);
    LeapDays(y);
  }

  /** Days of the year before month m, which counts from 0; m == 12 gives the whole year. */
  function DaysBefore(m: int, leap: bool): int
    requires 0 <= m <= 12
  {
    var plain :=
      if m == 0 then 0 else if m == 1 then 31 else if m == 2 then 59 else if m == 3 then 90
      else if m == 4 then 120 else if m == 5 then 151 else if m == 6 then 181 else if m == 7 then 212
      else if m == 8 then 243 else if m == 9 then 273 else if m == 10 then 304 else if m == 11 then 334
      else 365;
    plain + (if leap && m >= 2 then 1 else 0)
  }

  function MonthDays(y: int, m: int): int
    requires 0 <= m < 12
  {
    DaysBefore(m + 1, Leap(y)) - DaysBefore(m, Leap(y))
  }

  /** MakeDay: months beyond the year carry over, and so do days beyond the month. */
  function MakeDay(y: int, m: int, d: int): int {
    DayFromYear(y + m / 12) + DaysBefore(m % 12, Leap(y + m / 12)) + d - 1
  }

  lemma MakeDayInYear(y: int, m: int, d: int)
    requires 0 <= m < 12
    ensures MakeDay(y, m, d) == DayFromYear(y) + DaysBefore(m, Leap(y)) + d - 1
  {
  }

  datatype Civil = Civil(y: int, m: int, d: int) {
    predicate Valid() {
      0 <= m < 12 && 1 <= d <= MonthDays(y, m)
    }

    function Day(): int {
      MakeDay(y, m, d)
    }
  }

  function YearUp(day: int, y: int): (r: int)
    requires DayFromYear(y) <= day
    ensures DayFromYear(r) <= day < DayFromYear(r + 1)
    decreases day - DayFromYear(y)
  {
    hide DayFromYear, Leap;
    YearStep(y);
    if day < DayFromYear(y + 1) then y else YearUp(day, y + 1)
  }

  function YearDown(day: int, y: int): (r: int)
    requires day < DayFromYear(y)
    ensures DayFromYear(r) <= day < DayFromYear(r + 1)
    decreases DayFromYear(y) - day
  {
    hide DayFromYear, Leap;
    YearStep(y - 1);
    if DayFromYear(y - 1) <= day then y - 1 else YearDown(day, y - 1)
  }

  function YearFromDay(day: int): (y: int)
    ensures DayFromYear(y) <= day < DayFromYear(y + 1)
  {
    if day >= DayFromYear(1970) then YearUp(day, 1970) else YearDown(day, 1970)
  }

  function MonthFrom(dayInYear: int, leap: bool, m: int): (r: int)
    requires 0 <= m < 12 && DaysBefore(m, leap) <= dayInYear < DaysBefore(12, leap)
    ensures 0 <= r < 12 && DaysBefore(r, leap) <= dayInYear < DaysBefore(r + 1, leap)
    decreases 12 - m
  {
    if dayInYear < DaysBefore(m + 1, leap) then m else MonthFrom(dayInYear, leap, m + 1)
  }

  lemma YearEnds(y: int)
    ensures DaysBefore(0, Leap(y)) == 0 && DaysBefore(12, Leap(y)) == DaysInYear(y)
  {
  }

  /** Year, month and day of month of a day number. */
  function CivilOf(day: int): (c: Civil)
    ensures c.Valid() && c.Day() == day
  {
    var y := YearFromDay(day);
    hide DayFromYear, DaysBefore, MakeDay;
    YearStep(y);
    YearEnds(y);
    var m := MonthFrom(day - DayFromYear(y), Leap(y), 0);
    MakeDayInYear(y, m, day - DayFromYear(y) - DaysBefore(m, Leap(y)) + 1);
    Civil(y, m, day - DayFromYear(y) - DaysBefore(m, Leap(y)) + 1)
  }

  lemma {:induction false} YearsOrdered(y: int, z: int)
    requires y <= z
    ensures DayFromYear(y) + 365 * (z - y) <= DayFromYear(z)
    decreases z - y
  {
    if y < z {
      YearsOrdered(y, z - 1);
      YearStep(z - 1);
    }
  }

  lemma DaysBeforeOrdered(m: int, n: int, leap: bool)
    requires 0 <= m <= n <= 12
    ensures DaysBefore(m, leap) <= DaysBefore(n, leap)
  {
  }

  /** A date lies in its year, and in its month. */
  lemma DateBounds(c: Civil)
    requires c.Valid()
    ensures DayFromYear(c.y) <= c.Day() < DayFromYear(c.y + 1)
    ensures DaysBefore(c.m, Leap(c.y)) <= c.Day() - DayFromYear(c.y) < DaysBefore(c.m + 1, Leap(c.y))
    ensures c.d == c.Day() - DayFromYear(c.y) - DaysBefore(c.m, Leap(c.y)) + 1
  {
    hide DayFromYear, DaysBefore, MakeDay;
    MakeDayInYear(c.y, c.m, c.d);
    YearEnds(c.y);
    YearStep(c.y);
    DaysBeforeOrdered(0, c.m, Leap(c.y));
    DaysBeforeOrdered(c.m + 1, 12, Leap(c.y));
  }

  /** A date is the only one with its day number. */
  lemma CivilUnique(c: Civil)
    requires c.Valid()
    ensures CivilOf(c.Day()) == c
  {
    hide DayFromYear, DaysBefore, MakeDay, CivilOf, Leap;
    var r := CivilOf(c.Day());
    DateBounds(c);
    DateBounds(r);
    if c.y < r.y {
      YearsOrdered(c.y + 1, r.y);
    } else if r.y < c.y {
      YearsOrdered(r.y + 1, c.y);
    } else if c.m < r.m {
      DaysBeforeOrdered(c.m + 1, r.m, Leap(c.y));
    } else if r.m < c.m {
      DaysBeforeOrdered(r.m + 1, c.m, Leap(c.y));
    }
  }

  /** The lengths of the months in the Gregorian calendar. */
  lemma MonthDaysAre(y: int, m: int)
    requires 0 <= m < 12
    ensures var feb := if y % 400 == 0 || (y % 4 == 0 && y % 100 != 0) then 29 else 28;
      MonthDays(y, m) == [31, feb, 31, 30, 31, 30, 31, 31, 30, 31, 30, 31][m]
  {
  }

  /** The next date of the calendar. */
  function NextDate(c: Civil): Civil
    requires 0 <= c.m < 12
  {
    var feb := if c.y % 400 == 0 || (c.y % 4 == 0 && c.y % 100 != 0) then 29 else 28;
    if c.d < [31, feb, 31, 30, 31, 30, 31, 31, 30, 31, 30, 31][c.m] then c.(d := c.d + 1)
    else if c.m < 11 then Civil(c.y, c.m + 1, 1)
    else Civil(c.y + 1, 0, 1)
  }

  /** Day 0 is January 1st, 1970, and each day number has the date after that of the one before it. */
  lemma CivilSuccession(day: int)
    ensures CivilOf(0) == Civil(1970, 0, 1)
    ensures CivilOf(day + 1) == NextDate(CivilOf(day))
  {
    hide CivilOf, DayFromYear, DaysBefore, MakeDay, NextDate, MonthDays;
    FirstDate();
    var c := CivilOf(day);
    NextDay(c);
    CivilUnique(NextDate(c));
  }

  lemma FirstDate()
    ensures CivilOf(0) == Civil(1970, 0, 1)
  {
    hide CivilOf;
    assert Civil(1970, 0, 1).Day() == 0;
    CivilUnique(Civil(1970, 0, 1));
  }

  lemma NextDay(c: Civil)
    requires c.Valid()
    ensures NextDate(c).Valid() && NextDate(c).Day() == c.Day() + 1
  {
    hide DayFromYear, MakeDay;
    var n := NextDate(c);
    MonthDaysAre(c.y, c.m);
    MonthDaysAre(n.y, n.m);
    MakeDayInYear(c.y, c.m, c.d);
    MakeDayInYear(n.y, n.m, n.d);
    YearStep(c.y);
    YearEnds(c.y);
    YearEnds(n.y);
  }
}
