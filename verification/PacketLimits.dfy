/** The billing period a request falls into: month and year arithmetic on Date objects. */
module PacketLimits {
  import opened Calendar
  import opened Wrappers

  function DayOf(t: int): int {
    t / MS_PER_DAY
  }

  function TimeWithinDay(t: int): int {
    t % MS_PER_DAY
  }

  function CivilAt(t: int): (c: Civil)
    ensures c.Valid() && c.Day() == DayOf(t)
  {
    CivilOf(DayOf(t))
  }

  function MakeDate(day: int, time: int): int {
    day * MS_PER_DAY + time
  }

  /** Date.UTC reads the years 0 to 99 as 1900 to 1999 (section 21.4.1.30 of ECMA-262). */
  function FullYear(y: int): int {
    if 0 <= y <= 99 then 1900 + y else y
  }

  function DateUTC(y: int, m: int, d: int): int {
    MakeDate(MakeDay(FullYear(y), m, d), 0)
  }

  lemma SplitDate(day: int, time: int)
    requires 0 <= time < MS_PER_DAY
    ensures DayOf(MakeDate(day, time)) == day && TimeWithinDay(MakeDate(day, time)) == time
  {
  }

  lemma JoinDate(t: int)
    ensures MakeDate(DayOf(t), TimeWithinDay(t)) == t
  {
  }

  /** A valid calendar date at a time of day is read back unchanged. */
  lemma CivilOfDate(c: Civil, time: int)
    requires c.Valid() && 0 <= time < MS_PER_DAY
    ensures CivilAt(MakeDate(c.Day(), time)) == c && TimeWithinDay(MakeDate(c.Day(), time)) == time
  {
    hide MakeDay, CivilOf, DayOf, TimeWithinDay, MakeDate;
    SplitDate(c.Day(), time);
    CivilUnique(c);
  }

  /** A Date object: the setters recompute the time value from its own year, month and day. */
  class Date {
    var t: int

    constructor (t: int)
      ensures this.t == t
    {
      this.t := t;
    }

    function Civil(): (c: Civil)
      reads this
    {
      CivilAt(t)
    }

    method SetUTCDate(d: int)
      modifies this
      ensures t == old(MakeDate(MakeDay(Civil().y, Civil().m, d), TimeWithinDay(t)))
    {
      t := MakeDate(MakeDay(Civil().y, Civil().m, d), TimeWithinDay(t));
    }

    method SetUTCMonth(m: int)
      modifies this
      ensures t == old(MakeDate(MakeDay(Civil().y, m, Civil().d), TimeWithinDay(t)))
    {
      t := MakeDate(MakeDay(Civil().y, m, Civil().d), TimeWithinDay(t));
    }

    method SetUTCFullYear(y: int)
      modifies this
      ensures t == old(MakeDate(MakeDay(y, Civil().m, Civil().d), TimeWithinDay(t)))
    {
      t := MakeDate(MakeDay(y, Civil().m, Civil().d), TimeWithinDay(t));
    }
  }

  function Min(a: int, b: int): int {
    if a <= b then a else b
  }

  /** The month that lies `months` after that of c, as (year, month). */
  function TargetMonth(c: Civil, months: int): (int, int) {
    var k := 12 * c.y + c.m + months;
    (k / 12, k % 12)
  }

  /** The date addMonthsUtc is meant to give: the same day of the target month, or its last day. */
  function MonthsLater(c: Civil, months: int): (r: Civil)
    requires c.Valid()
    ensures r.Valid()
  {
    var (y, m) := TargetMonth(c, months);
    MonthLengths(y, m);
    Civil(y, m, Min(c.d, MonthDays(y, m)))
  }

  /** The time value addMonthsUtc gives: Date.UTC knows no February 29th of the year 0. */
  function AddMonths(t: int, months: int): int {
    var want := MonthsLater(CivilAt(t), months);
    var got := if want.y == 0 && want.m == 1 && want.d == 29 then want.(d := 28) else want;
    MakeDate(got.Day(), TimeWithinDay(t))
  }

  function AddYears(t: int, years: int): int {
    MakeDate(YearsLater(CivilAt(t), years).Day(), TimeWithinDay(t))
  }

  function YearsLater(c: Civil, years: int): (r: Civil)
    requires c.Valid()
    ensures r.Valid()
  {
    MonthLengths(c.y + years, c.m);
    Civil(c.y + years, c.m, Min(c.d, MonthDays(c.y + years, c.m)))
  }

  lemma MonthLengths(y: int, m: int)
    requires 0 <= m < 12
    ensures 28 <= MonthDays(y, m) <= 31
    ensures m != 1 ==> forall z :: MonthDays(z, m) == MonthDays(y, m)
    ensures m == 1 ==> MonthDays(y, m) == if Leap(y) then 29 else 28
  {
  }

  /** Months beyond the year carry over. */
  lemma CarryMonths(y: int, k: int, d: int)
    ensures MakeDay(y, k, d) == MakeDay(y + k / 12, k % 12, d)
  {
    hide DayFromYear, DaysBefore;
  }

  /** Day 0 of a month is the last day of the month before. */
  lemma DayZero(y: int, m: int)
    requires 0 <= m < 12
    ensures MakeDay(y, m + 1, 0) == MakeDay(y, m, MonthDays(y, m))
  {
    hide DayFromYear, DaysBefore, MakeDay;
    MakeDayInYear(y, m, MonthDays(y, m));
    if m == 11 {
      CarryMonths(y, 12, 0);
      MakeDayInYear(y + 1, 0, 0);
      YearStep(y);
      YearEnds(y);
      YearEnds(y + 1);
    } else {
      MakeDayInYear(y, m + 1, 0);
    }
  }

  lemma LastDayOfMonth(y: int, m: int)
    requires 0 <= m < 12
    ensures CivilAt(DateUTC(y, m + 1, 0)).d == MonthDays(FullYear(y), m)
  {
    hide MakeDay, CivilAt, MakeDate, FullYear;
    MonthLengths(FullYear(y), m);
    DayZero(FullYear(y), m);
    CivilOfDate(Calendar.Civil(FullYear(y), m, MonthDays(FullYear(y), m)), 0);
  }

  /** What Date.UTC makes of the month length: wrong only for February of the year 0. */
  lemma MonthDaysUtc(y: int, m: int)
    requires 0 <= m < 12
    ensures MonthDays(FullYear(y), m) == if y == 0 && m == 1 then 28 else MonthDays(y, m)
  {
    MonthLengths(y, m);
    MonthLengths(FullYear(y), m);
  }

  /** addMonthsUtc gives the intended date and keeps the time of day, for any number of months,
      unless it lands on the last day of February of the year 0. */
  method AddMonthsUtc(date: Date, months: int) returns (d: Date)
    ensures fresh(d) && d.t == AddMonths(date.t, months)
    ensures TimeWithinDay(d.t) == TimeWithinDay(date.t)
    ensures var want := MonthsLater(date.Civil(), months);
      d.Civil() == if want.y == 0 && want.m == 1 && want.d == 29 then want.(d := 28) else want
  {
    hide MakeDay, CivilAt, MakeDate, MonthDays, TimeWithinDay, FullYear;
    d := new Date(date.t);
    ghost var c, time := d.Civil(), TimeWithinDay(date.t);
    TimeRange(date.t);
    var day := d.Civil().d;
    d.SetUTCDate(1);
    MonthLengths(c.y, c.m);
    CivilOfDate(c.(d := 1), time);
    var k := d.Civil().m + months;
    d.SetUTCMonth(k);
    ghost var (y, m) := TargetMonth(c, months);
    CarryMonths(c.y, k, 1);
    assert y == c.y + k / 12 && m == k % 12;
    MonthLengths(y, m);
    CivilOfDate(Calendar.Civil(y, m, 1), time);
    var last := new Date(DateUTC(d.Civil().y, d.Civil().m + 1, 0));
    var lastDay := last.Civil().d;
    LastDayOfMonth(y, m);
    MonthDaysUtc(y, m);
    d.SetUTCDate(Min(day, lastDay));
    CivilOfDate(Calendar.Civil(y, m, Min(day, lastDay)), time);
  }

  lemma TimeRange(t: int)
    ensures 0 <= TimeWithinDay(t) < MS_PER_DAY
  {
  }

  /** addYearsUtc gives the intended date and keeps the time of day, for any number of years. */
  method AddYearsUtc(date: Date, years: int) returns (d: Date)
    ensures fresh(d) && d.t == AddYears(date.t, years)
    ensures TimeWithinDay(d.t) == TimeWithinDay(date.t)
    ensures d.Civil() == YearsLater(date.Civil(), years)
  {
    hide MakeDay, CivilAt, MakeDate, MonthDays, TimeWithinDay;
    d := new Date(date.t);
    ghost var c, time := d.Civil(), TimeWithinDay(date.t);
    TimeRange(date.t);
    var month := d.Civil().m;
    var y := d.Civil().y + years;
    d.SetUTCFullYear(y);
    MonthLengths(c.y, c.m);
    MonthLengths(y, c.m);
    if c.d <= MonthDays(y, c.m) {
      CivilOfDate(c.(y := y), time);
    } else {
      LeapDay(y);
      CivilOfDate(Calendar.Civil(y, 2, 1), time);
    }
    if d.Civil().m != month {
      d.SetUTCDate(0);
      DayZero(y, 1);
      CivilOfDate(Calendar.Civil(y, 1, MonthDays(y, 1)), time);
    }
  }

  /** February 29th of a common year is March 1st. */
  lemma LeapDay(y: int)
    ensures MonthDays(y, 1) == 28 ==> MakeDay(y, 1, 29) == MakeDay(y, 2, 1)
    ensures MonthDays(y, 2) == 31
  {
    hide DayFromYear, MakeDay;
    MakeDayInYear(y, 1, 29);
    MakeDayInYear(y, 2, 1);
  }

  /* ----- billing periods ----- */

  datatype Interval = Month | Year

  function StartOfNext(interval: Interval, now: int): int {
    var c := CivilAt(now);
    match interval
    case Year => DateUTC(c.y + 1, 0, 1)
    case Month => DateUTC(c.y, c.m + 1, 1)
  }

  function Back(interval: Interval, end: int): int {
    match interval
    case Year => AddYears(end, -1)
    case Month => AddMonths(end, -1)
  }

  /** subscriptionPeriod: the subscription's own end if it has one, else the end of the current
      calendar month or year, and one interval back from there. */
  function Period(interval: Interval, subscriptionEnd: Option<int>, now: int): (int, int) {
    var end := if subscriptionEnd.Some? then subscriptionEnd.value else StartOfNext(interval, now);
    (Back(interval, end), end)
  }

  method SubscriptionPeriod(interval: Interval, subscriptionEnd: Date?, now: Date) returns (start: Date, end: Date)
    ensures var sub := if subscriptionEnd == null then None else Some(subscriptionEnd.t);
      (start.t, end.t) == Period(interval, sub, now.t)
  {
    hide MakeDay, CivilAt, MakeDate, DateUTC, AddMonths, AddYears;
    if subscriptionEnd != null {
      end := subscriptionEnd;
    } else if interval.Year? {
      end := new Date(DateUTC(now.Civil().y + 1, 0, 1));
    } else {
      end := new Date(DateUTC(now.Civil().y, now.Civil().m + 1, 1));
    }
    if interval.Year? {
      start := AddYearsUtc(end, -1);
    } else {
      start := AddMonthsUtc(end, -1);
    }
  }

  /** MakeDay counts days. */
  lemma DayShift(y: int, m: int, d: int)
    ensures MakeDay(y, m, d) == MakeDay(y, m, 0) + d
  {
    hide DayFromYear, DaysBefore;
  }

  /** From any date one month back there are 28 to 31 days. */
  lemma MonthSpan(c: Civil)
    requires c.Valid()
    ensures 28 <= c.Day() - MonthsLater(c, -1).Day() <= 31
    ensures var s := MonthsLater(c, -1);
      c.Day() - s.Day() == if c.d <= MonthDays(s.y, s.m) then MonthDays(s.y, s.m) else c.d
  {
    hide MakeDay, MonthDays;
    var (y, m) := TargetMonth(c, -1);
    MonthLengths(y, m);
    MonthLengths(c.y, c.m);
    CarryMonths(y, m + 1, c.d);
    DayShift(y, m + 1, c.d);
    DayZero(y, m);
    DayShift(y, m, MonthDays(y, m));
    DayShift(y, m, Min(c.d, MonthDays(y, m)));
  }

  /** From any date one year back there are 365 or 366 days. */
  lemma YearSpan(c: Civil)
    requires c.Valid()
    ensures 365 <= c.Day() - YearsLater(c, -1).Day() <= 366
  {
    hide MakeDay, DayFromYear;
    var s := YearsLater(c, -1);
    MonthLengths(c.y, c.m);
    MonthLengths(s.y, s.m);
    MakeDayInYear(c.y, c.m, c.d);
    MakeDayInYear(s.y, s.m, s.d);
    YearStep(c.y - 1);
  }

  /** A yearly period has 365 or 366 days and a monthly one 28 to 31, with one exception: back
      from March 31st of the year 0. */
  lemma PeriodLength(interval: Interval, subscriptionEnd: Option<int>, now: int)
    ensures var (start, end) := Period(interval, subscriptionEnd, now);
      var days := (end - start) / MS_PER_DAY;
      && (end - start) % MS_PER_DAY == 0
      && (interval.Year? ==> 365 <= days <= 366)
      && (interval.Month? ==> (28 <= days <= 31 <==> CivilAt(end) != Calendar.Civil(0, 2, 31)))
  {
    hide MakeDay, CivilAt, MonthDays, StartOfNext;
    var (start, end) := Period(interval, subscriptionEnd, now);
    var c := CivilAt(end);
    JoinDate(end);
    if interval.Year? {
      YearSpan(c);
      WholeDays(c.Day(), YearsLater(c, -1).Day(), TimeWithinDay(end));
    } else {
      MonthSpan(c);
      MonthLengths(c.y, c.m);
      var s := MonthsLater(c, -1);
      MonthLengths(s.y, s.m);
      DayShift(s.y, s.m, 28);
      DayShift(s.y, s.m, 29);
      var got := if s.y == 0 && s.m == 1 && s.d == 29 then s.(d := 28) else s;
      WholeDays(c.Day(), got.Day(), TimeWithinDay(end));
    }
  }

  lemma WholeDays(a: int, b: int, time: int)
    ensures (MakeDate(a, time) - MakeDate(b, time)) / MS_PER_DAY == a - b
    ensures (MakeDate(a, time) - MakeDate(b, time)) % MS_PER_DAY == 0
  {
  }

  /** Two instants in the same UTC calendar month, or year. */
  predicate SameUnit(interval: Interval, s: int, t: int) {
    CivilAt(s).y == CivilAt(t).y && (interval.Month? ==> CivilAt(s).m == CivilAt(t).m)
  }

  /** The first day of the unit, and of the next one. */
  function FirstDay(interval: Interval, c: Civil): int {
    MakeDay(c.y, if interval.Year? then 0 else c.m, 1)
  }

  function NextFirstDay(interval: Interval, c: Civil): int {
    if interval.Year? then MakeDay(c.y + 1, 0, 1) else MakeDay(c.y, c.m + 1, 1)
  }

  /** A day lies in the unit of c exactly when it lies between these two days. */
  lemma UnitDays(interval: Interval, c: Civil, r: Civil)
    requires c.Valid() && r.Valid()
    ensures FirstDay(interval, c) <= r.Day() < NextFirstDay(interval, c) <==>
        r.y == c.y && (interval.Month? ==> r.m == c.m)
  {
    hide MakeDay, DayFromYear, DaysBefore;
    UnitBounds(c, c.m);
    UnitBounds(r, c.m);
    DaysBeforeOrdered(0, c.m, Leap(c.y));
    DaysBeforeOrdered(0, r.m, Leap(r.y));
    DaysBeforeOrdered(r.m + 1, 12, Leap(r.y));
    DaysBeforeOrdered(c.m + 1, 12, Leap(c.y));
    if r.y < c.y {
      YearsOrdered(r.y + 1, c.y);
    } else if c.y < r.y {
      YearsOrdered(c.y + 1, r.y);
    } else if interval.Month? {
      if r.m < c.m { DaysBeforeOrdered(r.m + 1, c.m, Leap(c.y)); }
      if c.m < r.m { DaysBeforeOrdered(c.m + 1, r.m, Leap(c.y)); }
    }
  }

  lemma UnitBounds(c: Civil, m: int)
    requires c.Valid() && 0 <= m < 12
    ensures c.Day() == DayFromYear(c.y) + DaysBefore(c.m, Leap(c.y)) + c.d - 1
    ensures MakeDay(c.y, 0, 1) == DayFromYear(c.y) && MakeDay(c.y + 1, 0, 1) == DayFromYear(c.y + 1)
    ensures DayFromYear(c.y + 1) == DayFromYear(c.y) + DaysBefore(12, Leap(c.y))
    ensures MakeDay(c.y, m, 1) == DayFromYear(c.y) + DaysBefore(m, Leap(c.y))
    ensures MakeDay(c.y, m + 1, 1) == DayFromYear(c.y) + DaysBefore(m + 1, Leap(c.y))
    ensures DaysBefore(0, Leap(c.y)) == 0
  {
    hide MakeDay, DayFromYear, DaysBefore;
    YearStep(c.y);
    YearEnds(c.y);
    YearEnds(c.y + 1);
    MakeDayInYear(c.y, c.m, c.d);
    MakeDayInYear(c.y, 0, 1);
    MakeDayInYear(c.y + 1, 0, 1);
    MakeDayInYear(c.y, m, 1);
    CarryMonths(c.y, m + 1, 1);
    if m < 11 { MakeDayInYear(c.y, m + 1, 1); }
  }

  /** Without a subscription the period is the current calendar unit, from its first instant,
      unless Date.UTC is given a year that it takes for one of the 20th century. */
  lemma CalendarPeriod(interval: Interval, now: int)
    ensures var c := CivilAt(now);
      var unit := (MakeDate(FirstDay(interval, c), 0), MakeDate(NextFirstDay(interval, c), 0));
      Period(interval, None, now) == unit <==> !(0 <= (if interval.Year? then c.y + 1 else c.y) <= 99)
  {
    hide MakeDay, CivilAt, MonthDays, MakeDate;
    var c := CivilAt(now);
    var next := if interval.Year? then Calendar.Civil(c.y + 1, 0, 1)
      else Calendar.Civil(c.y + (c.m + 1) / 12, (c.m + 1) % 12, 1);
    MonthLengths(next.y, next.m);
    CarryMonths(c.y, c.m + 1, 1);
    CivilOfDate(next, 0);
    if interval.Year? {
      assert YearsLater(next, -1) == Calendar.Civil(c.y, 0, 1) by { MonthLengths(c.y, 0); }
    } else {
      assert MonthsLater(next, -1) == Calendar.Civil(c.y, c.m, 1) by { MonthLengths(c.y, c.m); }
    }
    var y := if interval.Year? then c.y + 1 else c.y;
    if 0 <= y <= 99 {
      LaterCentury(y, if interval.Year? then 0 else c.m + 1);
    }
  }

  /** The same month 1900 years on starts at another instant. */
  lemma LaterCentury(y: int, m: int)
    ensures MakeDate(MakeDay(1900 + y, m, 1), 0) != MakeDate(MakeDay(y, m, 1), 0)
  {
    hide MakeDay, CivilAt, MonthDays, MakeDate;
    var k := m / 12;
    CarryMonths(y, m, 1);
    CarryMonths(1900 + y, m, 1);
    MonthLengths(y + k, m % 12);
    MonthLengths(1900 + y + k, m % 12);
    CivilOfDate(Calendar.Civil(y + k, m % 12, 1), 0);
    CivilOfDate(Calendar.Civil(1900 + y + k, m % 12, 1), 0);
  }

  /** Without a subscription an instant lies in the billing period of `now` exactly when it lies in
      the same UTC calendar unit; `now` itself always does, and periods of a unit are one. */
  lemma PeriodIsCalendarUnit(interval: Interval, now: int, t: int)
    requires !(0 <= (if interval.Year? then CivilAt(now).y + 1 else CivilAt(now).y) <= 99)
    ensures var (start, end) := Period(interval, None, now);
      start <= t < end <==> SameUnit(interval, t, now)
  {
    hide MakeDay, CivilAt, MonthDays, StartOfNext, Back, FirstDay, NextFirstDay;
    CalendarPeriod(interval, now);
    UnitDays(interval, CivilAt(now), CivilAt(t));
    JoinDate(t);
    TimeRange(t);
  }

  /** A day has 86400000 milliseconds. */
  lemma DayIs(day: int, ms: int)
    requires 0 <= ms < 24 * 60 * 60 * 1000
    ensures CivilAt(day * 86400000 + ms) == CivilOf(day)
  {
    hide CivilOf, MakeDay, MonthDays;
    assert day * 86400000 + ms == MakeDate(day, ms);
    SplitDate(day, ms);
    DayOfCivil(MakeDate(day, ms));
  }

  lemma DayOfCivil(t: int)
    ensures CivilAt(t) == CivilOf(DayOf(t))
  {
    hide CivilOf;
  }
}
