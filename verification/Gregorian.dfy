/** Day numbers and dates of the proleptic Gregorian calendar, as section 21.4.1 of ECMA-262 defines them. */
module Gregorian {

  /** Months count from 0, days of the month from 1. */
  datatype Ymd = Ymd(year: int, month: int, date: int)

  predicate Leap(y: int) { y % 4 == 0 && (y % 100 != 0 || y % 400 == 0) }

  function YearLength(y: int): int { if Leap(y) then 366 else 365 }

  /** Day number of the first day of a year; day 0 is 1 January 1970. */
  function YearStart(y: int): int {
    365 * (y - 1970) + (y - 1969) / 4 - (y - 1901) / 100 + (y - 1601) / 400
  }

  function MonthLength(y: int, m: int): int {
    if m == 1 then (if Leap(y) then 29 else 28)
    else if m == 3 || m == 5 || m == 8 || m == 10 then 30
    else 31
  }

  /** Days of the year before a month. */
  function MonthStart(y: int, m: int): int
    requires 0 <= m <= 12
  {
    [0, 31, 59, 90, 120, 151, 181, 212, 243, 273, 304, 334, 365][m] + if m >= 2 && Leap(y) then 1 else 0
  }

  predicate Valid(d: Ymd) {
    0 <= d.month < 12 && 1 <= d.date <= MonthLength(d.year, d.month)
  }

  /** The day of a date; a month outside 0..11 counts into the neighbouring years. */
  function MakeDay(y: int, m: int, date: int): int {
    YearStart(y + m / 12) + MonthStart(y + m / 12, m % 12) + date - 1
  }

  function DayOf(d: Ymd): int { MakeDay(d.year, d.month, d.date) }

  /** 0 is Sunday. */
  function WeekDay(day: int): int { (day + 4) % 7 }

  predicate Before(a: Ymd, b: Ymd) {
    a.year < b.year || (a.year == b.year && (a.month < b.month || (a.month == b.month && a.date < b.date)))
  }

  lemma Fours(y: int)
    ensures (y + 1 - 1969) / 4 == (y - 1969) / 4 + if y % 4 == 0 then 1 else 0
  {}

  lemma Centuries(y: int)
    ensures (y + 1 - 1901) / 100 == (y - 1901) / 100 + if y % 100 == 0 then 1 else 0
  {}

  lemma FourCenturies(y: int)
    ensures (y + 1 - 1601) / 400 == (y - 1601) / 400 + if y % 400 == 0 then 1 else 0
  {}

  lemma Multiples(y: int)
    ensures y % 400 == 0 ==> y % 100 == 0
    ensures y % 100 == 0 ==> y % 4 == 0
  {}

  lemma YearStep(y: int)
    ensures YearStart(y + 1) == YearStart(y) + YearLength(y)
  {
    Fours(y);
    Centuries(y);
    FourCenturies(y);
    Multiples(y);
  }

  lemma MonthStep(y: int, m: int)
    requires 0 <= m < 12
    ensures MonthStart(y, m + 1) == MonthStart(y, m) + MonthLength(y, m)
    ensures MonthStart(y, 0) == 0 && MonthStart(y, 12) == YearLength(y)
  {
    hide Leap;
  }

  lemma {:induction false} YearStartGrows(y: int, z: int)
    requires y < z
    ensures YearStart(y) + YearLength(y) <= YearStart(z)
    decreases z - y
  {
    hide YearStart;
    YearStep(z - 1);
    if y < z - 1 { YearStartGrows(y, z - 1); }
  }

  lemma {:induction false} MonthStartGrows(y: int, m: int, n: int)
    requires 0 <= m < n <= 12
    ensures MonthStart(y, m) + MonthLength(y, m) <= MonthStart(y, n)
    decreases n
  {
    hide MonthStart;
    MonthStep(y, n - 1);
    if m < n - 1 { MonthStartGrows(y, m, n - 1); }
  }

  /** Day numbers order valid dates as the calendar does; in particular no two share a number. */
  lemma DayOrder(a: Ymd, b: Ymd)
    requires Valid(a) && Valid(b)
    ensures Before(a, b) <==> DayOf(a) < DayOf(b)
    ensures DayOf(a) == DayOf(b) <==> a == b
  {
    if Before(a, b) {
      DayGrows(a, b);
    } else if Before(b, a) {
      DayGrows(b, a);
    }
  }

  lemma InYear(d: Ymd)
    requires Valid(d)
    ensures DayOf(d) == YearStart(d.year) + MonthStart(d.year, d.month) + d.date - 1
    ensures YearStart(d.year) <= DayOf(d) < YearStart(d.year) + YearLength(d.year)
  {
    hide YearStart, MonthStart, MonthLength, Leap;
    assert d.month / 12 == 0 && d.month % 12 == d.month;
    MonthStartGrows(d.year, d.month, 12);
    MonthStep(d.year, 0);
    MonthNonEmpty(d.year, 0);
    if d.month > 0 { MonthStartGrows(d.year, 0, d.month); }
  }

  lemma DayGrows(a: Ymd, b: Ymd)
    requires Valid(a) && Valid(b) && Before(a, b)
    ensures DayOf(a) < DayOf(b)
  {
    hide YearStart, MonthStart, MonthLength, Leap, MakeDay;
    InYear(a);
    InYear(b);
    if a.year < b.year {
      YearStartGrows(a.year, b.year);
    } else if a.month < b.month {
      MonthStartGrows(a.year, a.month, b.month);
    }
  }

  // ---------------------------------------------------------------- dates of day numbers

  /** The year that contains a day, searched from y. */
  function YearOf(day: int, y: int): (r: int)
    ensures YearStart(r) <= day < YearStart(r) + YearLength(r)
    decreases if day < YearStart(y) then YearStart(y) - day + 400 else day - YearStart(y)
  {
    hide YearStart;
    YearStep(y);
    YearStep(y - 1);
    if day < YearStart(y) then YearOf(day, y - 1)
    else if YearStart(y + 1) <= day then YearOf(day, y + 1)
    else y
  }

  /** The month that contains day `rest` of a year, searched down from m. */
  function MonthOf(y: int, rest: int, m: int): (r: int)
    requires 0 <= m < 12 && 0 <= rest < MonthStart(y, m + 1)
    ensures 0 <= r <= m && MonthStart(y, r) <= rest < MonthStart(y, r + 1)
    decreases m
  {
    hide MonthStart;
    MonthStep(y, 0);
    if MonthStart(y, m) <= rest then m else MonthOf(y, rest, m - 1)
  }

  /** The valid date of a day number. */
  function DateOf(day: int): (d: Ymd)
    ensures Valid(d) && DayOf(d) == day
  {
    hide YearStart, MonthStart, MonthLength, Leap;
    var y := YearOf(day, 1970);
    MonthStep(y, 0);
    var m := MonthOf(y, day - YearStart(y), 11);
    MonthStep(y, m);
    assert m / 12 == 0 && m % 12 == m;
    Ymd(y, m, day - YearStart(y) - MonthStart(y, m) + 1)
  }

  /** The day before the first of a month is the last of the month before. */
  lemma LastOfMonth(y: int, m: int)
    requires 0 <= m < 12
    ensures DateOf(MakeDay(y, m + 1, 1) - 1) == Ymd(y, m, MonthLength(y, m))
    ensures MakeDay(y, m + 1, 1) == MakeDay(y, m, 1) + MonthLength(y, m)
  {
    hide YearStart, MonthStart, MonthLength, Leap, MakeDay;
    NextMonthStart(y, m);
    MonthNonEmpty(y, m);
    var last := Ymd(y, m, MonthLength(y, m));
    SameMonth(y, m, MonthLength(y, m));
    DayOrder(DateOf(DayOf(last)), last);
  }

  lemma MonthNonEmpty(y: int, m: int)
    ensures 28 <= MonthLength(y, m) <= 31
  {}

  lemma SameMonth(y: int, m: int, date: int)
    ensures MakeDay(y, m, date) == MakeDay(y, m, 1) + date - 1
  {
    hide YearStart, MonthStart;
  }

  lemma NextMonthStart(y: int, m: int)
    requires 0 <= m < 12
    ensures MakeDay(y, m + 1, 1) == MakeDay(y, m, 1) + MonthLength(y, m)
  {
    hide YearStart, MonthStart, MonthLength, Leap;
    assert m / 12 == 0 && m % 12 == m;
    MonthStep(y, m);
    if m == 11 {
      YearStep(y);
      MonthStep(y + 1, 0);
    } else {
      assert (m + 1) / 12 == 0 && (m + 1) % 12 == m + 1;
    }
  }

  /** Days that everyone knows: the first day of the count, and the ends of February around two centuries. */
  lemma KnownDays()
    ensures DayOf(Ymd(1970, 0, 1)) == 0 && WeekDay(0) == 4
    ensures DayOf(Ymd(2000, 1, 29)) == 11016 && WeekDay(11016) == 2 && DayOf(Ymd(2000, 2, 1)) == 11017
    ensures DayOf(Ymd(1900, 2, 1)) == -25508 && WeekDay(-25508) == 4 && MonthLength(1900, 1) == 28
  {
    hide DayOf, YearStart;
    KnownYears();
    assert MonthStart(1970, 0) == 0 && MonthStart(2000, 1) == 31;
    assert MonthStart(2000, 2) == 60 && MonthStart(1900, 2) == 59;
    assert MonthLength(1900, 1) == 28 && MonthLength(2000, 1) == 29;
    hide MonthStart;
    InYear(Ymd(1970, 0, 1));
    InYear(Ymd(2000, 1, 29));
    InYear(Ymd(2000, 2, 1));
    InYear(Ymd(1900, 2, 1));
  }

  lemma KnownYears()
    ensures YearStart(1970) == 0 && YearStart(2000) == 10957 && YearStart(1900) == -25567
  {}
}
