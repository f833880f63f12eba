/** The calendar page of the date picker: its 42 cells, and stepping by months and years. */
module Calendar {
  import opened Gregorian

  const MIN_YEAR := 100
  const MAX_YEAR := 200000

  /**
   The last day of a month (counted from 1): one day before the first of the following month.
   A zero month or year means the current one.
   */
  function GetEndDate(month: int, year: int, now: Ymd): int {
    DateOf(MakeDay(if year != 0 then year else now.year, if month != 0 then month else now.month + 1, 1) - 1).date
  }

  lemma EndDateIsMonthLength(month: int, year: int, now: Ymd)
    requires 0 <= month <= 12 && (month == 0 ==> 0 <= now.month < 12)
    ensures GetEndDate(month, year, now)
         == MonthLength(if year != 0 then year else now.year, if month != 0 then month - 1 else now.month)
  {
    hide DateOf, MakeDay, MonthLength;
    LastOfMonth(if year != 0 then year else now.year, if month != 0 then month - 1 else now.month);
  }

  /** One month back (`sub`) or forward. */
  function GetAsYM(y: int, m: int, sub: bool): (int, int) {
    var m1 := if sub then m - 1 else m + 1;
    var (y2, m2) := if m1 < 0 then (y - 1, 11) else (y, m1);
    if m2 > 11 then (y2 + 1, 0) else (y2, m2)
  }

  /** The two directions are inverse, and each moves by exactly one month length. */
  lemma GetAsYMInverse(y: int, m: int, sub: bool)
    requires 0 <= m < 12
    ensures var (y', m') := GetAsYM(y, m, sub);
            && 0 <= m' < 12 && GetAsYM(y', m', !sub) == (y, m)
            && MakeDay(y, m, 1) == MakeDay(y', m', 1) + (if sub then MonthLength(y', m') else -MonthLength(y, m))
  {
    hide MakeDay, MonthLength;
    var (y', m') := GetAsYM(y, m, sub);
    if sub {
      NextMonthStart(y', m');
      CarryMonth(y', m');
    } else {
      NextMonthStart(y, m);
      CarryMonth(y, m);
    }
  }

  lemma CarryMonth(y: int, m: int)
    requires 0 <= m < 12
    ensures var (y', m') := GetAsYM(y, m, false); MakeDay(y, m + 1, 1) == MakeDay(y', m', 1)
  {
    hide YearStart, MonthStart;
    if m == 11 {
      assert 12 / 12 == 1 && 12 % 12 == 0;
    }
  }

  // ---------------------------------------------------------------- the grid

  /** What a cell of the page has to show. */
  ghost predicate CellIs(cell: Ymd, y: int, m: int, index: int)
    requires 0 <= m < 12
  {
    var first := MakeDay(y, m, 1);
    && Valid(cell)
    && DayOf(cell) == first - WeekDay(first) + index
    && WeekDay(DayOf(cell)) == index % 7
  }

  lemma CellInMonth(y: int, m: int, date: int)
    requires 0 <= m < 12 && 1 <= date <= MonthLength(y, m)
    ensures Valid(Ymd(y, m, date)) && DayOf(Ymd(y, m, date)) == MakeDay(y, m, 1) + date - 1
  {
    SameMonth(y, m, date);
  }

  lemma WeekDayOfCell(first: int, index: int)
    ensures WeekDay(first - WeekDay(first) + index) == index % 7
  {
    assert first + 4 == 7 * ((first + 4) / 7) + (first + 4) % 7;
    assert first - WeekDay(first) + index + 4 == 7 * ((first + 4) / 7) + index;
  }

  /** The loop over the 42 cells. */
  method Cells(y: int, m: int, now: Ymd) returns (cells: seq<Ymd>)
    requires 0 <= m < 12 && MIN_YEAR <= y <= MAX_YEAR
    ensures |cells| == 42
    ensures forall i :: 0 <= i < 42 ==> CellIs(cells[i], y, m, i)
    ensures forall date :: 1 <= date <= MonthLength(y, m) ==>
              var at := WeekDay(MakeDay(y, m, 1)) + date - 1;
              0 <= at < 42 && cells[at] == Ymd(y, m, date)
              && forall i :: 0 <= i < 42 && cells[i] == Ymd(y, m, date) ==> i == at
  {
    hide MonthLength, DateOf, MakeDay, Valid;
    var startWeek := WeekDay(MakeDay(y, m, 1));
    var prevMaxDate := GetEndDate(if m != 0 then m else 12, y, now);
    var thisMaxDate := GetEndDate(m + 1, y, now);
    EndDateIsMonthLength(m + 1, y, now);
    EndDateIsMonthLength(if m != 0 then m else 12, y, now);
    MonthNonEmpty(y, m);
    PreviousLength(y, m);
    GetAsYMInverse(y, m, true);
    GetAsYMInverse(y, m, false);
    cells := [];
    for index := 0 to 42
      invariant |cells| == index
      invariant forall i :: 0 <= i < index ==> CellIs(cells[i], y, m, i)
      invariant forall i :: 0 <= i < index && startWeek <= i < startWeek + thisMaxDate ==>
                  cells[i] == Ymd(y, m, i - startWeek + 1)
    {
      var ym, st := (y, m), 0;
      if index < startWeek {
        st := prevMaxDate - startWeek + index;
        ym := GetAsYM(y, m, true);
      } else if index < thisMaxDate + startWeek {
        st := index - startWeek;
      } else {
        st := index - thisMaxDate - startWeek;
        ym := GetAsYM(y, m, false);
      }
      MonthNonEmpty(ym.0, ym.1);
      CellInMonth(ym.0, ym.1, st + 1);
      WeekDayOfCell(MakeDay(y, m, 1), index);
      cells := cells + [Ymd(ym.0, ym.1, st + 1)];
    }
    forall date | 1 <= date <= thisMaxDate
      ensures forall i :: 0 <= i < 42 && cells[i] == Ymd(y, m, date) ==> i == startWeek + date - 1
    {
      forall i | 0 <= i < 42 && cells[i] == Ymd(y, m, date) ensures i == startWeek + date - 1 {
        assert CellIs(cells[i], y, m, i);
        CellInMonth(y, m, date);
      }
    }
  }

  /** The December shown before a January is taken from the same year: its length is the same. */
  lemma PreviousLength(y: int, m: int)
    requires 0 <= m < 12
    ensures var (y', m') := GetAsYM(y, m, true);
            MonthLength(y, if m != 0 then m - 1 else 11) == MonthLength(y', m')
  {}

  // ---------------------------------------------------------------- stepping

  datatype DateTime = DateTime(year: int, month: int, date: int, hours: int, minutes: int, seconds: int)

  datatype Command = PrevYear | PrevMonth | NextMonth | NextYear

  predicate InRange(d: DateTime) {
    MIN_YEAR <= d.year <= MAX_YEAR && 0 <= d.month < 12 && 1 <= d.date <= MonthLength(d.year, d.month)
  }

  predicate TimeInRange(d: DateTime) {
    0 <= d.hours < 24 && 0 <= d.minutes < 60 && 0 <= d.seconds < 60
  }

  function Clamp(lo: int, x: int, hi: int): int {
    if x < lo then lo else if x > hi then hi else x
  }

  /** Where a command leads: the year kept within its limits, the day within the length of the month. */
  function Stepped(d: DateTime, c: Command): DateTime {
    var (y, m) := match c
      case PrevYear => (d.year - 1, d.month)
      case NextYear => (d.year + 1, d.month)
      case PrevMonth => GetAsYM(d.year, d.month, true)
      case NextMonth => GetAsYM(d.year, d.month, false);
    var y' := Clamp(MIN_YEAR, y, MAX_YEAR);
    d.(year := y', month := m, date := Clamp(1, d.date, MonthLength(y', m)))
  }

  /** What the clamps of `checkValid` leave of a date-time, all at once. */
  function Checked(d: DateTime, now: Ymd): DateTime {
    var year := if d.year > MAX_YEAR then MAX_YEAR else d.year;
    var month := if d.month > 11 then 11 else d.month;
    var hours := (if d.hours > 23 then 0 else d.hours) + if d.minutes > 59 then 1 else 0;
    var minutes := (if d.minutes > 59 then 0 else d.minutes) + if d.seconds > 59 then 1 else 0;
    var seconds := if d.seconds > 59 then 0 else d.seconds;
    var last := GetEndDate(month + 1, year, now);
    DateTime(year, month, if d.date > last then last else d.date, hours, minutes, seconds)
  }

  class Picker {
    var dateTime: DateTime
    const now: Ymd

    constructor (d: DateTime, now: Ymd)
      ensures dateTime == d && this.now == now
    {
      this.dateTime := d;
      this.now := now;
    }

    /** The clamps of `checkValid`, one after the other. */
    method CheckValid()
      modifies this
      ensures dateTime == Checked(old(dateTime), now)
    {
      hide GetEndDate;
      if dateTime.year > MAX_YEAR { dateTime := dateTime.(year := MAX_YEAR); }
      if dateTime.month > 11 { dateTime := dateTime.(month := 11); }
      if dateTime.hours > 23 { dateTime := dateTime.(hours := 0); }
      if dateTime.minutes > 59 { dateTime := dateTime.(minutes := 0, hours := dateTime.hours + 1); }
      if dateTime.seconds > 59 { dateTime := dateTime.(seconds := 0, minutes := dateTime.minutes + 1); }
      var thisMaxDate := GetEndDate(dateTime.month + 1, dateTime.year, now);
      if dateTime.date > thisMaxDate { dateTime := dateTime.(date := thisMaxDate); }
    }

    /** The clamps the page applies when it is drawn. */
    method ClampPage()
      modifies this
      ensures dateTime == old(dateTime).(year := Clamp(MIN_YEAR, old(dateTime).year, MAX_YEAR))
    {
      if dateTime.year < MIN_YEAR { dateTime := dateTime.(year := MIN_YEAR); }
      if dateTime.year > MAX_YEAR { dateTime := dateTime.(year := MAX_YEAR); }
    }

    method Change(c: Command)
      requires InRange(dateTime) && TimeInRange(dateTime)
      modifies this
      ensures dateTime == Stepped(old(dateTime), c)
      ensures InRange(dateTime) && TimeInRange(dateTime)
    {
      hide GetEndDate;
      match c {
        case PrevYear => dateTime := dateTime.(year := dateTime.year - 1);
        case NextYear => dateTime := dateTime.(year := dateTime.year + 1);
        case PrevMonth =>
          var ym := GetAsYM(dateTime.year, dateTime.month, true);
          dateTime := dateTime.(year := ym.0, month := ym.1);
        case NextMonth =>
          var ym := GetAsYM(dateTime.year, dateTime.month, false);
          dateTime := dateTime.(year := ym.0, month := ym.1);
      }
      var year := if dateTime.year > MAX_YEAR then MAX_YEAR else dateTime.year;
      EndDateIsMonthLength(dateTime.month + 1, year, now);
      SteppedInRange(old(dateTime), c);
      LowestYears(dateTime.month);
      CheckValid();
      ClampPage();
    }
  }

  /** The year below the lowest has months of the same lengths, so clamping the day first does no harm. */
  lemma LowestYears(m: int)
    ensures MonthLength(MIN_YEAR - 1, m) == MonthLength(MIN_YEAR, m)
  {}

  lemma SteppedInRange(d: DateTime, c: Command)
    requires InRange(d)
    ensures InRange(Stepped(d, c))
  {
    MonthNonEmpty(Stepped(d, c).year, Stepped(d, c).month);
  }

  /**
   Where a step leads, field by field. A year step moves one year in its direction unless the year is the last
   or the first, and keeps the month; a month step goes to the neighbouring month. The day is kept unless the
   new month is shorter; then it is its last one.
   */
  lemma StepMeans(d: DateTime, c: Command)
    requires InRange(d)
    ensures var e := Stepped(d, c);
            && e.date == (if d.date <= MonthLength(e.year, e.month) then d.date else MonthLength(e.year, e.month))
            && e.hours == d.hours && e.minutes == d.minutes && e.seconds == d.seconds
            && match c
               case NextYear => e.month == d.month && e.year == if d.year < MAX_YEAR then d.year + 1 else d.year
               case PrevYear => e.month == d.month && e.year == if d.year > MIN_YEAR then d.year - 1 else d.year
               case NextMonth =>
                 if d.month < 11 then e.month == d.month + 1 && e.year == d.year
                 else e.month == 0 && e.year == if d.year < MAX_YEAR then d.year + 1 else d.year
               case PrevMonth =>
                 if d.month > 0 then e.month == d.month - 1 && e.year == d.year
                 else e.month == 11 && e.year == if d.year > MIN_YEAR then d.year - 1 else d.year
  {
    hide MonthLength;
    MonthNonEmpty(Stepped(d, c).year, Stepped(d, c).month);
  }

  function RunOf(d: DateTime, run: seq<Command>): DateTime {
    if run == [] then d else Stepped(RunOf(d, run[..|run| - 1]), run[|run| - 1])
  }

  /** Every run of steps stays within the limits and on a day its month has, and leaves the time alone. */
  lemma {:induction false} RunInRange(d: DateTime, run: seq<Command>)
    requires InRange(d)
    ensures InRange(RunOf(d, run))
    ensures RunOf(d, run).hours == d.hours && RunOf(d, run).minutes == d.minutes && RunOf(d, run).seconds == d.seconds
    decreases |run|
  {
    if run != [] {
      RunInRange(d, run[..|run| - 1]);
      SteppedInRange(RunOf(d, run[..|run| - 1]), run[|run| - 1]);
    }
  }

  /** A step forward by a month really goes forward, except from the very last month. */
  lemma NextMonthGoesForward(d: DateTime)
    requires InRange(d)
    ensures var e := Stepped(d, NextMonth);
            MakeDay(e.year, e.month, 1) == MakeDay(d.year, d.month, 1) + MonthLength(d.year, d.month)
            <==> !(d.year == MAX_YEAR && d.month == 11)
  {
    hide MakeDay;
    var e := Stepped(d, NextMonth);
    GetAsYMInverse(d.year, d.month, false);
    if d.year == MAX_YEAR && d.month == 11 {
      assert e.year == MAX_YEAR && e.month == 0;
      FirstBeforeLast(MAX_YEAR);
    }
  }

  /** A step back by a month really goes back, except from the very first month. */
  lemma PrevMonthGoesBack(d: DateTime)
    requires InRange(d)
    ensures var e := Stepped(d, PrevMonth);
            MakeDay(d.year, d.month, 1) == MakeDay(e.year, e.month, 1) + MonthLength(e.year, e.month)
            <==> !(d.year == MIN_YEAR && d.month == 0)
  {
    hide MakeDay;
    var e := Stepped(d, PrevMonth);
    GetAsYMInverse(d.year, d.month, true);
    if d.year == MIN_YEAR && d.month == 0 {
      assert e.year == MIN_YEAR && e.month == 11;
      FirstBeforeLast(MIN_YEAR);
    }
  }

  /** At both ends of the years a step by a month lands on the wrong side of the same year. */
  lemma EndsWrapAround()
    ensures Stepped(DateTime(200000, 11, 31, 0, 0, 0), NextMonth) == DateTime(200000, 0, 31, 0, 0, 0)
    ensures Stepped(DateTime(100, 0, 31, 0, 0, 0), PrevMonth) == DateTime(100, 11, 31, 0, 0, 0)
  {}

  lemma FirstBeforeLast(y: int)
    ensures MakeDay(y, 0, 1) < MakeDay(y, 11, 1)
  {
    DayOrder(Ymd(y, 0, 1), Ymd(y, 11, 1));
  }

  /**
   What the clamps leave, field by field: the highest year and the last month for more, the last day of the month
   for a later one, and 0 for a part of the time that is too large, which is carried into the next larger part,
   except for the hours.
   */
  lemma CheckedMeans(d: DateTime, now: Ymd)
    requires MIN_YEAR <= d.year && 0 <= d.month && 1 <= d.date
    ensures var r := Checked(d, now);
            && r.year == (if d.year <= MAX_YEAR then d.year else MAX_YEAR)
            && r.month == (if d.month <= 11 then d.month else 11)
            && r.date == (if d.date <= MonthLength(r.year, r.month) then d.date else MonthLength(r.year, r.month))
            && (d.seconds <= 59 ==> r.seconds == d.seconds) && (d.seconds > 59 ==> r.seconds == 0)
            && (d.minutes <= 59 && d.seconds <= 59 ==> r.minutes == d.minutes)
            && (d.minutes <= 59 && d.seconds > 59 ==> r.minutes == d.minutes + 1)
            && (d.minutes > 59 ==> r.minutes == if d.seconds > 59 then 1 else 0)
            && (d.hours <= 23 ==> r.hours == if d.minutes > 59 then d.hours + 1 else d.hours)
            && (d.hours > 23 ==> r.hours == if d.minutes > 59 then 1 else 0)
  {
    hide DateOf, MonthLength;
    var year := if d.year > MAX_YEAR then MAX_YEAR else d.year;
    var month := if d.month > 11 then 11 else d.month;
    EndDateIsMonthLength(month + 1, year, now);
    hide GetEndDate;
  }

  /** The time of day after the clamps is a time exactly when no carry runs into a full unit. */
  lemma CheckedTimeIff(d: DateTime, now: Ymd)
    requires 0 <= d.hours && 0 <= d.minutes && 0 <= d.seconds
    ensures TimeInRange(Checked(d, now)) <==>
            !(d.hours == 23 && d.minutes > 59) && !(d.minutes == 59 && d.seconds > 59)
  {
    hide GetEndDate;
  }

  /** Two passes of the clamps mend every time of day but one. */
  lemma CheckedTwiceIff(d: DateTime, now: Ymd)
    requires 0 <= d.hours && 0 <= d.minutes && 0 <= d.seconds
    ensures TimeInRange(Checked(Checked(d, now), now)) <==> !(d.hours == 23 && d.minutes == 59 && d.seconds > 59)
  {
    hide GetEndDate;
  }

  lemma CheckedTwice(d: DateTime, now: Ymd)
    requires d.hours == 23 && d.minutes == 59 && d.seconds > 59
    ensures var e := Checked(Checked(d, now), now); (e.hours, e.minutes, e.seconds) == (24, 0, 0)
  {
    hide GetEndDate;
  }

  /** The day after the clamps exists in its month, whatever day and month were asked for. */
  lemma CheckedDate(d: DateTime, now: Ymd)
    requires MIN_YEAR <= d.year && 0 <= d.month && 1 <= d.date
    ensures InRange(Checked(d, now))
  {
    hide DateOf;
    var year := if d.year > MAX_YEAR then MAX_YEAR else d.year;
    var month := if d.month > 11 then 11 else d.month;
    EndDateIsMonthLength(month + 1, year, now);
    MonthNonEmpty(year, month);
  }
}
