/** Choosing a range of days by clicking its two ends, in either order. */
module RangePick {
  import opened Gregorian
  import opened Wrappers

  /** A time of day whose parts may be missing, as in a JavaScript record. */
  datatype Hms = Hms(hours: Option<int>, minutes: Option<int>, seconds: Option<int>)

  datatype Stamp = Stamp(day: Ymd, time: Hms)

  const MIDNIGHT := Hms(Some(0), Some(0), Some(0))

  function Or<T>(a: Option<T>, b: Option<T>): Option<T> { if a.Some? then a else b }

  /** `extend(t, u)`: the parts that u has win. */
  function Extend(t: Hms, u: Hms): Hms {
    Hms(Or(u.hours, t.hours), Or(u.minutes, t.minutes), Or(u.seconds, t.seconds))
  }

  /** Part by part: what the second time has wins, the first one only fills its gaps. */
  lemma ExtendWins(t: Hms, u: Hms)
    ensures Extend(t, u).hours == if u.hours.Some? then u.hours else t.hours
    ensures Extend(t, u).minutes == if u.minutes.Some? then u.minutes else t.minutes
    ensures Extend(t, u).seconds == if u.seconds.Some? then u.seconds else t.seconds
  {}

  /** The day the date constructor makes of a record: years below 100 count from 1900. */
  function Shifted(d: Ymd): Ymd {
    if 0 < d.year < 100 then d.(year := 1900 + d.year) else if d.year == 0 then d.(year := 1901) else d
  }

  function JsDay(d: Ymd): int { DayOf(Shifted(d)) }

  /** The date constructor orders the two clicked days as the calendar does. */
  predicate ShiftHarmless(first: Ymd, second: Ymd) {
    || (first.year < 100 <==> second.year < 100)
    || (if second.year < 100 then Before(Shifted(second), first) else !Before(second, Shifted(first)))
  }

  lemma ShiftedValid(d: Ymd)
    requires Valid(d) && 0 < d.year
    ensures Valid(Shifted(d))
  {}

  lemma JsOrder(first: Ymd, second: Ymd)
    requires Valid(first) && Valid(second) && 0 < first.year && 0 < second.year
    ensures (JsDay(second) < JsDay(first)) == Before(Shifted(second), Shifted(first))
    ensures ShiftHarmless(first, second) <==> (JsDay(second) < JsDay(first) <==> Before(second, first))
  {
    hide DayOf, MonthLength;
    ShiftedValid(first);
    ShiftedValid(second);
    DayOrder(Shifted(second), Shifted(first));
  }

  /**
   The page of January of year 100, the lowest one, begins on a Friday and shows 31 December 99 before
   it. Chosen together, the two end in the wrong order: the day of year 99 counts as one of 1999.
   */
  lemma LowestPageOutOfOrder()
    ensures var (shown, first) := (Ymd(99, 11, 31), Ymd(100, 0, 1));
            && WeekDay(DayOf(first)) == 5 && DayOf(shown) == DayOf(first) - 1
            && Before(shown, first) && JsDay(first) < JsDay(shown)
            && !ShiftHarmless(shown, first) && !ShiftHarmless(first, shown)
  {
    assert YearStart(100) == -683003 && YearStart(99) == -683368 && YearStart(1999) == 10592;
  }

  /** The two chosen days, and nothing else, in either order. */
  predicate Ends(s: Stamp, e: Stamp, a: Ymd, b: Ymd) {
    (s.day == a && e.day == b) || (s.day == b && e.day == a)
  }

  /**
   What a range text gives when the picker is opened again. An accepted text has been read into both
   ends; `start` and `end` are the ends after that, `startRead` and `endRead` the time parts that occur
   in the format.
   */
  datatype Reading =
    | Blank
    | Refused
    | Accepted(start: Stamp, end: Stamp, startRead: Hms, endRead: Hms)

  const NO_TIME := Hms(None, None, None)

  /** All fields of a picker. */
  datatype State = State(startState: bool, endState: bool, startDate: Option<Stamp>, endDate: Option<Stamp>,
                         startTime: Option<Hms>, endTime: Option<Hms>, startYMD: Ymd)

  /** The start has been chosen and its end is awaited. */
  predicate Awaits(s: State) { s.startState && !s.endState }

  ghost predicate ValidState(s: State) {
    Awaits(s) ==>
      s.startDate.Some? && s.startDate.value.day == s.startYMD && Gregorian.Valid(s.startYMD) && 0 < s.startYMD.year
  }

  /**
   What a click on an enabled day makes of a picker. A click that completes the range leaves the two chosen
   days, each end with its own time of day; any other click begins a range and keeps the times.
   */
  ghost predicate Clicked(s: State, ymd: Ymd, t: State)
    requires ValidState(s)
  {
    var start, end := s.startTime.GetOr(MIDNIGHT), s.endTime.GetOr(MIDNIGHT);
    && t.startState && t.startDate.Some? && t.startTime == Some(start) && t.endTime == Some(end)
    && if Awaits(s) then
         && t.endState && t.endDate.Some? && t.startYMD == s.startYMD
         && Ends(t.startDate.value, t.endDate.value, s.startYMD, ymd)
         && t.startDate.value.time == Extend(s.startDate.value.time, start)
         && t.endDate.value.time == Extend(if s.endDate.Some? then s.endDate.value.time else end, end)
         && (!Before(t.endDate.value.day, t.startDate.value.day) <==> ShiftHarmless(s.startYMD, ymd))
       else
         && !t.endState && t.startYMD == ymd == t.startDate.value.day
         && t.startDate.value.time == (if s.startDate.Some? then s.startDate.value.time else start)
         && t.endDate == if s.endState then None else s.endDate
  }

  class RangePicker {
    var startState: bool
    var endState: bool
    var startDate: Option<Stamp>
    var endDate: Option<Stamp>
    var startTime: Option<Hms>
    var endTime: Option<Hms>
    var startYMD: Ymd

    /** While the second end is awaited, the first one is recorded. */
    ghost predicate Valid()
      reads this
    {
      ValidState(Contents())
    }

    ghost function Contents(): State
      reads this
    {
      State(startState, endState, startDate, endDate, startTime, endTime, startYMD)
    }

    constructor ()
      ensures Valid() && !startState && !endState && startDate == endDate == None && startTime == endTime == None
    {
      startState, endState := false, false;
      startDate, endDate := None, None;
      startTime, endTime := None, None;
      startYMD := Ymd(1970, 0, 1);
    }

    /**
     Opening the picker again: a start that awaits its end is dropped. A refused text keeps both ends,
     an accepted one replaces them and its time parts, and no text clears all.
     */
    method Reopen(value: Reading)
      requires Valid()
      modifies this
      ensures Valid() && !(startState && !endState) && startYMD == old(startYMD)
      ensures value.Blank? ==> !startState && !endState && startDate == endDate == None && startTime == endTime == None
      ensures !value.Blank? ==> endState == old(startState || endState) && startState == old(startState && endState)
      ensures value.Refused? ==>
                && startDate == old(startDate) && endDate == old(endDate)
                && startTime == old(startTime) && endTime == old(endTime)
      ensures value.Accepted? ==>
                && startDate == Some(value.start) && endDate == Some(value.end)
                && startTime == Some(Extend(old(startTime).GetOr(NO_TIME), value.startRead))
                && endTime == Some(Extend(old(endTime).GetOr(NO_TIME), value.endRead))
    {
      if startState && !endState {
        startState := false;
        endState := true;
      }
      match value
      case Accepted(start, end, startRead, endRead) =>
        startDate, endDate := Some(start), Some(end);
        startTime := Some(Extend(startTime.GetOr(NO_TIME), startRead));
        endTime := Some(Extend(endTime.GetOr(NO_TIME), endRead));
      case Refused =>
      case Blank =>
        startState, endState := false, false;
        startDate, endDate := None, None;
        startTime, endTime := None, None;
    }

    method SetDateTime(ymd: Ymd)
      requires startTime.Some?
      modifies this`startDate, this`startYMD
      ensures startYMD == ymd
      ensures startDate == Some(Stamp(ymd, if old(startDate).Some? then old(startDate).value.time else startTime.value))
    {
      startDate := Some(Stamp(ymd, if startDate.Some? then startDate.value.time else startTime.value));
      startYMD := ymd;
    }

    /** The side effect of the callbacks: each end takes its own time of day. */
    method Done()
      requires startTime.Some? && endTime.Some? && startDate.Some? && endDate.Some?
      modifies this`startDate, this`endDate
      ensures startDate == Some(Stamp(old(startDate).value.day, Extend(old(startDate).value.time, startTime.value)))
      ensures endDate == Some(Stamp(old(endDate).value.day, Extend(old(endDate).value.time, endTime.value)))
    {
      startDate := Some(startDate.value.(time := Extend(startDate.value.time, startTime.value)));
      endDate := Some(endDate.value.(time := Extend(endDate.value.time, endTime.value)));
    }

    /** A click on a day. It completes the range when exactly the start has been chosen before. */
    method Choose(ymd: Ymd, disabled: bool)
      requires Valid() && Gregorian.Valid(ymd) && 0 < ymd.year
      modifies this
      ensures Valid()
      ensures if disabled then Contents() == old(Contents()) else Clicked(old(Contents()), ymd, Contents())
    {
      hide JsDay, ShiftHarmless, MonthLength;
      if disabled { return; }
      startTime := Some(startTime.GetOr(MIDNIGHT));
      endTime := Some(endTime.GetOr(MIDNIGHT));
      if endState {
        SetDateTime(ymd);
        endState := false;
        endDate := None;
        startState := true;
      } else if startState {
        endDate := Some(Stamp(ymd, if endDate.Some? then endDate.value.time else endTime.value));
        SwapIfBackwards(ymd);
        Done();
        endState := true;
      } else {
        SetDateTime(ymd);
        startState := true;
      }
    }

    /** The two days change places when the second click is before the first; the times stay. */
    method SwapIfBackwards(ymd: Ymd)
      requires startDate.Some? && endDate.Some? && startDate.value.day == startYMD && endDate.value.day == ymd
      requires Gregorian.Valid(startYMD) && 0 < startYMD.year && Gregorian.Valid(ymd) && 0 < ymd.year
      modifies this`startDate, this`endDate
      ensures startDate.Some? && endDate.Some?
      ensures startDate.value.time == old(startDate).value.time && endDate.value.time == old(endDate).value.time
      ensures Ends(startDate.value, endDate.value, startYMD, ymd)
      ensures !Before(endDate.value.day, startDate.value.day) <==> ShiftHarmless(startYMD, ymd)
    {
      hide JsDay, ShiftHarmless, MonthLength;
      JsOrder(startYMD, ymd);
      if JsDay(ymd) < JsDay(startYMD) {
        var start := Stamp(endDate.value.day, startDate.value.time);
        endDate := Some(Stamp(startDate.value.day, endDate.value.time));
        startDate := Some(start);
      }
    }
  }

  // ---------------------------------------------------------------- runs of clicks

  /** A day that is clicked, and whether it is disabled. */
  datatype Tap = Tap(day: Ymd, disabled: bool)

  predicate Clickable(taps: seq<Tap>) {
    forall i :: 0 <= i < |taps| ==> Gregorian.Valid(taps[i].day) && 0 < taps[i].day.year
  }

  /** The enabled days of a run, after the start that was already waiting for its end. */
  function Days(s: State, taps: seq<Tap>): seq<Ymd> {
    if taps == [] then (if Awaits(s) then [s.startYMD] else [])
    else
      var last := taps[|taps| - 1];
      Days(s, taps[..|taps| - 1]) + if last.disabled then [] else [last.day]
  }

  /** The time of day of the first start, and of the first end, of a run that begins in state s. */
  function FirstStartTime(s: State): Hms {
    if s.startDate.Some? then s.startDate.value.time else s.startTime.GetOr(MIDNIGHT)
  }

  function FirstEndTime(s: State): Hms {
    if s.endDate.Some? && !s.endState then s.endDate.value.time else s.endTime.GetOr(MIDNIGHT)
  }

  /**
   Where a run from state s has led to when its enabled days are `days`: an odd number awaits its end, an
   even one has completed. The end that is completed first may find a time left from before the run.
   */
  predicate Reached(s: State, days: seq<Ymd>, t: State) {
    var n := |days|;
    var start, end := s.startTime.GetOr(MIDNIGHT), s.endTime.GetOr(MIDNIGHT);
    if n == 0 || (n == 1 && Awaits(s)) then t == s
    else
      && t.startState && t.startTime == Some(start) && t.endTime == Some(end) && t.startDate.Some?
      && if n % 2 == 1 then
           && !t.endState && t.startYMD == days[n - 1] == t.startDate.value.day
           && t.startDate.value.time == (if n == 1 then FirstStartTime(s) else Extend(FirstStartTime(s), start))
           && t.endDate == (if n == 1 && !s.endState then s.endDate else None)
         else
           && t.endState && t.endDate.Some?
           && Ends(t.startDate.value, t.endDate.value, days[n - 2], days[n - 1])
           && t.startDate.value.time == Extend(FirstStartTime(s), start)
           && t.endDate.value.time == (if n == 2 then Extend(FirstEndTime(s), end) else end)
           && (!Before(t.endDate.value.day, t.startDate.value.day) <==> ShiftHarmless(days[n - 2], days[n - 1]))
  }

  /**
   A run of clicks from any state. Whenever it completes a range, the ends are exactly the last two enabled
   days, in order under the exact condition of the date constructor, and each with its own time of day.
   */
  method ChooseAll(picker: RangePicker, taps: seq<Tap>)
    requires picker.Valid() && Clickable(taps)
    modifies picker
    ensures picker.Valid() && Reached(old(picker.Contents()), Days(old(picker.Contents()), taps), picker.Contents())
  {
    hide ShiftHarmless, Before, MonthLength, Reached;
    ghost var s := picker.Contents();
    ReachedAtFirst(s);
    for i := 0 to |taps|
      invariant picker.Valid() && Reached(s, Days(s, taps[..i]), picker.Contents())
    {
      assert taps[..i + 1][..i] == taps[..i];
      assert Days(s, taps[..i]) + [] == Days(s, taps[..i]);
      ghost var before := picker.Contents();
      picker.Choose(taps[i].day, taps[i].disabled);
      if Awaits(s) { DaysBegin(s, taps[..i]); }
      if !taps[i].disabled { ReachedNext(s, Days(s, taps[..i]), before, taps[i].day, picker.Contents()); }
    }
    assert taps[..|taps|] == taps;
  }

  lemma ReachedAtFirst(s: State)
    ensures Reached(s, Days(s, []), s)
  {}

  /** One more enabled day. */
  lemma ReachedNext(s: State, days: seq<Ymd>, before: State, day: Ymd, after: State)
    requires ValidState(before) && Reached(s, days, before) && Clicked(before, day, after)
    requires Awaits(s) ==> days != [] && days[0] == s.startYMD
    ensures Reached(s, days + [day], after)
  {
    hide ShiftHarmless, Before;
    var more, n := days + [day], |days|;
    assert more[n] == day && (n > 0 ==> more[n - 1] == days[n - 1]);
  }

  lemma {:induction false} DaysBegin(s: State, taps: seq<Tap>)
    requires Awaits(s)
    ensures Days(s, taps) != [] && Days(s, taps)[0] == s.startYMD
    decreases |taps|
  {
    if taps != [] { DaysBegin(s, taps[..|taps| - 1]); }
  }

  /** The two days of the lowest page, chosen one after the other by a user. */
  method ChooseOutOfOrder() returns (start: Stamp, end: Stamp)
    ensures start.day == Ymd(100, 0, 1) && end.day == Ymd(99, 11, 31) && Before(end.day, start.day)
    ensures start.time == end.time == MIDNIGHT
  {
    LowestPageOutOfOrder();
    hide ShiftHarmless, Shifted, JsDay;
    assert Before(Ymd(99, 11, 31), Ymd(100, 0, 1)) && !Before(Ymd(100, 0, 1), Ymd(99, 11, 31));
    var picker := new RangePicker();
    picker.Choose(Ymd(99, 11, 31), false);
    picker.Choose(Ymd(100, 0, 1), false);
    start, end := picker.startDate.value, picker.endDate.value;
  }

  /**
   Every range that is completed in a run has the end time of the first one exactly when the chosen end time
   has all the parts that the time found by the first one has: the end of a range is forgotten when the next
   range begins, the start is not.
   */
  lemma EndTimeKeptIff(s: State)
    ensures (forall days, t :: |days| >= 2 && |days| % 2 == 0 && Reached(s, days, t) ==>
               t.endDate.Some? && t.endDate.value.time == Extend(FirstEndTime(s), s.endTime.GetOr(MIDNIGHT)))
            <==> Extend(FirstEndTime(s), s.endTime.GetOr(MIDNIGHT)) == s.endTime.GetOr(MIDNIGHT)
  {
    var start, end := s.startTime.GetOr(MIDNIGHT), s.endTime.GetOr(MIDNIGHT);
    var day := Ymd(2020, 0, 1);
    var days := [day, day, day, day];
    var t := State(true, true, Some(Stamp(day, Extend(FirstStartTime(s), start))), Some(Stamp(day, end)),
                   Some(start), Some(end), day);
    assert Reached(s, days, t);
  }

  /**
   With a value in a format without times the ends begin at midnight. The first range chosen keeps that for
   both, the second one has no time of day at its end.
   */
  method EndTimeLost(day: Ymd) returns (first: Hms, second: Hms)
    requires Gregorian.Valid(day) && 0 < day.year
    ensures first == MIDNIGHT && second == NO_TIME
  {
    var picker := new RangePicker();
    picker.Reopen(Accepted(Stamp(day, MIDNIGHT), Stamp(day, MIDNIGHT), NO_TIME, NO_TIME));
    picker.Choose(day, false);
    picker.Choose(day, false);
    first := picker.endDate.value.time;
    picker.Choose(day, false);
    picker.Choose(day, false);
    second := picker.endDate.value.time;
  }
}
