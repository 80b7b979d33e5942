/**
 * Properties of the interpreter: what each direction of `shift_to_weekday`
 * means in terms of weeks, how a time of day is read, how the composites
 * combine their steps, and the resolutions the repository's own tests
 * expect, stated on the trees the grammar produces for those inputs.
 */
module DateParserProperties {
  import opened Wrappers
  import opened Numbers
  import opened Calendar
  import opened NaturalDateParser
  import opened DateParser

  // ---------------------------------------------------------------------------
  // Parse trees of the accepted expression forms
  // ---------------------------------------------------------------------------

  /** A node without children. */
  function Leaf(rule: Rule): Pair {
    Pair(rule, "", [])
  }

  /** A node whose text is the decimal numeral of `n`. */
  function Numeral(rule: Rule, n: nat): Pair {
    Pair(rule, DecimalText(n), [])
  }

  /** `<hour>[:<minute>] [am|pm]`; `isPm` is absent when no suffix is written. */
  function TimeNode(hour: nat, minute: Option<nat>, isPm: Option<bool>): Pair {
    Pair(SpecificTime, "", [Numeral(Hour, hour)] + MinutePart(minute) + SuffixPart(isPm))
  }

  /** The `:<minute>` part of a time, when written. */
  function MinutePart(minute: Option<nat>): seq<Pair> {
    if minute.Some? then [Numeral(Minute, minute.value)] else []
  }

  /** The `am` or `pm` part of a time, when written. */
  function SuffixPart(isPm: Option<bool>): seq<Pair> {
    if isPm.Some? then [Pair(AmPm, "", [Leaf(if isPm.value then Pm else Am)])] else []
  }

  /** `in <n> <unit>`. */
  function FutureNode(n: nat, unit: Rule): Pair {
    Pair(FutureTime, "", [Numeral(Number, n), Leaf(unit)])
  }

  /** `today`, `tomorrow` or `yesterday`. */
  function TermNode(term: Rule): Pair {
    Pair(RelativeTerm, "", [Leaf(term)])
  }

  /** A weekday name on its own. */
  function DayNode(w: Weekday): Pair {
    Pair(SpecificDay, "", [Leaf(WeekdayRule(w))])
  }

  /** `next <weekday>`, `last <weekday>` or `this <weekday>`. */
  function RelativeDateNode(direction: Rule, w: Weekday): Pair {
    Pair(RelativeDate, "", [Pair(NextOrLast, "", [Leaf(direction)]), DayNode(w)])
  }

  /** `<weekday> at <time>`. */
  function DayAndTimeNode(w: Weekday, time: Pair): Pair {
    Pair(SpecificDayAndTime, "", [DayNode(w), time])
  }

  /** The `date_expression` node around the single expression `child`. */
  function ExpressionNode(child: Pair): Pair {
    Pair(DateExpression, "", [child, Leaf(EOI)])
  }

  /** What the structural parser returns for an input holding the single expression `child`. */
  function Expression(child: Pair): ParseOutcome {
    Parsed([ExpressionNode(child)])
  }

  // ---------------------------------------------------------------------------
  // shift_to_weekday
  // ---------------------------------------------------------------------------

  /**
   * `next` lands in the following week (Sunday to Saturday), or for a Sunday
   * on the one after it: 1 to 13 days ahead, 8 to 14 for a Sunday.
   */
  lemma ShiftNext(now: DateTime, target: Weekday)
    ensures ShiftToWeekday(now, target, Next).Ok?
    ensures var r := ShiftToWeekday(now, target, Next).value;
      && (target == Sun ==> 8 <= r.day - now.day <= 14 && WeekOf(r) == WeekOf(now) + 2)
      && (target != Sun ==> 1 <= r.day - now.day <= 13 && WeekOf(r) == WeekOf(now) + 1)
  {
    WeekDecomposition(now);
    var r := ShiftToWeekday(now, target, Next).value;
    if target == Sun {
      assert r.day + 4 == 7 * (WeekOf(now) + 2);
    } else {
      assert r.day + 4 == 7 * (WeekOf(now) + 1) + NumDaysFromSunday(target);
    }
  }

  /**
   * `this` is the first day from `now` on, `now` included, that has the
   * target weekday.
   */
  lemma ShiftThis(now: DateTime, target: Weekday)
    ensures ShiftToWeekday(now, target, This).Ok?
    ensures var r := ShiftToWeekday(now, target, This).value;
      && 0 <= r.day - now.day <= 6
      && (forall k :: now.day <= k < r.day ==> WeekdayOf(DateTime(k, now.second)) != target)
      && (target == WeekdayOf(now) ==> r == now)
  {
    var r := ShiftToWeekday(now, target, This).value;
    var c := NumDaysFromSunday(WeekdayOf(now));
    var t := NumDaysFromSunday(target);
    forall k | now.day <= k < r.day
      ensures WeekdayOf(DateTime(k, now.second)) != target
    {
      var j := k - now.day;
      assert (k + 4) % 7 == (c + j) % 7;
      if c + j < 7 {
        assert (c + j) % 7 == c + j;
      } else {
        assert (c + j) % 7 == c + j - 7;
      }
    }
  }

  /**
   * `last` is accepted for a Sunday, which gives the Sunday that starts the
   * week of `now`, and for a weekday no earlier in the week than `now`, which
   * gives that weekday of the previous week.
   */
  lemma ShiftLast(now: DateTime, target: Weekday)
    ensures var r := ShiftToWeekday(now, target, Last);
      && (r.Ok? <==> target == Sun || NumDaysFromSunday(target) >= NumDaysFromSunday(WeekdayOf(now)))
      && (r.Ok? && target == Sun ==> WeekOf(r.value) == WeekOf(now) && -6 <= r.value.day - now.day <= 0)
      && (r.Ok? && target != Sun ==> WeekOf(r.value) == WeekOf(now) - 1 && -7 <= r.value.day - now.day <= -1)
  {
    WeekDecomposition(now);
    var r := ShiftToWeekday(now, target, Last);
    if r.Ok? {
      if target == Sun {
        assert r.value.day + 4 == 7 * WeekOf(now);
      } else {
        assert r.value.day + 4 == 7 * (WeekOf(now) - 1) + NumDaysFromSunday(target);
      }
    }
  }

  /**
   * The guard of `shift_to_weekday` rejects `last` for a weekday earlier in
   * the week than `now`: on a Tuesday, "last monday" has offset -8.
   */
  lemma ShiftLastRejectsEarlierWeekday(now: DateTime)
    requires WeekdayOf(now) == Tue
    ensures DaysDifference(NumDaysFromSunday(WeekdayOf(now)), NumDaysFromSunday(Mon), Last) == -8
    ensures ShiftToWeekday(now, Mon, Last) == Err(ExpectedLastThisOrNext(Last))
  {
  }

  /** `last` with the weekday of `now` goes back a week, except on a Sunday, where it stays. */
  lemma ShiftLastSameWeekday(now: DateTime)
    ensures ShiftToWeekday(now, WeekdayOf(now), Last)
            == Ok(DateTime(now.day - (if WeekdayOf(now) == Sun then 0 else 7), now.second))
  {
    NumDaysFromSundayInjective(WeekdayOf(now), Sun);
  }

  /** On Monday 2024-11-11 at noon, "next friday" is 2024-11-22 and "next monday" 2024-11-18. */
  lemma ShiftNextSamples()
    ensures ShiftToWeekday(At(Date(2024, 11, 11), 12, 0, 0), Fri, Next) == Ok(At(Date(2024, 11, 22), 12, 0, 0))
    ensures ShiftToWeekday(At(Date(2024, 11, 11), 12, 0, 0), Mon, Next) == Ok(At(Date(2024, 11, 18), 12, 0, 0))
  {
    var now := At(Date(2024, 11, 11), 12, 0, 0);
    assert now.day == 20038;
    assert NumDaysFromSunday(WeekdayOf(now)) == 1;
    assert DayNumber(Date(2024, 11, 22)) == 20049;
    assert DayNumber(Date(2024, 11, 18)) == 20045;
  }

  // ---------------------------------------------------------------------------
  // Times of day
  // ---------------------------------------------------------------------------

  /**
   * For an hour from 1 to 12, the 24-hour reading is the same hour of the
   * 12-hour clock, in the afternoon half exactly when PM is written.
   */
  lemma To24HourReadsTwelveHourClock(hour: nat, isPm: bool)
    requires 1 <= hour <= 12
    ensures To24Hour(hour, isPm) < 24
    ensures To24Hour(hour, isPm) % 12 == hour % 12
    ensures To24Hour(hour, isPm) >= 12 <==> isPm
  {
  }

  /** An hour already past noon is kept, and the reading never leaves the day. */
  lemma To24HourKeepsAfternoonHours(hour: nat, isPm: bool)
    ensures 13 <= hour ==> To24Hour(hour, isPm) == hour
    ensures hour <= 23 ==> To24Hour(hour, isPm) <= 23
  {
  }

  /** The hour step of a time: the hour is parsed, checked against 23 and stored. */
  lemma HourStep(hour: nat, clock: Clock)
    ensures TimeStep(Numeral(Hour, hour), clock)
            == if hour > U32Max then Err(FailedToParseHour)
               else if hour > 23 then Err(InvalidHour(hour))
               else Ok(clock.(hour := hour))
  {
    ParseU32OfDecimal(hour);
  }

  /** The minute step of a time: the minute is parsed and stored, whatever its value. */
  lemma MinuteStep(minute: nat, clock: Clock)
    ensures TimeStep(Numeral(Minute, minute), clock)
            == if minute > U32Max then Err(FailedToParseMinute) else Ok(clock.(minute := minute))
  {
    ParseU32OfDecimal(minute);
  }

  /** Reading a clock starts with the first child. */
  lemma ReadClockCons(child: Pair, rest: seq<Pair>, clock: Clock)
    requires clock.hour <= 23
    ensures var step := TimeStep(child, clock);
      ReadClock([child] + rest, clock) == if step.Ok? then ReadClock(rest, step.value) else Err(step.error)
  {
    assert ([child] + rest)[1..] == rest;
  }

  /** The suffix of a time sets the half of the day, and its absence keeps AM. */
  lemma ReadSuffix(isPm: Option<bool>, clock: Clock)
    requires clock.hour <= 23 && !clock.isPm
    ensures ReadClock(SuffixPart(isPm), clock) == Ok(clock.(isPm := isPm.Some? && isPm.value))
  {
    if isPm.Some? {
      ReadClockCons(SuffixPart(isPm)[0], [], clock);
      assert SuffixPart(isPm) == [SuffixPart(isPm)[0]] + [];
    }
  }

  /** The clock read from the children of a `TimeNode`. */
  lemma ReadClockOfTimeNode(hour: nat, minute: Option<nat>, isPm: Option<bool>)
    ensures var m := if minute.Some? then minute.value else 0;
      ReadClock(TimeNode(hour, minute, isPm).inner, Clock(0, 0, false))
      == if hour > U32Max then Err(FailedToParseHour)
         else if hour > 23 then Err(InvalidHour(hour))
         else if m > U32Max then Err(FailedToParseMinute)
         else Ok(Clock(hour, m, isPm.Some? && isPm.value))
  {
    var start := Clock(0, 0, false);
    var suffix := SuffixPart(isPm);
    assert TimeNode(hour, minute, isPm).inner == [Numeral(Hour, hour)] + (MinutePart(minute) + suffix);
    ReadClockCons(Numeral(Hour, hour), MinutePart(minute) + suffix, start);
    HourStep(hour, start);
    if hour <= 23 {
      var afterHour := start.(hour := hour);
      if minute.Some? {
        assert MinutePart(minute) + suffix == [Numeral(Minute, minute.value)] + suffix;
        ReadClockCons(Numeral(Minute, minute.value), suffix, afterHour);
        MinuteStep(minute.value, afterHour);
        if minute.value <= U32Max {
          ReadSuffix(isPm, afterHour.(minute := minute.value));
        }
      } else {
        assert MinutePart(minute) + suffix == suffix;
        ReadSuffix(isPm, afterHour);
      }
    }
  }

  /** A time is set from the clock read off its children, or fails with the reader's error. */
  lemma SpecificTimeOfClock(pair: Pair, datetime: DateTime)
    ensures var clock := ReadClock(pair.inner, Clock(0, 0, false));
      ResolveSpecificTime(pair, datetime)
      == if clock.Ok? then ChangeTime(datetime, To24Hour(clock.value.hour, clock.value.isPm), clock.value.minute)
         else Err(clock.error)
  {
  }

  /** An hour above 23 is rejected, before any minute or suffix is looked at. */
  lemma SpecificTimeRejectsHour(hour: nat, minute: Option<nat>, isPm: Option<bool>, datetime: DateTime)
    requires hour > 23
    ensures ResolveSpecificTime(TimeNode(hour, minute, isPm), datetime)
            == if hour > U32Max then Err(FailedToParseHour) else Err(InvalidHour(hour))
  {
    ReadClockOfTimeNode(hour, minute, isPm);
    SpecificTimeOfClock(TimeNode(hour, minute, isPm), datetime);
  }

  /** With an hour of the day, an unparsable minute fails, a minute from 60 on fails in `change_time`, and any other is set. */
  lemma SpecificTimeOfMinute(hour: nat, minute: Option<nat>, isPm: Option<bool>, datetime: DateTime)
    requires hour <= 23
    ensures var r := ResolveSpecificTime(TimeNode(hour, minute, isPm), datetime);
      var m := if minute.Some? then minute.value else 0;
      && (m > U32Max ==> r == Err(FailedToParseMinute))
      && (60 <= m <= U32Max ==> r == Err(InvalidDateOrTimeComponents))
      && (m < 60 ==> r == Ok(DateTime(datetime.day, TimeOfDay(To24Hour(hour, isPm.Some? && isPm.value), m))))
  {
    var m := if minute.Some? then minute.value else 0;
    var pm := isPm.Some? && isPm.value;
    ReadClockOfTimeNode(hour, minute, isPm);
    SpecificTimeOfClock(TimeNode(hour, minute, isPm), datetime);
    To24HourKeepsAfternoonHours(hour, pm);
  }

  /**
   * A time of day: a missing minute reads as 0 and a missing suffix as AM; an
   * hour above 23 is rejected before it is normalised, and a minute from 60 on
   * is rejected when the time is set.
   */
  lemma SpecificTimeOfNode(hour: nat, minute: Option<nat>, isPm: Option<bool>, datetime: DateTime)
    ensures var r := ResolveSpecificTime(TimeNode(hour, minute, isPm), datetime);
      var m := if minute.Some? then minute.value else 0;
      && (hour > U32Max ==> r == Err(FailedToParseHour))
      && (23 < hour <= U32Max ==> r == Err(InvalidHour(hour)))
      && (hour <= 23 && m > U32Max ==> r == Err(FailedToParseMinute))
      && (hour <= 23 && 60 <= m <= U32Max ==> r == Err(InvalidDateOrTimeComponents))
      && (hour <= 23 && m < 60 ==>
            r == Ok(DateTime(datetime.day, TimeOfDay(To24Hour(hour, isPm.Some? && isPm.value), m))))
  {
    if hour > 23 {
      SpecificTimeRejectsHour(hour, minute, isPm, datetime);
    } else {
      SpecificTimeOfMinute(hour, minute, isPm, datetime);
    }
  }


  /** 9:45 AM is 09:45 on the same day. */
  lemma NineFortyFiveAm(datetime: DateTime)
    ensures var r := ResolveSpecificTime(TimeNode(9, Some(45), Some(false)), datetime);
      r.Ok? && r.value == DateTime(datetime.day, TimeOfDay(9, 45))
  {
    ReadClockOfTimeNode(9, Some(45), Some(false));
  }

  /** 5:30 PM is 17:30 on the same day. */
  lemma FiveThirtyPm(datetime: DateTime)
    ensures var r := ResolveSpecificTime(TimeNode(5, Some(30), Some(true)), datetime);
      r.Ok? && r.value == DateTime(datetime.day, TimeOfDay(17, 30))
  {
    ReadClockOfTimeNode(5, Some(30), Some(true));
  }

  /** 12:00 AM is midnight at the start of the same day. */
  lemma MidnightAm(datetime: DateTime)
    ensures var r := ResolveSpecificTime(TimeNode(12, Some(0), Some(false)), datetime);
      r.Ok? && r.value == DateTime(datetime.day, TimeOfDay(0, 0))
  {
    ReadClockOfTimeNode(12, Some(0), Some(false));
  }

  /** 12:00 PM is noon on the same day. */
  lemma NoonPm(datetime: DateTime)
    ensures var r := ResolveSpecificTime(TimeNode(12, Some(0), Some(true)), datetime);
      r.Ok? && r.value == DateTime(datetime.day, TimeOfDay(12, 0))
  {
    ReadClockOfTimeNode(12, Some(0), Some(true));
  }

  // ---------------------------------------------------------------------------
  // Durations
  // ---------------------------------------------------------------------------

  /** The numeral of a count is not changed by trimming and reads back as the count. */
  lemma NumeralReadsAsDuration(n: nat)
    ensures Trim(DecimalText(n)) == DecimalText(n)
    ensures ParseI32(Trim(DecimalText(n))) == if n <= I32Max then Some(n) else None
  {
    var s := DecimalText(n);
    assert Trim(s) == s by {
      assert IsDigit(s[0]) && IsDigit(s[|s| - 1]);
    }
    ParseI32OfDecimal(n);
  }

  /** Reading an amount starts with the first child. */
  lemma ReadAmountCons(child: Pair, rest: seq<Pair>, amount: Amount)
    requires ValidAmount(amount)
    ensures var step := AmountStep(child, amount);
      ReadAmount([child] + rest, amount) == if step.Ok? then ReadAmount(rest, step.value) else Err(step.error)
  {
    assert ([child] + rest)[1..] == rest;
  }

  /** The number step of a duration: the count is stored when it fits in an `i32`. */
  lemma NumberStep(n: nat, amount: Amount)
    ensures AmountStep(Numeral(Number, n), amount)
            == if n <= I32Max then Ok(amount.(duration := n)) else Err(InvalidDurationValue)
  {
    NumeralReadsAsDuration(n);
  }

  /** `in <n> <unit>` adds `n` units, when `n` fits in an `i32`. */
  lemma FutureTimeOfNode(n: nat, unit: Rule, datetime: DateTime, shift: MonthShift)
    requires IsUnitRule(unit)
    ensures ResolveFutureTime(FutureNode(n, unit), datetime, shift)
            == if n <= I32Max then AddUnits(datetime, n, unit, shift) else Err(InvalidDurationValue)
  {
    ReadAmountOfFutureNode(n, unit);
    FutureTimeOfAmount(FutureNode(n, unit), datetime, shift);
  }

  /** The amount read off the children of `in <n> <unit>`. */
  lemma ReadAmountOfFutureNode(n: nat, unit: Rule)
    requires IsUnitRule(unit)
    ensures ReadAmount(FutureNode(n, unit).inner, Amount(0, None))
            == if n <= I32Max then Ok(Amount(n, Some(unit))) else Err(InvalidDurationValue)
  {
    var start := Amount(0, None);
    assert FutureNode(n, unit).inner == [Numeral(Number, n)] + [Leaf(unit)];
    ReadAmountCons(Numeral(Number, n), [Leaf(unit)], start);
    NumberStep(n, start);
    if n <= I32Max {
      ReadAmountCons(Leaf(unit), [], start.(duration := n));
    }
  }

  /** A duration adds the amount read off its children, or fails with the reader's error or for want of a unit. */
  lemma FutureTimeOfAmount(pair: Pair, datetime: DateTime, shift: MonthShift)
    ensures var amount := ReadAmount(pair.inner, Amount(0, None));
      ResolveFutureTime(pair, datetime, shift)
      == if amount.Err? then Err(amount.error)
         else if amount.value.unit.Some? then AddUnits(datetime, amount.value.duration, amount.value.unit.value, shift)
         else Err(TimeUnitNotProvided)
  {
  }

  /** Without a unit among the children, the amount keeps its unit. */
  lemma {:induction false} ReadAmountWithoutUnit(children: seq<Pair>, amount: Amount)
    requires ValidAmount(amount)
    requires forall i :: 0 <= i < |children| ==> !IsUnitRule(children[i].rule)
    ensures ReadAmount(children, amount).Ok? ==> ReadAmount(children, amount).value.unit == amount.unit
    decreases |children|
  {
    if children != [] {
      var next := AmountStep(children[0], amount);
      if next.Ok? {
        ReadAmountWithoutUnit(children[1..], next.value);
      }
    }
  }

  /** A duration without a unit is rejected. */
  lemma FutureTimeNeedsUnit(pair: Pair, datetime: DateTime, shift: MonthShift)
    requires forall i :: 0 <= i < |pair.inner| ==> !IsUnitRule(pair.inner[i].rule)
    ensures ResolveFutureTime(pair, datetime, shift).Err?
    ensures ReadAmount(pair.inner, Amount(0, None)).Ok? ==> ResolveFutureTime(pair, datetime, shift) == Err(TimeUnitNotProvided)
  {
    ReadAmountWithoutUnit(pair.inner, Amount(0, None));
  }

  /** `in <n>` with no unit: "Time unit not provided" when the count is read, "Invalid duration value" when it is not. */
  lemma NumberWithoutUnit(n: nat, text: string, datetime: DateTime, shift: MonthShift)
    ensures ResolveFutureTime(Pair(FutureTime, text, [Numeral(Number, n)]), datetime, shift)
            == if n <= I32Max then Err(TimeUnitNotProvided) else Err(InvalidDurationValue)
  {
    var start := Amount(0, None);
    assert [Numeral(Number, n)] == [Numeral(Number, n)] + [];
    ReadAmountCons(Numeral(Number, n), [], start);
    NumberStep(n, start);
  }

  /**
   * A unit left wrapped in a `time_unit` node is not one of the children
   * `process_future_time` accepts: reading it fails with "Unexpected rule",
   * whatever follows.
   */
  lemma WrappedUnitRejected(child: Pair, rest: seq<Pair>, amount: Amount)
    requires child.rule == TimeUnit && ValidAmount(amount)
    ensures ReadAmount([child] + rest, amount) == Err(UnexpectedRule)
  {
    ReadAmountCons(child, rest, amount);
  }


  /** The month shift keeps the day of the month whenever that day exists in the target month. */
  ghost predicate KeepsDayOfMonth(shift: MonthShift) {
    forall t: DateTime, n: int :: ValidDate(MonthsLater(t, n)) ==> shift(t, n) == Some(DateTime(DayNumber(MonthsLater(t, n)), t.second))
  }

  /** The reference instant of the repository's duration tests: 2025-09-07 21:00:00 local time. */
  const Reference := At(Date(2025, 9, 7), 21, 0, 0)
  /** 2025-09-07 21:15, fifteen minutes after the reference. */
  const FifteenMinutesLater := At(Date(2025, 9, 7), 21, 15, 0)
  /** 2025-09-07 22:00, one hour after the reference. */
  const OneHourLater := At(Date(2025, 9, 7), 22, 0, 0)
  /** 2025-09-10 21:00, three days after the reference. */
  const ThreeDaysLater := At(Date(2025, 9, 10), 21, 0, 0)
  /** 2025-10-12 21:00, five weeks after the reference. */
  const FiveWeeksLater := At(Date(2025, 10, 12), 21, 0, 0)

  /** An expression resolves as its single child does. */
  lemma ExpressionResolvesChild(child: Pair, datetime: DateTime, shift: MonthShift)
    requires DirectionsPresent(child)
    requires child.rule == SpecificDay ==> |child.inner| > 0
    ensures DirectionsPresent(ExpressionNode(child))
    ensures FromStringWithReference(Expression(child), datetime, shift) == DispatchChildren([child], datetime, shift)
  {
    assert DirectionsPresent(Leaf(EOI));
  }

  /** A duration expression, from the top: `n` units after the reference. */
  lemma FutureExpression(n: nat, unit: Rule, datetime: DateTime, shift: MonthShift)
    requires n <= I32Max && IsUnitRule(unit)
    ensures DirectionsPresent(ExpressionNode(FutureNode(n, unit)))
    ensures FromStringWithReference(Expression(FutureNode(n, unit)), datetime, shift) == AddUnits(datetime, n, unit, shift)
  {
    FutureNodeDirections(n, unit);
    ExpressionResolvesChild(FutureNode(n, unit), datetime, shift);
    DispatchFutureTime(FutureNode(n, unit), datetime, shift);
    FutureTimeOfNode(n, unit, datetime, shift);
  }

  lemma FutureNodeDirections(n: nat, unit: Rule)
    ensures DirectionsPresent(FutureNode(n, unit))
  {
    assert DirectionsPresent(Numeral(Number, n)) && DirectionsPresent(Leaf(unit));
  }

  /** A lone `future_time` child is dispatched to `process_future_time`. */
  lemma DispatchFutureTime(child: Pair, datetime: DateTime, shift: MonthShift)
    requires child.rule == FutureTime && DirectionsPresent(child)
    ensures forall i :: 0 <= i < |[child]| ==> DirectionsPresent([child][i])
    ensures DispatchChildren([child], datetime, shift) == ResolveFutureTime(child, datetime, shift)
  {
  }

  /** Fifteen minutes after the reference instant is 21:15 the same day. */
  lemma AddFifteenMinutes(shift: MonthShift)
    ensures var r := AddUnits(Reference, 15, MinuteS, shift);
      r.Ok? && r.value == FifteenMinutesLater
  {
    var r := AddUnits(Reference, 15, MinuteS, shift);
    TimestampInjective(r.value, FifteenMinutesLater);
  }

  /** From 2025-09-07 21:00, in 15 minutes is 21:15 the same day. */
  lemma InFifteenMinutes(shift: MonthShift)
    ensures var r := ResolveFutureTime(FutureNode(15, MinuteS), Reference, shift);
      r.Ok? && r.value == FifteenMinutesLater
  {
    FutureTimeOfNode(15, MinuteS, Reference, shift);
    AddFifteenMinutes(shift);
  }

  /** One hour after the reference instant is 22:00 the same day. */
  lemma AddOneHour(shift: MonthShift)
    ensures var r := AddUnits(Reference, 1, HourS, shift);
      r.Ok? && r.value == OneHourLater
  {
    var r := AddUnits(Reference, 1, HourS, shift);
    TimestampInjective(r.value, OneHourLater);
  }

  /** From 2025-09-07 21:00, in 1 hour is 22:00 the same day. */
  lemma InOneHour(shift: MonthShift)
    ensures var r := ResolveFutureTime(FutureNode(1, HourS), Reference, shift);
      r.Ok? && r.value == OneHourLater
  {
    FutureTimeOfNode(1, HourS, Reference, shift);
    AddOneHour(shift);
  }

  /** Three days after the reference instant is 2025-09-10 21:00. */
  lemma AddThreeDays(shift: MonthShift)
    ensures var r := AddUnits(Reference, 3, DayS, shift);
      r.Ok? && r.value == ThreeDaysLater
  {
  }

  /** From 2025-09-07 21:00, in 3 days is 2025-09-10 21:00. */
  lemma InThreeDays(shift: MonthShift)
    ensures var r := ResolveFutureTime(FutureNode(3, DayS), Reference, shift);
      r.Ok? && r.value == ThreeDaysLater
  {
    FutureTimeOfNode(3, DayS, Reference, shift);
    AddThreeDays(shift);
  }

  /** Five weeks after the reference instant is 2025-10-12 21:00. */
  lemma AddFiveWeeks(shift: MonthShift)
    ensures var r := AddUnits(Reference, 5, WeekS, shift);
      r.Ok? && r.value == FiveWeeksLater
  {
  }

  /** From 2025-09-07 21:00, in 5 weeks is 2025-10-12 21:00. */
  lemma InFiveWeeks(shift: MonthShift)
    ensures var r := ResolveFutureTime(FutureNode(5, WeekS), Reference, shift);
      r.Ok? && r.value == FiveWeeksLater
  {
    FutureTimeOfNode(5, WeekS, Reference, shift);
    AddFiveWeeks(shift);
  }

  /**
   * `in <n> years` from an instant on `date`: the same month, day and time of
   * day `years` later, or `InvalidYearAdjustment` when that date does not
   * exist (February 29 into a common year).
   */
  lemma AddYearsAt(date: Date, hour: nat, minute: nat, second: nat, years: int)
    requires ValidDate(date) && hour < 24 && minute < 60 && second < 60
    ensures var target := Date(date.year + years, date.month, date.day);
      AddYears(At(date, hour, minute, second), years)
      == if ValidDate(target) then Ok(At(target, hour, minute, second)) else Err(InvalidYearAdjustment)
  {
    var target := Date(date.year + years, date.month, date.day);
    var t := At(date, hour, minute, second);
    assert CivilDate(t.day) == date by {
      CivilDateOfDayNumber(date);
    }
    if ValidDate(target) {
      WithYearAt(date, hour, minute, second, date.year + years);
    }
  }

  /**
   * `in <n> months` from an instant on `date`, for a month shift that keeps
   * the day of the month: the same day and time of day `months` later,
   * whenever that date exists.
   */
  lemma AddMonthsAt(date: Date, hour: nat, minute: nat, second: nat, months: int, shift: MonthShift)
    requires ValidDate(date) && hour < 24 && minute < 60 && second < 60
    requires KeepsDayOfMonth(shift)
    ensures var index := date.month - 1 + months;
      var target := Date(date.year + index / 12, index % 12 + 1, date.day);
      ValidDate(target) ==> AddMonths(At(date, hour, minute, second), months, shift) == Ok(At(target, hour, minute, second))
  {
    var t := At(date, hour, minute, second);
    var index := date.month - 1 + months;
    var target := Date(date.year + index / 12, index % 12 + 1, date.day);
    MonthsLaterAt(date, hour, minute, second, months);
    if ValidDate(target) {
      assert shift(t, months) == Some(DateTime(DayNumber(target), t.second));
    }
  }

  // ---------------------------------------------------------------------------
  // Composite expressions
  // ---------------------------------------------------------------------------

  /**
   * `<weekday> at <time>`: the day step of `process_specific_day_and_time`
   * hands the rule `specific_day` itself to `process_weekday`, which rejects
   * it, so the composite fails whatever follows the weekday.
   */
  lemma SpecificDayAndTimeRejectsWeekday(w: Weekday, rest: seq<Pair>, datetime: DateTime)
    ensures ApplyDayAndTime([DayNode(w)] + rest, datetime) == Err(InvalidWeekday(SpecificDay))
  {
  }

  /** The steps of `relative_day_and_specific_time` compose: the children of `a + b` run as `a`, then `b`. */
  lemma {:induction false} RelativeDayAndTimeAppend(a: seq<Pair>, b: seq<Pair>, datetime: DateTime)
    requires forall i :: 0 <= i < |a| ==> DirectionsPresent(a[i])
    requires forall i :: 0 <= i < |b| ==> DirectionsPresent(b[i])
    ensures forall i :: 0 <= i < |a + b| ==> DirectionsPresent((a + b)[i])
    ensures var middle := ApplyRelativeDayAndTime(a, datetime);
      ApplyRelativeDayAndTime(a + b, datetime)
      == if middle.Ok? then ApplyRelativeDayAndTime(b, middle.value) else Err(middle.error)
    decreases |a|
  {
    assert forall i :: 0 <= i < |a + b| ==> (a + b)[i] == if i < |a| then a[i] else b[i - |a|];
    if a == [] {
      assert a + b == b;
    } else {
      assert (a + b)[0] == a[0];
      assert (a + b)[1..] == a[1..] + b;
      var next := RelativeStep(a[0], datetime);
      if next.Ok? {
        RelativeDayAndTimeAppend(a[1..], b, next.value);
      }
    }
  }

  /** A child that is not a relative date, a relative term or a time changes nothing. */
  lemma RelativeDayAndTimeSkips(child: Pair, rest: seq<Pair>, datetime: DateTime)
    requires child.rule != RelativeDate && child.rule != RelativeTerm && child.rule != SpecificTime
    requires DirectionsPresent(child)
    requires forall i :: 0 <= i < |rest| ==> DirectionsPresent(rest[i])
    ensures forall i :: 0 <= i < |[child] + rest| ==> DirectionsPresent(([child] + rest)[i])
    ensures ApplyRelativeDayAndTime([child] + rest, datetime) == ApplyRelativeDayAndTime(rest, datetime)
  {
    assert ([child] + rest)[1..] == rest;
  }

  /** Every time node has the shape the interpreter relies on. */
  lemma TimeNodeDirections(hour: nat, minute: Option<nat>, isPm: Option<bool>)
    ensures DirectionsPresent(TimeNode(hour, minute, isPm))
  {
    var children := TimeNode(hour, minute, isPm).inner;
    forall i | 0 <= i < |children|
      ensures DirectionsPresent(children[i])
    {
      if isPm.Some? && i == |children| - 1 {
        assert DirectionsPresent(Leaf(if isPm.value then Pm else Am));
      }
    }
  }

  /** A single child of `relative_day_and_specific_time` is one step. */
  lemma RelativeDayAndTimeSingle(child: Pair, datetime: DateTime)
    requires DirectionsPresent(child)
    ensures forall i :: 0 <= i < |[child]| ==> DirectionsPresent([child][i])
    ensures ApplyRelativeDayAndTime([child], datetime) == RelativeStep(child, datetime)
  {
    assert [child][1..] == [];
  }

  /** A relative term followed by a time: the time is set on the day the term names. */
  lemma TermThenTime(term: Rule, time: Pair, datetime: DateTime)
    requires time.rule == SpecificTime && DirectionsPresent(time)
    ensures DirectionsPresent(Pair(RelativeDayAndSpecificTime, "", [TermNode(term), time]))
    ensures var day := ProcessRelativeTerm(TermNode(term), datetime);
      ResolveRelativeDayAndSpecificTime(Pair(RelativeDayAndSpecificTime, "", [TermNode(term), time]), datetime)
      == if day.Ok? then ResolveSpecificTime(time, day.value) else Err(day.error)
  {
    var first := TermNode(term);
    assert DirectionsPresent(Leaf(term));
    assert DirectionsPresent(first);
    assert [first, time] == [first] + [time];
    RelativeDayAndTimeSingle(first, datetime);
    var day := ProcessRelativeTerm(first, datetime);
    if day.Ok? {
      RelativeDayAndTimeSingle(time, day.value);
    }
    RelativeDayAndTimeAppend([first], [time], datetime);
  }

  /** `tomorrow at <time>`: the time is set on the next day (with `FiveThirtyPm`, `tomorrow at 5:30 PM` is the next day at 17:30). */
  lemma TomorrowAt(time: Pair, datetime: DateTime)
    requires time.rule == SpecificTime && DirectionsPresent(time)
    ensures var pair := Pair(RelativeDayAndSpecificTime, "", [TermNode(Tomorrow), time]);
      && DirectionsPresent(pair)
      && ResolveRelativeDayAndSpecificTime(pair, datetime) == ResolveSpecificTime(time, DateTime(datetime.day + 1, datetime.second))
  {
    TermThenTime(Tomorrow, time, datetime);
    TomorrowTerm(datetime);
  }

  /** `tomorrow` on its own is the next day at the same time of day. */
  lemma TomorrowTerm(datetime: DateTime)
    ensures ProcessRelativeTerm(TermNode(Tomorrow), datetime) == Ok(DateTime(datetime.day + 1, datetime.second))
  {
    assert TermNode(Tomorrow).inner[0].rule == Tomorrow;
  }

  // ---------------------------------------------------------------------------
  // Relative dates and the dispatch
  // ---------------------------------------------------------------------------

  /** A relative date moves by its direction to its weekday. */
  lemma RelativeDateOfNode(direction: Rule, w: Weekday, datetime: DateTime)
    ensures HasDirection(RelativeDateNode(direction, w))
    ensures ProcessRelativeDate(RelativeDateNode(direction, w), datetime) == ShiftToWeekday(datetime, w, direction)
  {
    var node := RelativeDateNode(direction, w);
    assert node.inner[0].inner[|node.inner[0].inner| - 1].rule == direction;
    assert node.inner[1].inner[0].rule == WeekdayRule(w);
    var named := ProcessWeekday(WeekdayRule(w));
    WeekdayRuleInjective(named.value, w);
  }

  /** `today` resolves to the reference instant itself. */
  lemma TodayIsReference(datetime: DateTime, shift: MonthShift)
    ensures FromStringWithReference(Expression(TermNode(Today)), datetime, shift) == Ok(datetime)
  {
    assert DirectionsPresent(Leaf(Today));
    ExpressionResolvesChild(TermNode(Today), datetime, shift);
  }

  /**
   * The weekday of the reference's Sunday-started week: `process_specific_day`
   * gives exactly the instant with that week, that weekday and the
   * reference's time of day.
   */
  lemma SpecificDayDetermined(w: Weekday, datetime: DateTime, t: DateTime)
    ensures var r := ProcessSpecificDay(WeekdayRule(w), datetime);
      && r.Ok?
      && (t == r.value <==> WeekOf(t) == WeekOf(datetime) && WeekdayOf(t) == w && t.second == datetime.second)
  {
    var r := ProcessSpecificDay(WeekdayRule(w), datetime);
    WeekdayRuleInjective(WeekdayOf(r.value), w);
    if WeekOf(t) == WeekOf(datetime) && WeekdayOf(t) == w && t.second == datetime.second {
      WeekAndWeekdayDetermineDay(t, r.value);
    }
  }

  /** A weekday on its own is that weekday of the reference's week, at the reference's time of day. */
  lemma BareWeekday(w: Weekday, datetime: DateTime, shift: MonthShift)
    ensures var r := FromStringWithReference(Expression(DayNode(w)), datetime, shift);
      r.Ok? && WeekdayOf(r.value) == w && WeekOf(r.value) == WeekOf(datetime) && r.value.second == datetime.second
  {
    DayNodeDirections(w);
    ExpressionResolvesChild(DayNode(w), datetime, shift);
    var r := ProcessSpecificDay(WeekdayRule(w), datetime);
    WeekdayRuleInjective(WeekdayOf(r.value), w);
  }

  /** Different weekdays are named by different rules. */
  lemma WeekdayRuleInjective(a: Weekday, b: Weekday)
    ensures WeekdayRule(a) == WeekdayRule(b) ==> a == b
  {
  }

  /** A weekday node without a weekday is passed over, and the dispatch goes on with the next child. */
  lemma DispatchPassesEmptyDay(rest: seq<Pair>, datetime: DateTime, shift: MonthShift)
    requires forall i :: 0 <= i < |rest| ==> DirectionsPresent(rest[i])
    ensures forall i :: 0 <= i < |[Leaf(SpecificDay)] + rest| ==> DirectionsPresent(([Leaf(SpecificDay)] + rest)[i])
    ensures DispatchChildren([Leaf(SpecificDay)] + rest, datetime, shift) == DispatchChildren(rest, datetime, shift)
  {
    assert DirectionsPresent(Leaf(SpecificDay));
    assert ([Leaf(SpecificDay)] + rest)[1..] == rest;
  }

  /** Every weekday node has the shape the interpreter relies on. */
  lemma DayNodeDirections(w: Weekday)
    ensures DirectionsPresent(DayNode(w))
  {
    assert DirectionsPresent(Leaf(WeekdayRule(w)));
  }

  /** A `<weekday> at <time>` node is rejected, and has the shape the interpreter relies on when its time does. */
  lemma DayAndTimeNodeFails(w: Weekday, time: Pair, datetime: DateTime)
    ensures DirectionsPresent(time) ==> DirectionsPresent(DayAndTimeNode(w, time))
    ensures ResolveSpecificDayAndTime(DayAndTimeNode(w, time), datetime) == Err(InvalidWeekday(SpecificDay))
  {
    DayNodeDirections(w);
    var children := DayAndTimeNode(w, time).inner;
    assert children == [DayNode(w)] + [time];
    SpecificDayAndTimeRejectsWeekday(w, [time], datetime);
  }

  /** A lone `specific_day_and_time` child is dispatched to `process_specific_day_and_time`. */
  lemma DispatchDayAndTime(child: Pair, datetime: DateTime, shift: MonthShift)
    requires child.rule == SpecificDayAndTime && DirectionsPresent(child)
    ensures forall i :: 0 <= i < |[child]| ==> DirectionsPresent([child][i])
    ensures DispatchChildren([child], datetime, shift) == ResolveSpecificDayAndTime(child, datetime)
  {
  }

  /** `<weekday> at <time>`, from the top: rejected for every weekday, time and reference. */
  lemma DayAndTimeExpressionFails(w: Weekday, hour: nat, minute: Option<nat>, isPm: Option<bool>, datetime: DateTime, shift: MonthShift)
    ensures DirectionsPresent(ExpressionNode(DayAndTimeNode(w, TimeNode(hour, minute, isPm))))
    ensures FromStringWithReference(Expression(DayAndTimeNode(w, TimeNode(hour, minute, isPm))), datetime, shift)
            == Err(InvalidWeekday(SpecificDay))
  {
    var time := TimeNode(hour, minute, isPm);
    var child := DayAndTimeNode(w, time);
    TimeNodeDirections(hour, minute, isPm);
    DayAndTimeNodeFails(w, time, datetime);
    ExpressionResolvesChild(child, datetime, shift);
    DispatchDayAndTime(child, datetime, shift);
  }

  /** The errors of the structural parser and of an empty or foreign parse are reported as such. */
  lemma FromStringErrors(message: string, pairs: seq<Pair>, datetime: DateTime, shift: MonthShift)
    requires forall i :: 0 <= i < |pairs| ==> DirectionsPresent(pairs[i])
    ensures FromStringWithReference(SyntaxError(message), datetime, shift) == Err(Syntax(message))
    ensures FromStringWithReference(Parsed([]), datetime, shift) == Err(NoValidDateExpressionFound)
    ensures pairs != [] && pairs[0].rule != DateExpression ==>
            FromStringWithReference(Parsed(pairs), datetime, shift) == Err(UnexpectedRuleEncountered)
  {
  }
}
