/**
 * The semantic interpreter of natural-date-parser (`mod date_parser` of
 * src/lib.rs): it walks a parse tree rooted at `date_expression` and resolves
 * it to an instant relative to a reference instant.
 *
 * The resolvers that are single match or if expressions in the source are
 * functions here. The resolvers that loop over the children of a node and
 * update locals are methods with loops; each is proved equal to a function
 * (named `Resolve...`) that folds the same steps over the children, and the
 * properties of the resolver are proved about that function.
 */
module DateParser {
  import opened Wrappers
  import opened Numbers
  import opened Calendar
  import opened NaturalDateParser

  /**
   * chronoutil's `shift_months_opt(datetime, months)`. Its rule for days that
   * do not exist in the target month is not part of this model, so the
   * interpreter receives it as a parameter.
   */
  type MonthShift = (DateTime, int) -> Option<DateTime>

  // ---------------------------------------------------------------------------
  // Weekdays: process_weekday, process_specific_day, shift_to_weekday
  // ---------------------------------------------------------------------------

  predicate IsWeekdayRule(r: Rule) {
    r == Monday || r == Tuesday || r == Wednesday || r == Thursday
    || r == Friday || r == Saturday || r == Sunday
  }

  /** The grammar rule that names a weekday. */
  function WeekdayRule(w: Weekday): (r: Rule)
    ensures IsWeekdayRule(r)
  {
    match w
    case Mon => Monday
    case Tue => Tuesday
    case Wed => Wednesday
    case Thu => Thursday
    case Fri => Friday
    case Sat => Saturday
    case Sun => Sunday
  }

  /** `process_weekday`: the weekday a weekday rule names; any other rule is an invalid weekday. */
  function ProcessWeekday(day: Rule): (r: Result<Weekday>)
    ensures r.Ok? <==> IsWeekdayRule(day)
    ensures r.Ok? ==> WeekdayRule(r.value) == day
    ensures r.Err? ==> r.error == InvalidWeekday(day)
  {
    match day
    case Monday => Ok(Mon)
    case Tuesday => Ok(Tue)
    case Wednesday => Ok(Wed)
    case Thursday => Ok(Thu)
    case Friday => Ok(Fri)
    case Saturday => Ok(Sat)
    case Sunday => Ok(Sun)
    case _ => Err(InvalidWeekday(day))
  }

  /**
   * `process_specific_day`: the day of the reference's own week (Sunday to
   * Saturday) that has the named weekday, at the reference's time of day.
   */
  function ProcessSpecificDay(rule: Rule, datetime: DateTime): (r: Result<DateTime>)
    ensures r.Err? <==> !IsWeekdayRule(rule)
    ensures r.Err? ==> r.error == InvalidWeekday(rule)
    ensures r.Ok? ==> WeekdayRule(WeekdayOf(r.value)) == rule
    ensures r.Ok? ==> WeekOf(r.value) == WeekOf(datetime) && r.value.second == datetime.second
    ensures r.Ok? ==> -6 <= r.value.day - datetime.day <= 6
  {
    var targetWeekday :- ProcessWeekday(rule);
    var targetDayNum := NumDaysFromSunday(targetWeekday);
    var currentDayNum := NumDaysFromSunday(WeekdayOf(datetime));
    var daysDifference: int :=
      if targetDayNum >= currentDayNum then targetDayNum - currentDayNum
      else -(currentDayNum - targetDayNum);
    PlusDays(datetime, daysDifference);
    WeekDecomposition(datetime);
    NumDaysFromSundayInjective(WeekdayOf(Plus(datetime, Days(daysDifference))), targetWeekday);
    Ok(Plus(datetime, Days(daysDifference)))
  }

  /**
   * The day offset `shift_to_weekday` computes for a direction, from the
   * current and the target weekday counted from Sunday; -100 for a rule that
   * is not a direction.
   */
  function DaysDifference(current: int, target: int, direction: Rule): int {
    match direction
    case Next => if target == 0 then 7 - current + 7 else 7 - current + target
    case Last => if target == 0 then -current else -current - 7 + target
    case This =>
      var diff := target - current;
      if diff >= 0 then diff else diff + 7
    case _ => -100
  }

  /**
   * `shift_to_weekday`: moves `now` by whole days to a day with the target
   * weekday. An offset below -7 is rejected; that happens for a rule that is
   * not a direction, and also for `last` with a target other than Sunday that
   * comes earlier in the week than `now`.
   */
  function ShiftToWeekday(now: DateTime, targetWeekday: Weekday, direction: Rule): (r: Result<DateTime>)
    ensures r.Ok? <==>
      || direction == Next || direction == This
      || (direction == Last
          && (targetWeekday == Sun || NumDaysFromSunday(targetWeekday) >= NumDaysFromSunday(WeekdayOf(now))))
    ensures r.Err? ==> r.error == ExpectedLastThisOrNext(direction)
    ensures r.Ok? ==> WeekdayOf(r.value) == targetWeekday
    ensures r.Ok? ==> r.value == DateTime(now.day + DaysDifference(NumDaysFromSunday(WeekdayOf(now)), NumDaysFromSunday(targetWeekday), direction), now.second)
  {
    var numFromCurr := NumDaysFromSunday(WeekdayOf(now));
    var numFromTarget := NumDaysFromSunday(targetWeekday);
    var daysDifference := DaysDifference(numFromCurr, numFromTarget, direction);
    if daysDifference < -7 then
      Err(ExpectedLastThisOrNext(direction))
    else
      PlusDays(now, daysDifference);
      NumDaysFromSundayInjective(WeekdayOf(Plus(now, Days(daysDifference))), targetWeekday);
      Ok(Plus(now, Days(daysDifference)))
  }

  // ---------------------------------------------------------------------------
  // Relative terms and relative dates
  // ---------------------------------------------------------------------------

  /** `process_relative_term`: today, tomorrow or yesterday, by the term's first child. */
  function ProcessRelativeTerm(pair: Pair, datetime: DateTime): (r: Result<DateTime>)
    ensures |pair.inner| == 0 ==> r == Err(InvalidRelativeTerm)
    ensures |pair.inner| > 0 && pair.inner[0].rule == Tomorrow ==> r == Ok(DateTime(datetime.day + 1, datetime.second))
    ensures |pair.inner| > 0 && pair.inner[0].rule == Yesterday ==> r == Ok(DateTime(datetime.day - 1, datetime.second))
    ensures |pair.inner| > 0 && pair.inner[0].rule == Today ==> r == Ok(datetime)
    ensures |pair.inner| > 0 && pair.inner[0].rule !in {Tomorrow, Today, Yesterday} ==> r == Err(UnexpectedRelativeTerm)
  {
    if |pair.inner| > 0 then
      match pair.inner[0].rule
      case Tomorrow =>
        PlusDays(datetime, 1);
        Ok(Plus(datetime, Days(1)))
      case Today => Ok(datetime)
      case Yesterday =>
        PlusDays(datetime, -1);
        Ok(Plus(datetime, -Days(1)))
      case _ => Err(UnexpectedRelativeTerm)
    else
      Err(InvalidRelativeTerm)
  }

  /**
   * `process_relative_date`: a `next_or_last` child then a `specific_day`
   * child, resolved by `shift_to_weekday`.
   */
  function ProcessRelativeDate(pair: Pair, datetime: DateTime): (r: Result<DateTime>)
    requires HasDirection(pair)
    ensures |pair.inner| != 2 ==> r == Err(UnexpectedNumberOfInnerPairs)
    ensures |pair.inner| == 2 && (pair.inner[0].rule != NextOrLast || pair.inner[1].rule != SpecificDay)
            ==> r == Err(StructureMismatchForRelativeDate)
    ensures r.Ok? ==> |pair.inner| == 2 && |pair.inner[1].inner| > 0
                      && WeekdayRule(WeekdayOf(r.value)) == pair.inner[1].inner[0].rule
                      && r.value.second == datetime.second
  {
    if |pair.inner| == 2 then
      var firstPair := pair.inner[0];
      var secondPair := pair.inner[1];
      if firstPair.rule == NextOrLast && secondPair.rule == SpecificDay then
        var direction := firstPair.inner[|firstPair.inner| - 1].rule;
        if |secondPair.inner| > 0 then
          match ProcessWeekday(secondPair.inner[0].rule)
          case Ok(targetWeekday) => ShiftToWeekday(datetime, targetWeekday, direction)
          case Err(_) => Err(UnrecognizedRelativeDate)
        else
          Err(UnrecognizedRelativeDate)
      else
        Err(StructureMismatchForRelativeDate)
    else
      Err(UnexpectedNumberOfInnerPairs)
  }

  // ---------------------------------------------------------------------------
  // Times of day: process_is_pm, change_time, process_specific_time
  // ---------------------------------------------------------------------------

  /** `process_is_pm`: whether an `am_pm` node says PM, when its first child says either. */
  function ProcessIsPm(pair: Pair): (r: Option<bool>)
    ensures r == Some(true) <==> |pair.inner| > 0 && pair.inner[0].rule == Pm
    ensures r == Some(false) <==> |pair.inner| > 0 && pair.inner[0].rule == Am
  {
    if |pair.inner| > 0 then
      if pair.inner[0].rule == Pm then Some(true)
      else if pair.inner[0].rule == Am then Some(false)
      else None
    else
      None
  }

  /**
   * `change_time`: the same calendar date at `hour:minute:00`; a time of day
   * that does not exist is rejected.
   */
  function ChangeTime(datetime: DateTime, hour: nat, minute: nat): (r: Result<DateTime>)
    ensures r.Ok? <==> hour < 24 && minute < 60
    ensures r.Err? ==> r.error == InvalidDateOrTimeComponents
    ensures r.Ok? ==> r.value.day == datetime.day
    ensures r.Ok? ==> HourOf(r.value) == hour && MinuteOf(r.value) == minute && SecondOf(r.value) == 0
    ensures r.Ok? ==> r.value == DateTime(datetime.day, TimeOfDay(hour, minute))
  {
    var date := CivilDate(datetime.day);
    match LocalWithYmdHms(date.year, date.month, date.day, hour, minute, 0)
    case Single(newDatetime) => Ok(newDatetime)
    case LocalNone => Err(InvalidDateOrTimeComponents)
    case Ambiguous(_, _) => Err(AmbiguousDateAndTime)
  }

  /** The locals `process_specific_time` keeps while it reads the children of a time. */
  datatype Clock = Clock(hour: nat, minute: nat, isPm: bool)

  /** The errors `process_specific_time` raises itself, before `change_time`. */
  predicate IsTimeError(e: ParseDateError) {
    e == FailedToParseHour || e.InvalidHour? || e == FailedToParseMinute || e == UnexpectedRuleInSpecificTime
  }

  /** What one child of a `specific_time` node does to the clock. */
  function TimeStep(child: Pair, clock: Clock): (r: Result<Clock>)
    ensures r.Ok? && clock.hour <= 23 ==> r.value.hour <= 23
    ensures r.Err? ==> IsTimeError(r.error)
  {
    match child.rule
    case Hour =>
      (match ParseU32(child.span)
       case None => Err(FailedToParseHour)
       case Some(hour) => if hour > 23 then Err(InvalidHour(hour)) else Ok(clock.(hour := hour)))
    case Minute =>
      (match ParseU32(child.span)
       case None => Err(FailedToParseMinute)
       case Some(minute) => Ok(clock.(minute := minute)))
    case AmPm =>
      (match ProcessIsPm(child)
       case Some(isPm) => Ok(clock.(isPm := isPm))
       case None => Ok(clock))
    case _ => Err(UnexpectedRuleInSpecificTime)
  }

  /** The clock after reading `children` in order, or the first error. */
  function ReadClock(children: seq<Pair>, clock: Clock): (r: Result<Clock>)
    requires clock.hour <= 23
    ensures r.Ok? ==> r.value.hour <= 23
    ensures r.Err? ==> IsTimeError(r.error)
    decreases |children|
  {
    if children == [] then Ok(clock)
    else
      var next :- TimeStep(children[0], clock);
      ReadClock(children[1..], next)
  }

  /** `ReadClock` from position `i` on is one step followed by the rest. */
  lemma ReadClockAt(children: seq<Pair>, i: nat, clock: Clock)
    requires i < |children| && clock.hour <= 23
    ensures ReadClock(children[i..], clock)
            == var next := TimeStep(children[i], clock); if next.Ok? then ReadClock(children[i + 1..], next.value) else Err(next.error)
  {
    assert children[i..][1..] == children[i + 1..];
  }

  /** The hour on a 24-hour clock for an hour written with AM or PM. */
  function To24Hour(hour: nat, isPm: bool): nat {
    if isPm && hour < 12 then hour + 12
    else if !isPm && hour == 12 then 0
    else hour
  }

  /** Specification of `process_specific_time`. */
  function ResolveSpecificTime(pair: Pair, datetime: DateTime): (r: Result<DateTime>)
    ensures r.Ok? ==> r.value.day == datetime.day && SecondOf(r.value) == 0
    ensures r.Err? ==> IsTimeError(r.error) || r.error == InvalidDateOrTimeComponents
  {
    var clock :- ReadClock(pair.inner, Clock(0, 0, false));
    ChangeTime(datetime, To24Hour(clock.hour, clock.isPm), clock.minute)
  }

  /** `process_specific_time`. */
  method ProcessSpecificTime(pair: Pair, datetime: DateTime) returns (r: Result<DateTime>)
    ensures r == ResolveSpecificTime(pair, datetime)
  {
    var hour: nat := 0;
    var minute: nat := 0;
    var isPm := false;
    for i := 0 to |pair.inner|
      invariant hour <= 23
      invariant ReadClock(pair.inner, Clock(0, 0, false)) == ReadClock(pair.inner[i..], Clock(hour, minute, isPm))
    {
      var innerPair := pair.inner[i];
      ReadClockAt(pair.inner, i, Clock(hour, minute, isPm));
      match innerPair.rule {
        case Hour =>
          var parsed := ParseU32(innerPair.span);
          if parsed.None? {
            return Err(FailedToParseHour);
          }
          if parsed.value > 23 {
            return Err(InvalidHour(parsed.value));
          }
          hour := parsed.value;
        case Minute =>
          var parsed := ParseU32(innerPair.span);
          if parsed.None? {
            return Err(FailedToParseMinute);
          }
          minute := parsed.value;
        case AmPm =>
          var res := ProcessIsPm(innerPair);
          if res.Some? {
            isPm := res.value;
          }
        case _ =>
          return Err(UnexpectedRuleInSpecificTime);
      }
    }
    if isPm && hour < 12 {
      hour := hour + 12;
    } else if !isPm && hour == 12 {
      hour := 0;
    }
    r := ChangeTime(datetime, hour, minute);
  }

  // ---------------------------------------------------------------------------
  // Durations: process_future_time
  // ---------------------------------------------------------------------------

  predicate IsUnitRule(r: Rule) {
    r == MinuteS || r == HourS || r == DayS || r == WeekS || r == MonthS || r == YearS
  }

  /** The locals `process_future_time` keeps while it reads the children of a duration. */
  datatype Amount = Amount(duration: int, unit: Option<Rule>)

  predicate ValidAmount(a: Amount) {
    I32Min <= a.duration <= I32Max && (a.unit.Some? ==> IsUnitRule(a.unit.value))
  }

  /** What one child of a `future_time` node does to the amount. */
  function AmountStep(child: Pair, amount: Amount): (r: Result<Amount>)
    ensures r.Ok? && ValidAmount(amount) ==> ValidAmount(r.value)
    ensures r.Err? ==> r.error == InvalidDurationValue || r.error == UnexpectedRule
  {
    if child.rule == Number then
      match ParseI32(Trim(child.span))
      case None => Err(InvalidDurationValue)
      case Some(duration) => Ok(amount.(duration := duration))
    else if IsUnitRule(child.rule) then
      Ok(amount.(unit := Some(child.rule)))
    else
      Err(UnexpectedRule)
  }

  /** The amount after reading `children` in order, or the first error. */
  function ReadAmount(children: seq<Pair>, amount: Amount): (r: Result<Amount>)
    requires ValidAmount(amount)
    ensures r.Ok? ==> ValidAmount(r.value)
    ensures r.Err? ==> r.error == InvalidDurationValue || r.error == UnexpectedRule
    decreases |children|
  {
    if children == [] then Ok(amount)
    else
      var next :- AmountStep(children[0], amount);
      ReadAmount(children[1..], next)
  }

  /** `ReadAmount` from position `i` on is one step followed by the rest. */
  lemma ReadAmountAt(children: seq<Pair>, i: nat, amount: Amount)
    requires i < |children| && ValidAmount(amount)
    ensures ReadAmount(children[i..], amount)
            == var next := AmountStep(children[i], amount); if next.Ok? then ReadAmount(children[i + 1..], next.value) else Err(next.error)
  {
    assert children[i..][1..] == children[i + 1..];
  }

  /** The `month_s` arm of `process_future_time`: the month shift, or its failure. */
  function AddMonths(datetime: DateTime, duration: int, shift: MonthShift): (r: Result<DateTime>)
    ensures shift(datetime, duration).None? <==> r.Err?
    ensures r.Err? ==> r.error == InvalidMonthAdjustment
    ensures r.Ok? ==> r.value == shift(datetime, duration).value
  {
    match shift(datetime, duration)
    case None => Err(InvalidMonthAdjustment)
    case Some(shifted) => Ok(shifted)
  }

  /**
   * The `year_s` arm of `process_future_time`: the same month, day and time
   * of day `duration` years later, which fails only from February 29 into a
   * common year.
   */
  function AddYears(datetime: DateTime, duration: int): (r: Result<DateTime>)
    ensures var date := CivilDate(datetime.day);
      && (r.Err? <==> date.month == 2 && date.day == 29 && !IsLeapYear(date.year + duration))
      && (r.Err? ==> r.error == InvalidYearAdjustment)
      && (r.Ok? ==> ValidDate(Date(date.year + duration, date.month, date.day)))
      && (r.Ok? ==> r.value.day == DayNumber(Date(date.year + duration, date.month, date.day)))
      && (r.Ok? ==> r.value.second == datetime.second)
  {
    match WithYear(datetime, CivilDate(datetime.day).year + duration)
    case None => Err(InvalidYearAdjustment)
    case Some(shifted) => Ok(shifted)
  }

  /** The `match unit` of `process_future_time`: `duration` units after `datetime`. */
  function AddUnits(datetime: DateTime, duration: int, unit: Rule, shift: MonthShift): (r: Result<DateTime>)
    ensures unit == MinuteS ==> r.Ok? && Timestamp(r.value) == Timestamp(datetime) + 60 * duration
    ensures unit == HourS ==> r.Ok? && Timestamp(r.value) == Timestamp(datetime) + 3600 * duration
    ensures unit == DayS ==> r.Ok? && r.value == DateTime(datetime.day + duration, datetime.second)
    ensures unit == WeekS ==> r.Ok? && r.value == DateTime(datetime.day + 7 * duration, datetime.second)
    ensures unit == MonthS ==> r == AddMonths(datetime, duration, shift)
    ensures unit == YearS ==> r == AddYears(datetime, duration)
    ensures !IsUnitRule(unit) ==> r == Err(InvalidTimeUnit)
  {
    match unit
    case MinuteS => Ok(Plus(datetime, Minutes(duration)))
    case HourS => Ok(Plus(datetime, Hours(duration)))
    case DayS =>
      PlusDays(datetime, duration);
      Ok(Plus(datetime, Days(duration)))
    case WeekS =>
      PlusWeeks(datetime, duration);
      Ok(Plus(datetime, Weeks(duration)))
    case MonthS => AddMonths(datetime, duration, shift)
    case YearS => AddYears(datetime, duration)
    case _ => Err(InvalidTimeUnit)
  }

  /** Specification of `process_future_time`. */
  function ResolveFutureTime(pair: Pair, datetime: DateTime, shift: MonthShift): (r: Result<DateTime>)
    ensures r != Err(InvalidTimeUnit)
  {
    var amount :- ReadAmount(pair.inner, Amount(0, None));
    if amount.unit.Some? then AddUnits(datetime, amount.duration, amount.unit.value, shift)
    else Err(TimeUnitNotProvided)
  }

  /** `process_future_time`. */
  method ProcessFutureTime(pair: Pair, datetime: DateTime, shift: MonthShift) returns (r: Result<DateTime>)
    ensures r == ResolveFutureTime(pair, datetime, shift)
  {
    var duration := 0;
    var unit: Option<Rule> := None;
    for i := 0 to |pair.inner|
      invariant ValidAmount(Amount(duration, unit))
      invariant ReadAmount(pair.inner, Amount(0, None)) == ReadAmount(pair.inner[i..], Amount(duration, unit))
    {
      var innerPair := pair.inner[i];
      ReadAmountAt(pair.inner, i, Amount(duration, unit));
      if innerPair.rule == Number {
        var parsed := ParseI32(Trim(innerPair.span));
        if parsed.None? {
          return Err(InvalidDurationValue);
        }
        duration := parsed.value;
      } else if IsUnitRule(innerPair.rule) {
        unit := Some(innerPair.rule);
      } else {
        return Err(UnexpectedRule);
      }
    }
    if unit.Some? {
      r := AddUnits(datetime, duration, unit.value, shift);
    } else {
      r := Err(TimeUnitNotProvided);
    }
  }

  // ---------------------------------------------------------------------------
  // Composite expressions
  // ---------------------------------------------------------------------------

  /** What one child of a `specific_day_and_time` node does to the running instant. */
  function DayAndTimeStep(child: Pair, datetime: DateTime): Result<DateTime> {
    match child.rule
    // The rule of the child itself, `specific_day`, is what reaches process_weekday.
    case SpecificDay => ProcessSpecificDay(child.rule, datetime)
    case SpecificTime => ResolveSpecificTime(child, datetime)
    case _ => Err(UnexpectedRuleInSpecificDateAndTime(child.rule))
  }

  /** The running instant after the children of a `specific_day_and_time` node, in order. */
  function ApplyDayAndTime(children: seq<Pair>, datetime: DateTime): (r: Result<DateTime>)
    ensures (exists i :: 0 <= i < |children| && children[i].rule == SpecificDay) ==> r.Err?
    ensures r.Ok? ==> forall i :: 0 <= i < |children| ==> children[i].rule == SpecificTime
    decreases |children|
  {
    if children == [] then Ok(datetime)
    else
      var next :- DayAndTimeStep(children[0], datetime);
      ApplyDayAndTime(children[1..], next)
  }

  /** `ApplyDayAndTime` from position `i` on is one step followed by the rest. */
  lemma ApplyDayAndTimeAt(children: seq<Pair>, i: nat, datetime: DateTime)
    requires i < |children|
    ensures ApplyDayAndTime(children[i..], datetime)
            == var next := DayAndTimeStep(children[i], datetime); if next.Ok? then ApplyDayAndTime(children[i + 1..], next.value) else Err(next.error)
  {
    assert children[i..][1..] == children[i + 1..];
  }

  /** Specification of `process_specific_day_and_time`. */
  function ResolveSpecificDayAndTime(pair: Pair, datetime: DateTime): Result<DateTime> {
    ApplyDayAndTime(pair.inner, datetime)
  }

  /** `process_specific_day_and_time`. */
  method ProcessSpecificDayAndTime(pair: Pair, datetime: DateTime) returns (r: Result<DateTime>)
    ensures r == ResolveSpecificDayAndTime(pair, datetime)
  {
    var current := datetime;
    for i := 0 to |pair.inner|
      invariant ApplyDayAndTime(pair.inner, datetime) == ApplyDayAndTime(pair.inner[i..], current)
    {
      var innerPair := pair.inner[i];
      ApplyDayAndTimeAt(pair.inner, i, current);
      match innerPair.rule {
        case SpecificDay =>
          // Never `Ok`: the rule passed on is `specific_day`, not a weekday.
          match ProcessSpecificDay(innerPair.rule, current) {
            case Err(e) => return Err(e);
            case Ok(shifted) => current := shifted;
          }
        case SpecificTime =>
          var res := ProcessSpecificTime(innerPair, current);
          if res.Err? {
            return Err(res.error);
          }
          current := res.value;
        case _ =>
          return Err(UnexpectedRuleInSpecificDateAndTime(innerPair.rule));
      }
    }
    r := Ok(current);
  }

  /** What one child of a `relative_day_and_specific_time` node does to the running instant. */
  function RelativeStep(child: Pair, datetime: DateTime): Result<DateTime>
    requires DirectionsPresent(child)
  {
    match child.rule
    case RelativeDate => ProcessRelativeDate(child, datetime)
    case RelativeTerm => ProcessRelativeTerm(child, datetime)
    case SpecificTime => ResolveSpecificTime(child, datetime)
    case _ => Ok(datetime)
  }

  /** The running instant after the children of a `relative_day_and_specific_time` node, in order. */
  function ApplyRelativeDayAndTime(children: seq<Pair>, datetime: DateTime): Result<DateTime>
    requires forall i :: 0 <= i < |children| ==> DirectionsPresent(children[i])
    decreases |children|
  {
    if children == [] then Ok(datetime)
    else
      var next :- RelativeStep(children[0], datetime);
      ApplyRelativeDayAndTime(children[1..], next)
  }

  /** `ApplyRelativeDayAndTime` from position `i` on is one step followed by the rest. */
  lemma ApplyRelativeDayAndTimeAt(children: seq<Pair>, i: nat, datetime: DateTime)
    requires i < |children|
    requires forall j :: 0 <= j < |children| ==> DirectionsPresent(children[j])
    ensures DirectionsPresent(children[i])
    ensures ApplyRelativeDayAndTime(children[i..], datetime)
            == var next := RelativeStep(children[i], datetime); if next.Ok? then ApplyRelativeDayAndTime(children[i + 1..], next.value) else Err(next.error)
  {
    assert children[i..][0] == children[i];
    assert children[i..][1..] == children[i + 1..];
  }

  /** Specification of `process_relative_day_and_specific_time`. */
  function ResolveRelativeDayAndSpecificTime(pair: Pair, datetime: DateTime): Result<DateTime>
    requires DirectionsPresent(pair)
  {
    ApplyRelativeDayAndTime(pair.inner, datetime)
  }

  /** `process_relative_day_and_specific_time`. */
  method ProcessRelativeDayAndSpecificTime(pair: Pair, datetime: DateTime) returns (r: Result<DateTime>)
    requires DirectionsPresent(pair)
    ensures r == ResolveRelativeDayAndSpecificTime(pair, datetime)
  {
    var current := datetime;
    for i := 0 to |pair.inner|
      invariant ApplyRelativeDayAndTime(pair.inner, datetime) == ApplyRelativeDayAndTime(pair.inner[i..], current)
    {
      var innerPair := pair.inner[i];
      ApplyRelativeDayAndTimeAt(pair.inner, i, current);
      var res: Result<DateTime>;
      match innerPair.rule {
        case RelativeDate =>
          res := ProcessRelativeDate(innerPair, current);
        case RelativeTerm =>
          res := ProcessRelativeTerm(innerPair, current);
        case SpecificTime =>
          res := ProcessSpecificTime(innerPair, current);
        case _ =>
          res := Ok(current);
      }
      if res.Err? {
        return Err(res.error);
      }
      current := res.value;
    }
    r := Ok(current);
  }

  // ---------------------------------------------------------------------------
  // Dispatch: process_date_expression, from_string_with_reference
  // ---------------------------------------------------------------------------

  /** The resolution of the first child of a `date_expression` that the dispatch acts on. */
  function DispatchChildren(children: seq<Pair>, datetime: DateTime, shift: MonthShift): Result<DateTime>
    requires forall i :: 0 <= i < |children| ==> DirectionsPresent(children[i])
    decreases |children|
  {
    if children == [] then Err(NoDateExpressionFound)
    else
      var child := children[0];
      assert DirectionsPresent(child);
      match child.rule
      case RelativeDate => ProcessRelativeDate(child, datetime)
      case RelativeTerm => ProcessRelativeTerm(child, datetime)
      case SpecificTime => ResolveSpecificTime(child, datetime)
      case SpecificDay =>
        if |child.inner| > 0 then ProcessSpecificDay(child.inner[0].rule, datetime)
        else DispatchChildren(children[1..], datetime, shift)
      case SpecificDayAndTime => ResolveSpecificDayAndTime(child, datetime)
      case RelativeDayAndSpecificTime => ResolveRelativeDayAndSpecificTime(child, datetime)
      case FutureTime => ResolveFutureTime(child, datetime, shift)
      case _ => Err(UnexpectedRuleEncountered)
  }

  /** Specification of `process_date_expression`. */
  function ResolveDateExpression(pair: Pair, datetime: DateTime, shift: MonthShift): Result<DateTime>
    requires DirectionsPresent(pair)
  {
    DispatchChildren(pair.inner, datetime, shift)
  }

  /** `process_date_expression`. */
  method ProcessDateExpression(pair: Pair, datetime: DateTime, shift: MonthShift) returns (r: Result<DateTime>)
    requires DirectionsPresent(pair)
    ensures r == ResolveDateExpression(pair, datetime, shift)
  {
    for i := 0 to |pair.inner|
      invariant DispatchChildren(pair.inner, datetime, shift) == DispatchChildren(pair.inner[i..], datetime, shift)
    {
      var innerPair := pair.inner[i];
      assert pair.inner[i..] == [innerPair] + pair.inner[i + 1..];
      match innerPair.rule {
        case RelativeDate =>
          return ProcessRelativeDate(innerPair, datetime);
        case RelativeTerm =>
          return ProcessRelativeTerm(innerPair, datetime);
        case SpecificTime =>
          r := ProcessSpecificTime(innerPair, datetime);
          return;
        case SpecificDay =>
          if |innerPair.inner| > 0 {
            return ProcessSpecificDay(innerPair.inner[0].rule, datetime);
          }
        case SpecificDayAndTime =>
          r := ProcessSpecificDayAndTime(innerPair, datetime);
          return;
        case RelativeDayAndSpecificTime =>
          r := ProcessRelativeDayAndSpecificTime(innerPair, datetime);
          return;
        case FutureTime =>
          r := ProcessFutureTime(innerPair, datetime, shift);
          return;
        case _ =>
          return Err(UnexpectedRuleEncountered);
      }
    }
    r := Err(NoDateExpressionFound);
  }

  /**
   * `from_string_with_reference` after the structural parser has run: its
   * error, or the resolution of the first top-level pair.
   */
  function FromStringWithReference(parsed: ParseOutcome, referenceDate: DateTime, shift: MonthShift): (r: Result<DateTime>)
    requires parsed.Parsed? ==> forall i :: 0 <= i < |parsed.pairs| ==> DirectionsPresent(parsed.pairs[i])
    ensures parsed.SyntaxError? ==> r == Err(Syntax(parsed.message))
    ensures parsed == Parsed([]) ==> r == Err(NoValidDateExpressionFound)
    ensures parsed.Parsed? && |parsed.pairs| > 0 && parsed.pairs[0].rule != DateExpression ==> r == Err(UnexpectedRuleEncountered)
    ensures parsed.Parsed? && |parsed.pairs| > 0 && parsed.pairs[0].rule == DateExpression ==>
            r == ResolveDateExpression(parsed.pairs[0], referenceDate, shift)
    ensures r.Ok? ==> parsed.Parsed? && |parsed.pairs| > 0 && parsed.pairs[0].rule == DateExpression
  {
    match parsed
    case SyntaxError(message) => Err(Syntax(message))
    case Parsed(pairs) =>
      if |pairs| > 0 then
        if pairs[0].rule == DateExpression then ResolveDateExpression(pairs[0], referenceDate, shift)
        else Err(UnexpectedRuleEncountered)
      else
        Err(NoValidDateExpressionFound)
  }
}
