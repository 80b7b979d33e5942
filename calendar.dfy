/**
 * The part of chrono the interpreter relies on, for a local zone with a fixed
 * offset from UTC: instants, exact durations, weekdays, proleptic Gregorian
 * calendar dates, `with_year`, and `Local.with_ymd_and_hms`.
 */
module Calendar {
  import opened Wrappers

  const SecondsPerDay: int := 86400

  type SecondOfDay = s: int | 0 <= s < SecondsPerDay

  /**
   * A `DateTime<Local>`: `day` counts local calendar days from 1970-01-01
   * (negative before it) and `second` is the second of that day.
   */
  datatype DateTime = DateTime(day: int, second: SecondOfDay)

  /** Seconds since 1970-01-01T00:00:00 local time. */
  function Timestamp(t: DateTime): int {
    t.day * SecondsPerDay + t.second
  }

  // ---------------------------------------------------------------------------
  // Durations
  // ---------------------------------------------------------------------------

  /** chrono's `Duration`, counted in seconds. */
  type Duration = int

  function Minutes(n: int): Duration { n * 60 }
  function Hours(n: int): Duration { n * 3600 }
  function Days(n: int): Duration { n * SecondsPerDay }
  function Weeks(n: int): Duration { n * 7 * SecondsPerDay }

  /** `datetime + duration`: the instant `d` seconds later (earlier when `d` is negative). */
  function Plus(t: DateTime, d: Duration): (r: DateTime)
    ensures Timestamp(r) == Timestamp(t) + d
  {
    var total := Timestamp(t) + d;
    DateTime(total / SecondsPerDay, total % SecondsPerDay)
  }

  /** Two instants with the same timestamp are the same instant. */
  lemma TimestampInjective(a: DateTime, b: DateTime)
    requires Timestamp(a) == Timestamp(b)
    ensures a == b
  {
    assert (a.day - b.day) * SecondsPerDay == b.second - a.second;
  }

  /** Adding whole days moves the calendar day and keeps the time of day. */
  lemma PlusDays(t: DateTime, n: int)
    ensures Plus(t, Days(n)) == DateTime(t.day + n, t.second)
  {
    TimestampInjective(Plus(t, Days(n)), DateTime(t.day + n, t.second));
  }

  /** Adding whole weeks moves the calendar day by seven per week and keeps the time of day. */
  lemma PlusWeeks(t: DateTime, n: int)
    ensures Plus(t, Weeks(n)) == DateTime(t.day + 7 * n, t.second)
  {
    assert Weeks(n) == Days(7 * n);
    PlusDays(t, 7 * n);
  }

  // ---------------------------------------------------------------------------
  // Time of day
  // ---------------------------------------------------------------------------

  /** The second of the day at which `hour:minute:00` falls. */
  function TimeOfDay(hour: nat, minute: nat): SecondOfDay
    requires hour < 24 && minute < 60
  {
    hour * 3600 + minute * 60
  }

  function HourOf(t: DateTime): int { t.second / 3600 }
  function MinuteOf(t: DateTime): int { t.second % 3600 / 60 }
  function SecondOf(t: DateTime): int { t.second % 60 }

  // ---------------------------------------------------------------------------
  // Weekdays
  // ---------------------------------------------------------------------------

  datatype Weekday = Mon | Tue | Wed | Thu | Fri | Sat | Sun

  /** `Weekday::num_days_from_sunday`. */
  function NumDaysFromSunday(w: Weekday): (n: nat)
    ensures n < 7
  {
    match w
    case Sun => 0
    case Mon => 1
    case Tue => 2
    case Wed => 3
    case Thu => 4
    case Fri => 5
    case Sat => 6
  }

  /** The weekday `n` days after Sunday. */
  function WeekdayFromSunday(n: int): (w: Weekday)
    requires 0 <= n < 7
    ensures NumDaysFromSunday(w) == n
  {
    if n == 0 then Sun
    else if n == 1 then Mon
    else if n == 2 then Tue
    else if n == 3 then Wed
    else if n == 4 then Thu
    else if n == 5 then Fri
    else Sat
  }

  /** Weekdays are told apart by their distance from Sunday. */
  lemma NumDaysFromSundayInjective(a: Weekday, b: Weekday)
    ensures NumDaysFromSunday(a) == NumDaysFromSunday(b) ==> a == b
  {
  }

  /** `datetime.weekday()`; 1970-01-01 was a Thursday. */
  function WeekdayOf(t: DateTime): (w: Weekday)
    ensures NumDaysFromSunday(w) == (t.day + 4) % 7
  {
    WeekdayFromSunday((t.day + 4) % 7)
  }

  /** The week, running Sunday to Saturday, that holds `t`; week 0 holds 1970-01-01. */
  function WeekOf(t: DateTime): int {
    (t.day + 4) / 7
  }

  /** A day is the Sunday that starts its week plus its distance from that Sunday. */
  lemma WeekDecomposition(t: DateTime)
    ensures t.day + 4 == 7 * WeekOf(t) + NumDaysFromSunday(WeekdayOf(t))
  {
  }

  /** The week and the weekday together determine the day. */
  lemma WeekAndWeekdayDetermineDay(a: DateTime, b: DateTime)
    requires WeekOf(a) == WeekOf(b) && WeekdayOf(a) == WeekdayOf(b)
    ensures a.day == b.day
  {
    WeekDecomposition(a);
    WeekDecomposition(b);
  }

  // ---------------------------------------------------------------------------
  // Calendar dates (proleptic Gregorian, as chrono's NaiveDate)
  // ---------------------------------------------------------------------------

  predicate IsLeapYear(y: int) {
    y % 4 == 0 && (y % 100 != 0 || y % 400 == 0)
  }

  function DaysInYear(y: int): int {
    if IsLeapYear(y) then 366 else 365
  }

  function DaysInMonth(y: int, m: int): int
    requires 1 <= m <= 12
  {
    if m == 2 then (if IsLeapYear(y) then 29 else 28)
    else if m == 4 || m == 6 || m == 9 || m == 11 then 30
    else 31
  }

  datatype Date = Date(year: int, month: int, day: int)

  predicate ValidDate(d: Date) {
    1 <= d.month <= 12 && 1 <= d.day <= DaysInMonth(d.year, d.month)
  }

  /** Days of year `y` before the first of month `m`; month 13 stands for the next new year's day. */
  function DaysBeforeMonth(y: int, m: int): int
    requires 1 <= m <= 13
  {
    var common :=
      if m == 1 then 0 else if m == 2 then 31 else if m == 3 then 59
      else if m == 4 then 90 else if m == 5 then 120 else if m == 6 then 151
      else if m == 7 then 181 else if m == 8 then 212 else if m == 9 then 243
      else if m == 10 then 273 else if m == 11 then 304 else if m == 12 then 334
      else 365;
    if m > 2 && IsLeapYear(y) then common + 1 else common
  }

  lemma DaysBeforeMonthStep(y: int, m: int)
    requires 1 <= m <= 12
    ensures DaysBeforeMonth(y, m + 1) == DaysBeforeMonth(y, m) + DaysInMonth(y, m)
    ensures DaysBeforeMonth(y, 13) == DaysInYear(y)
  {
  }

  /** Leap years before year `y`, counted from year 0 (negative for years before 0). */
  function LeapYearsBefore(y: int): int {
    (y - 1) / 4 - (y - 1) / 100 + (y - 1) / 400
  }

  /** Days from 1970-01-01 to the first day of year `y` (negative before 1970). */
  function DaysBeforeYear(y: int): int {
    365 * (y - 1970) + LeapYearsBefore(y) - LeapYearsBefore(1970)
  }

  /** A quotient grows by one exactly when the dividend reaches a multiple of the divisor. */
  lemma DivisionSteps(y: int)
    ensures y / 4 - (y - 1) / 4 == if y % 4 == 0 then 1 else 0
    ensures y / 100 - (y - 1) / 100 == if y % 100 == 0 then 1 else 0
    ensures y / 400 - (y - 1) / 400 == if y % 400 == 0 then 1 else 0
  {
  }

  /** Year `y` adds one to the count of leap years exactly when it is a leap year. */
  lemma LeapYearsStep(y: int)
    ensures LeapYearsBefore(y + 1) == LeapYearsBefore(y) + if IsLeapYear(y) then 1 else 0
  {
    DivisionSteps(y);
  }

  lemma DaysBeforeNextYear(y: int)
    ensures DaysBeforeYear(y + 1) == DaysBeforeYear(y) + DaysInYear(y)
  {
    LeapYearsStep(y);
  }

  lemma {:induction false} DaysBeforeYearMonotone(a: int, b: int)
    ensures a <= b ==> DaysBeforeYear(a) <= DaysBeforeYear(b)
    decreases if a <= b then b - a else 0
  {
    if a < b {
      DaysBeforeNextYear(a);
      DaysBeforeYearMonotone(a + 1, b);
    }
  }

  /** The local day number of a calendar date. */
  function DayNumber(d: Date): int
    requires ValidDate(d)
  {
    DaysBeforeYear(d.year) + DaysBeforeMonth(d.year, d.month) + d.day - 1
  }

  lemma DayNumberWithinYear(d: Date)
    requires ValidDate(d)
    ensures DaysBeforeYear(d.year) <= DayNumber(d) < DaysBeforeYear(d.year + 1)
  {
    DaysBeforeMonthStep(d.year, d.month);
    DaysBeforeNextYear(d.year);
  }

  /**
   * A 400-year cycle has 146097 days, so 400 times the days before a year stay
   * close to 146097 days per 400 years since 1970.
   */
  lemma DaysBeforeYearNearAverage(y: int)
    ensures -506 <= 400 * DaysBeforeYear(y) - 146097 * (y - 1970) <= 589
  {
    var before := y - 1;
    assert 400 * (before / 4) == 100 * before - 100 * (before % 4);
    assert 400 * (before / 100) == 4 * before - 4 * (before % 100);
    assert 400 * (before / 400) == before - before % 400;
  }

  /**
   * The year holding `day`: the average length of a year gives a first guess
   * that is the year itself or the one after it.
   */
  ghost function YearOf(day: int): (y: int)
    ensures DaysBeforeYear(y) <= day < DaysBeforeYear(y + 1)
  {
    var guess := 1970 + (400 * day + 506) / 146097;
    DaysBeforeYearNearAverage(guess - 1);
    DaysBeforeYearNearAverage(guess);
    DaysBeforeYearNearAverage(guess + 1);
    if DaysBeforeYear(guess) <= day then guess else guess - 1
  }

  /** No month is longer than 31 days, and none but February shorter than 30. */
  lemma MonthsBefore(y: int, m: int)
    requires 1 <= m <= 13
    ensures DaysBeforeMonth(y, m) <= 31 * (m - 1)
    ensures m <= 11 ==> 31 * m <= DaysBeforeMonth(y, m + 2)
  {
  }

  /**
   * The date of day-of-year `doy` in year `y`: a month of 31 days gives a
   * first guess that is the month itself or the one before it.
   */
  ghost function DateInYear(y: int, doy: int): (d: Date)
    requires 0 <= doy < DaysInYear(y)
    ensures ValidDate(d) && d.year == y && DaysBeforeMonth(y, d.month) + d.day - 1 == doy
  {
    var guess := doy / 31 + 1;
    MonthsBefore(y, guess);
    DaysBeforeMonthStep(y, guess);
    assert DaysBeforeMonth(y, 13) == DaysInYear(y) by {
      DaysBeforeMonthStep(y, 12);
    }
    var m := if guess == 12 || doy < DaysBeforeMonth(y, guess + 1) then guess else guess + 1;
    DaysBeforeMonthStep(y, m);
    Date(y, m, doy - DaysBeforeMonth(y, m) + 1)
  }

  /** Different valid dates have different day numbers. */
  lemma DayNumberInjective(a: Date, b: Date)
    requires ValidDate(a) && ValidDate(b) && DayNumber(a) == DayNumber(b)
    ensures a == b
  {
    DayNumberWithinYear(a);
    DayNumberWithinYear(b);
    DaysBeforeYearMonotone(a.year + 1, b.year);
    DaysBeforeYearMonotone(b.year + 1, a.year);
    assert a.year == b.year;
    DaysBeforeMonthStep(a.year, a.month);
    DaysBeforeMonthStep(b.year, b.month);
  }

  /** Every day number is the day number of some valid date, found through its year. */
  lemma CivilDateExists(day: int)
    ensures exists d: Date :: ValidDate(d) && DayNumber(d) == day
  {
    var y := YearOf(day);
    DaysBeforeNextYear(y);
    var d := DateInYear(y, day - DaysBeforeYear(y));
    assert ValidDate(d) && DayNumber(d) == day;
  }

  /** At most one valid date has a given day number. */
  lemma DayNumbersDistinct()
    ensures forall a: Date, b: Date :: ValidDate(a) && ValidDate(b) && DayNumber(a) == DayNumber(b) ==> a == b
  {
    forall a: Date, b: Date | ValidDate(a) && ValidDate(b) && DayNumber(a) == DayNumber(b) {
      DayNumberInjective(a, b);
    }
  }

  /**
   * The calendar date of a local day number, `year()`, `month()` and `day()`
   * of chrono: the one valid date with that day number.
   */
  function CivilDate(day: int): (d: Date)
    ensures ValidDate(d) && DayNumber(d) == day
  {
    CivilDateExists(day);
    DayNumbersDistinct();
    var d :| ValidDate(d) && DayNumber(d) == day;
    d
  }

  /** Reading back the date of a day number gives the date. */
  lemma CivilDateOfDayNumber(d: Date)
    requires ValidDate(d)
    ensures CivilDate(DayNumber(d)) == d
  {
    DayNumberInjective(CivilDate(DayNumber(d)), d);
  }

  /** `datetime.with_year(year)`: the same month, day and time of day in another year. */
  function WithYear(t: DateTime, year: int): (r: Option<DateTime>)
    ensures r.None? <==> CivilDate(t.day).month == 2 && CivilDate(t.day).day == 29 && !IsLeapYear(year)
    ensures r.Some? ==> var target := Date(year, CivilDate(t.day).month, CivilDate(t.day).day);
      ValidDate(target) && r.value.day == DayNumber(target)
    ensures r.Some? ==> r.value.second == t.second
  {
    var c := CivilDate(t.day);
    var target := Date(year, c.month, c.day);
    if ValidDate(target) then
      Some(DateTime(DayNumber(target), t.second))
    else None
  }

  /** The date `n` months after the date of `t`, with the same day of the month, which may not exist. */
  function MonthsLater(t: DateTime, n: int): Date {
    var c := CivilDate(t.day);
    var index := c.month - 1 + n;
    Date(c.year + index / 12, index % 12 + 1, c.day)
  }

  // ---------------------------------------------------------------------------
  // Local civil times
  // ---------------------------------------------------------------------------

  /** chrono's `LocalResult`: a civil time denotes one instant, none, or two. */
  datatype LocalResult = Single(instant: DateTime) | LocalNone | Ambiguous(earliest: DateTime, latest: DateTime)

  /** An instant from its local date and time of day. */
  function At(date: Date, hour: nat, minute: nat, second: nat): DateTime
    requires ValidDate(date) && hour < 24 && minute < 60 && second < 60
  {
    DateTime(DayNumber(date), hour * 3600 + minute * 60 + second)
  }

  /** The hour, minute and second of an instant built from them are read back unchanged. */
  lemma ClockOfAt(date: Date, hour: nat, minute: nat, second: nat)
    requires ValidDate(date) && hour < 24 && minute < 60 && second < 60
    ensures HourOf(At(date, hour, minute, second)) == hour
    ensures MinuteOf(At(date, hour, minute, second)) == minute
    ensures SecondOf(At(date, hour, minute, second)) == second
  {
    var withinHour := minute * 60 + second;
    assert 0 <= withinHour < 3600;
    assert (hour * 3600 + withinHour) / 3600 == hour;
    assert (hour * 3600 + withinHour) % 3600 == withinHour;
    assert withinHour / 60 == minute;
    assert (hour * 3600 + withinHour) % 60 == second by {
      assert hour * 3600 + withinHour == (hour * 60 + minute) * 60 + second;
    }
  }

  /**
   * `Local.with_ymd_and_hms` for a zone with a fixed offset: every valid civil
   * time denotes exactly one instant, and invalid components denote none.
   */
  function LocalWithYmdHms(year: int, month: nat, day: nat, hour: nat, minute: nat, second: nat): (r: LocalResult)
    ensures !r.Ambiguous?
    ensures r.Single? <==> ValidDate(Date(year, month, day)) && hour < 24 && minute < 60 && second < 60
    ensures r.Single? ==> r.instant.day == DayNumber(Date(year, month, day))
    ensures r.Single? ==> HourOf(r.instant) == hour && MinuteOf(r.instant) == minute && SecondOf(r.instant) == second
    ensures r.Single? ==> r.instant.second == hour * 3600 + minute * 60 + second
  {
    var date := Date(year, month, day);
    if ValidDate(date) && hour < 24 && minute < 60 && second < 60 then
      ClockOfAt(date, hour, minute, second);
      Single(At(date, hour, minute, second))
    else LocalNone
  }

  /** Moving an instant built from a date to another year keeps the month, the day and the time of day. */
  lemma WithYearAt(date: Date, hour: nat, minute: nat, second: nat, year: int)
    requires ValidDate(date) && hour < 24 && minute < 60 && second < 60
    requires ValidDate(Date(year, date.month, date.day))
    ensures WithYear(At(date, hour, minute, second), year) == Some(At(Date(year, date.month, date.day), hour, minute, second))
  {
    CivilDateOfDayNumber(date);
  }

  /** The month arithmetic of `MonthsLater` on an instant built from a date. */
  lemma MonthsLaterAt(date: Date, hour: nat, minute: nat, second: nat, n: int)
    requires ValidDate(date) && hour < 24 && minute < 60 && second < 60
    ensures MonthsLater(At(date, hour, minute, second), n)
            == Date(date.year + (date.month - 1 + n) / 12, (date.month - 1 + n) % 12 + 1, date.day)
  {
    CivilDateOfDayNumber(date);
  }
}
