# natural-date-parser: a verified model of the date interpreter

natural-date-parser turns short English phrases into timestamps. Examples are
"tomorrow at 5:30 PM", "next friday", "in 3 weeks" and "9:45AM". It works in
two stages: a grammar splits the text into a tree of rule-tagged nodes, and an
interpreter (`mod date_parser` in `src/lib.rs`) resolves that tree against a
reference instant. This project models the interpreter in Dafny and proves
properties of it.

The project has six files, one module each:

- `wrappers.dfy` (`Wrappers`): `Option`.
- `numbers.dfy` (`Numbers`): the parts of Rust's `str` the interpreter uses.
  These are `trim`, `parse::<u32>` and `parse::<i32>`. Also the decimal
  spelling of a number, proved to parse back.
- `calendar.dfy` (`Calendar`): the parts of chrono the interpreter uses.
  - An instant is a day number (days since 1970-01-01, local) plus a second
    of the day.
  - Durations and the weekday (1970-01-01 was a Thursday).
  - Weeks that run Sunday to Saturday.
  - The proleptic Gregorian calendar, with its day-number round trip.
  - `with_year`, and `Local.with_ymd_and_hms` for a zone with a fixed offset.
- `natural_date_parser.dfy` (`NaturalDateParser`): the crate-level types.
  - Rule names.
  - The parse-tree node (`Pair`: rule, matched text, children).
  - `ParseDateError`, with one constructor per message the interpreter
    produces.
  - A `Result` that supports `:-` as Rust's `?`.
- `date_parser.dfy` (`DateParser`): the interpreter.
  - The resolvers that are a single `match` or `if` in the source are
    functions.
  - The five resolvers that loop over the children of a node and update
    locals are methods with loops: `process_date_expression`,
    `process_future_time`, `process_specific_time` and the two composites.
    Each is proved equal to a `Resolve…` function that folds the same steps
    over the children.
- `date_parser_properties.dfy` (`DateParserProperties`):
  - the trees the grammar produces for each expression form;
  - what the direction keywords mean in terms of weeks;
  - how times of day and durations are read, and how the composites combine
    their steps;
  - the resolutions that the repository's tests expect.

Two behaviours of the source are modelled as written, and proved:

- `shift_to_weekday` with `last` rejects every target weekday that comes
  earlier in the week than the reference, except Sunday. On a Tuesday,
  "last monday" has offset -8, which fails the `< -7` guard at
  src/lib.rs:454 (`ShiftLastRejectsEarlierWeekday`). `last` with the
  reference's own weekday goes back 7 days, except on a Sunday, where it
  stays (`ShiftLastSameWeekday`).
  - tests/utils_tests.rs:63-72 expects 7 days on every weekday, so on a
    Sunday that test fails. The model follows the code.
- `process_specific_day_and_time` passes the rule of its `specific_day` child
  to `process_weekday` (src/lib.rs:195), instead of the rule of that child's
  weekday. So every `<weekday> at <time>` fails with "Invalid weekday"
  (`ApplyDayAndTime`, `DayAndTimeExpressionFails`).

The parse tree of a duration is taken to be a `number` node followed by a
unit node (`minute_s` … `year_s`). These are the children that
`process_future_time` accepts, and the responses the reference tests expect
need exactly that shape.

## Model

| member | source | states |
|---|---|---|
| DateParser.FromStringWithReference | src/lib.rs:57-80 | a syntax error keeps the parser's message, no pairs is "No valid date expression found", a first pair of another rule is "Unexpected rule encountered", and a first `date_expression` pair is resolved by `process_date_expression`; so a success always comes from a date expression |
| DateParserProperties.FromStringErrors | src/lib.rs:61-81 | a syntax error keeps the parser's message; an empty parse is "No valid date expression found"; a first pair that is not a date expression is "Unexpected rule encountered" |
| DateParserProperties.TodayIsReference | src/lib.rs:286-288 | the whole pipeline resolves `today` to the reference instant itself |
| DateParser.ProcessDateExpression | src/lib.rs:83-130 | the loop returns exactly the dispatch function `ResolveDateExpression`: the first child it acts on, or "No date expression found" |
| DateParserProperties.DispatchPassesEmptyDay | src/lib.rs:101-106 | a `specific_day` child without a weekday child is passed over, and the dispatch continues with the next child |
| DateParserProperties.SpecificDayDetermined | src/lib.rs:358-376 | a weekday resolves to exactly one instant: the one in the reference's Sunday-started week with that weekday and the reference's time of day |
| DateParserProperties.BareWeekday | src/lib.rs:101-106 | a weekday on its own resolves to that weekday in the reference's Sunday-to-Saturday week, at the reference's time of day |
| DateParser.ProcessWeekday | src/lib.rs:378-392 | succeeds exactly for the seven weekday rules, and the weekday it gives is named by that rule; any other rule fails with InvalidWeekday(rule) |
| DateParser.ProcessSpecificDay | src/lib.rs:358-376 | fails exactly when the rule is not a weekday; otherwise the result has that weekday, is in the same Sunday-started week, is at most 6 days away and keeps the time of day |
| DateParser.ShiftToWeekday | src/lib.rs:417-464 | succeeds exactly for `next`, `this`, and for `last` with Sunday or a weekday no earlier in the week; on success the result has the target weekday, is the reference plus the computed whole days and keeps the time of day; otherwise the error names the direction |
| DateParserProperties.ShiftNext | src/lib.rs:428-434 | `next` always succeeds. It gives a day 1 to 13 days ahead in the following week, or for Sunday 8 to 14 days ahead, two weeks on |
| DateParserProperties.ShiftThis | src/lib.rs:443-450 | `this` always succeeds. It gives the first day from the reference on (0 to 6 days) with the target weekday, and the reference itself for its own weekday |
| DateParserProperties.ShiftLast | src/lib.rs:436-442 | `last` succeeds exactly for Sunday, giving the Sunday that starts the reference's week, and for a weekday no earlier in the week, giving that weekday of the previous week (1 to 7 days back) |
| DateParserProperties.ShiftLastRejectsEarlierWeekday | src/lib.rs:454-459 | on a Tuesday, "last monday" has offset -8 and is rejected |
| DateParserProperties.ShiftLastSameWeekday | src/lib.rs:436-442 | `last` with the reference's own weekday is 7 days back, or the same day on a Sunday |
| DateParserProperties.ShiftNextSamples | tests/utils_tests.rs:47-61 | from Monday 2024-11-11 at noon, next friday is 2024-11-22 and next monday 2024-11-18, at noon |
| DateParser.ProcessRelativeDate | src/lib.rs:232-275 | a node with other than two children, or with children of the wrong rules, fails with its own error; on success the result has the weekday named under the `specific_day` child and keeps the time of day |
| DateParserProperties.RelativeDateOfNode | src/lib.rs:238-251 | `<direction> <weekday>` resolves exactly as `shift_to_weekday` with that direction and weekday |
| DateParser.ProcessRelativeTerm | src/lib.rs:277-304 | tomorrow is one whole day later and yesterday one day earlier, both at the same time of day; today is unchanged; any other term, or none, fails with its own error |
| DateParser.ProcessIsPm | src/lib.rs:466-477 | `pm` gives true and `am` false, exactly; anything else gives no answer |
| DateParser.ChangeTime | src/lib.rs:394-415 | succeeds exactly when hour < 24 and minute < 60, otherwise "Invalid date or time components"; the result is on the same calendar date at hour:minute:00 |
| DateParser.TimeStep | src/lib.rs:316-343 | one child of a time never stores an hour above 23, and fails only with the errors of the time reader |
| DateParser.ReadClock | src/lib.rs:315-344 | reading the children in order keeps the stored hour at 23 or below |
| DateParser.ResolveSpecificTime | src/lib.rs:306-356 | a resolved time keeps the date and has zero seconds; the only failures are the reader's own errors and an impossible minute |
| DateParser.ProcessSpecificTime | src/lib.rs:306-356 | the loop and normalisation compute exactly `ResolveSpecificTime` |
| DateParserProperties.To24HourReadsTwelveHourClock | src/lib.rs:347-351 | for an hour from 1 to 12, the 24-hour reading is the same hour of the 12-hour clock, in the afternoon exactly when PM is written |
| DateParserProperties.To24HourKeepsAfternoonHours | src/lib.rs:347-351 | hours from 13 on are kept, and an hour of 23 or below stays within the day |
| DateParserProperties.SpecificTimeRejectsHour | src/lib.rs:318-328 | an hour above 23 fails, with "Failed to parse hour" when it does not fit in a `u32` and "Invalid hour" otherwise, whatever minute and suffix follow |
| DateParserProperties.SpecificTimeOfMinute | src/lib.rs:330-353 | with an hour of the day, an unparsable minute fails, a minute from 60 on fails in `change_time`, and any other minute gives the normalised hour and that minute on the reference's date |
| DateParserProperties.SpecificTimeOfNode | src/lib.rs:318-353 | for `<hour>[:<minute>] [am/pm]`: an unparsable hour fails; an hour over 23 is "Invalid hour"; a missing minute is 0 and a missing suffix is AM; a minute of 60 or more fails in `change_time`; otherwise the day is kept at the normalised hour and minute |
| DateParserProperties.NineFortyFiveAm | tests/processing_tests.rs:172-184 | `9:45AM` is 09:45 on the reference's date, for every reference |
| DateParserProperties.FiveThirtyPm | tests/processing_tests.rs:187-197 | `5:30PM` is 17:30 on the reference's date |
| DateParserProperties.MidnightAm | tests/processing_tests.rs:200-209 | `12:00AM` is 00:00 on the reference's date |
| DateParserProperties.NoonPm | tests/processing_tests.rs:212-221 | `12:00PM` is 12:00 on the reference's date |
| DateParser.AmountStep | src/lib.rs:140-157 | one child of a duration keeps the count within `i32` and the unit a unit rule, and fails only with "Invalid duration value" or "Unexpected rule" |
| DateParser.ReadAmount | src/lib.rs:139-158 | reading the children in order keeps the count within `i32` and the unit a unit rule |
| DateParser.AddMonths | src/lib.rs:166-168 | fails with "Invalid month adjustment" exactly when the month shift gives no instant, and otherwise is that instant |
| DateParser.AddYears | src/lib.rs:169-175 | fails with "Invalid year adjustment" exactly for February 29 into a common year; otherwise the result is the same month and day in the shifted year, at the same time of day |
| DateParser.AddUnits | src/lib.rs:160-179 | minutes, hours, days and weeks add exactly that many seconds or whole days; months are the month shift or "Invalid month adjustment"; years keep month, day and time and fail exactly from February 29 into a common year; any other rule is "Invalid time unit" |
| DateParser.ResolveFutureTime | src/lib.rs:132-186 | the "Invalid time unit" branch is never reached |
| DateParser.ProcessFutureTime | src/lib.rs:132-186 | the loop and the unit match compute exactly `ResolveFutureTime` |
| DateParserProperties.FutureTimeOfNode | src/lib.rs:139-179 | `in <n> <unit>` adds n units when n fits in an `i32`, and otherwise fails with "Invalid duration value" |
| DateParserProperties.ReadAmountWithoutUnit | src/lib.rs:146-153 | without a unit child the amount keeps the unit it started with |
| DateParserProperties.FutureTimeNeedsUnit | src/lib.rs:160-185 | a duration without a unit child fails, and when its children are read without error the failure is "Time unit not provided" |
| DateParserProperties.NumberWithoutUnit | src/lib.rs:139-185 | `in <n>` with no unit is "Time unit not provided" when n fits in an `i32`, and "Invalid duration value" otherwise |
| DateParserProperties.WrappedUnitRejected | src/lib.rs:140-156 | a `time_unit` child is none of the rules the duration loop accepts, so reading the children fails with "Unexpected rule" |
| DateParserProperties.FutureTimeOfAmount | src/lib.rs:139-185 | a duration adds the count and unit read off its children, or fails with the reader's error, or with "Time unit not provided" when no unit was read |
| DateParserProperties.FutureExpression | src/lib.rs:61-81 | the whole pipeline resolves `in <n> <unit>` to n units after the reference, for every count that fits in an `i32` |
| DateParserProperties.AddFifteenMinutes | tests/reference_tests.rs:6-15 | 15 minutes after 2025-09-07 21:00 is 21:15 that day |
| DateParserProperties.InFifteenMinutes | tests/reference_tests.rs:6-15 | on the future-time node, from 2025-09-07 21:00, `in 15 minutes` is 21:15 that day |
| DateParserProperties.AddOneHour | tests/reference_tests.rs:17-26 | 1 hour after 2025-09-07 21:00 is 22:00 that day |
| DateParserProperties.InOneHour | tests/reference_tests.rs:17-26 | on the future-time node, from 2025-09-07 21:00, `in 1 hour` is 22:00 that day |
| DateParserProperties.AddThreeDays | tests/reference_tests.rs:28-37 | 3 days after 2025-09-07 21:00 is 2025-09-10 21:00 |
| DateParserProperties.InThreeDays | tests/reference_tests.rs:28-37 | on the future-time node, from 2025-09-07 21:00, `in 3 days` is 2025-09-10 21:00 |
| DateParserProperties.AddFiveWeeks | tests/reference_tests.rs:39-48 | 5 weeks after 2025-09-07 21:00 is 2025-10-12 21:00 |
| DateParserProperties.InFiveWeeks | tests/reference_tests.rs:39-48 | on the future-time node, from 2025-09-07 21:00, `in 5 weeks` is 2025-10-12 21:00 |
| DateParserProperties.AddMonthsAt | tests/reference_tests.rs:50-59 | for a month shift that keeps the day of the month when it exists, n months after a date and time are the same day and time, n months on (so 2025-09-07 21:00 plus 2 months is 2025-11-07 21:00) |
| DateParserProperties.AddYearsAt | tests/reference_tests.rs:61-70 | n years after a date and time are the same month, day and time n years on (so 2025-09-07 21:00 plus 12 years is 2037-09-07 21:00), and "Invalid year adjustment" when that date does not exist, as from 2024-02-29 into 2025 |
| DateParser.ApplyDayAndTime | src/lib.rs:192-208 | any `specific_day` child makes the composite fail, and a success means every child was a time |
| DateParser.ProcessSpecificDayAndTime | src/lib.rs:188-209 | the loop computes exactly `ResolveSpecificDayAndTime` |
| DateParserProperties.SpecificDayAndTimeRejectsWeekday | src/lib.rs:194-196 | `<weekday> …` fails with InvalidWeekday(specific_day), whatever follows |
| DateParserProperties.DayAndTimeNodeFails | src/lib.rs:192-196 | the `<weekday> at <time>` node fails with InvalidWeekday(specific_day) for any weekday and time |
| DateParserProperties.DayAndTimeExpressionFails | src/lib.rs:107-110 | the whole pipeline rejects `<weekday> at <time>` for every weekday, time and reference |
| DateParser.ProcessRelativeDayAndSpecificTime | src/lib.rs:211-230 | the loop computes exactly `ResolveRelativeDayAndSpecificTime` |
| DateParserProperties.RelativeDayAndTimeAppend | src/lib.rs:215-229 | the steps compose in child order: the children `a + b` act as `a` then `b`, and an error in `a` is final |
| DateParserProperties.RelativeDayAndTimeSkips | src/lib.rs:226 | a child that is not a relative date, relative term or time changes nothing |
| DateParserProperties.TermThenTime | src/lib.rs:215-229 | a relative term followed by a time sets the time on the day the term names |
| DateParserProperties.TomorrowTerm | src/lib.rs:283-285 | `tomorrow` is the next day at the same time of day |
| DateParserProperties.TomorrowAt | src/lib.rs:211-230 | `tomorrow at <time>` sets the time on the next day (with `FiveThirtyPm`, tomorrow at 5:30 PM is the next day at 17:30) |
| Numbers.ParseU32OfDecimal | src/lib.rs:318-331 | the digits of a number parse back as a `u32` exactly when it fits in 32 bits |
| Numbers.ParseU32 | src/lib.rs:318-332 | a parsed value fits in 32 bits; an empty string, a lone `+` and any string starting with `-` are rejected |
| Numbers.ParseI32 | src/lib.rs:142 | a parsed value lies within the `i32` range; an empty string and a lone sign are rejected |
| Numbers.ParseI32OfNegatedDecimal | src/lib.rs:142 | `-` followed by the digits of n parses back as -n exactly when n is at most 2^31 |
| Numbers.ParseI32OfDecimal | src/lib.rs:142-144 | the digits of a number parse back as an `i32` exactly when it is at most 2^31 - 1 |
| Numbers.Trim | src/lib.rs:142 | the result is a slice of the input with only whitespace cut off before and after it, and it has no whitespace at either end; a string without any is unchanged |
| Calendar.Plus | src/lib.rs:162-165 | adding a duration adds exactly that many seconds to the timestamp |
| Calendar.WeekdayOf | src/lib.rs:421-424 | the weekday, as days from Sunday, follows the day number with 1970-01-01 a Thursday |
| Calendar.CivilDate | src/lib.rs:400-404 | the calendar date of a day number is a valid date with that day number |
| Calendar.DayNumberInjective | src/lib.rs:400-404 | different valid dates have different day numbers, so the calendar date of a day number is unique |
| Calendar.CivilDateOfDayNumber | src/lib.rs:400-404 | the date read back from a date's day number is that date |
| Calendar.WithYear | src/lib.rs:169-175 | changing the year keeps month, day and time of day, and fails exactly for February 29 into a common year |
| Calendar.LocalWithYmdHms | src/lib.rs:400-414 | a local civil time is a single instant exactly when the date exists and the time of day is in range; that instant has those components; with a fixed offset it is never ambiguous |

## Left out

- The grammar. The interpreter is modelled from the parse tree on: `ParseOutcome` stands for what the structural parser returns, and its error message is carried through unchanged. The trees in `DateParserProperties` are the shapes the interpreter expects.
- Time zones. `Local` is a zone with a fixed offset, so a civil time never denotes two instants and the "Ambiguous date and time" branch of `change_time` is never reached. Daylight-saving gaps and overlaps are not modelled.
- DateParser.AddUnits: chronoutil's `shift_months_opt` is not part of this model. The month shift is a parameter of the interpreter, so only its error wrapping is proved. `AddMonthsAt`, which covers the "in 2 months" test, holds for any shift that keeps the day of the month whenever that day exists. What the shift does when that day does not exist is not modelled.
- The duration tests call `from_string_with_reference` on text. The model proves them on the duration node (`InFifteenMinutes` … `AddYearsAt`) and lifts any duration node to the whole pipeline once (`FutureExpression`).
- Integer widths and panics. Counts, years and timestamps are unbounded integers. The following are left out:
  - the `i32` overflow of `year() + duration`;
  - the panic of `datetime + Duration` outside chrono's range;
  - chrono's year range, outside which `with_year` would fail.
  A duration count is still checked to fit in an `i32`, as `parse::<i32>` does.
- DateParser.ProcessRelativeDate: the `unwrap()` on the last child of `next_or_last` (src/lib.rs:245) panics when that node is empty. The model requires instead that every relative date in the tree has a direction child (`DirectionsPresent`).
- `from_string`, which reads the clock with `Local::now()`. The model has only `from_string_with_reference`.
- The command-line program in src/main.rs.
- Error message text. Each ParseDateError constructor stands for one message. An error text that embeds a `Debug` or `Display` rendering keeps only the rule, hour or direction it names.
- The tree lemmas in `DateParserProperties` spell each number in its shortest decimal form (`DecimalText`). The grammar also accepts leading zeros, as in `01:45PM`. The interpreter functions read any spelling, but those tree lemmas do not cover them.
- Numbers.Trim: only ASCII space, tab, newline and carriage return count as whitespace, not the rest of Unicode's White_Space set.
- Tests that no longer match the grammar or the API are not restated. Examples: the `relative_date` and relative-term tests at tests/processing_tests.rs:260-322, and the specific-date tests at tests/reference_tests.rs:86-95.
