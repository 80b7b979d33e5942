/**
 * What the crate root of natural-date-parser declares for the interpreter:
 * the grammar's rule names, the parse-tree node the structural parser hands
 * over (pest's `Pair<Rule>`), and the one error type, `ParseDateError`.
 */
module NaturalDateParser {

  /** The grammar rules the interpreter distinguishes. */
  datatype Rule =
    | EOI
    | DateExpression
    | RelativeDate | RelativeTerm | SpecificTime | SpecificDay
    | SpecificDayAndTime | RelativeDayAndSpecificTime | FutureTime
    | NextOrLast | Next | Last | This
    | Monday | Tuesday | Wednesday | Thursday | Friday | Saturday | Sunday
    | Today | Tomorrow | Yesterday
    | Hour | Minute | AmPm | Am | Pm
    | Number | TimeUnit | MinuteS | HourS | DayS | WeekS | MonthS | YearS

  /** A node of the parse tree: its rule, the text it matched, and its children in order. */
  datatype Pair = Pair(rule: Rule, span: string, inner: seq<Pair>)

  /** What the structural parser returns: the top-level pairs, or its error text. */
  datatype ParseOutcome = Parsed(pairs: seq<Pair>) | SyntaxError(message: string)

  /**
   * `ParseDateError::ParseError(message)`; each constructor stands for one of
   * the messages the interpreter produces.
   */
  datatype ParseDateError =
    | Syntax(message: string)                 // the structural parser's own message
    | UnexpectedRuleEncountered
    | NoValidDateExpressionFound
    | NoDateExpressionFound
    | InvalidDurationValue
    | UnexpectedRule
    | InvalidMonthAdjustment
    | InvalidYearAdjustment
    | InvalidTimeUnit
    | TimeUnitNotProvided
    | UnexpectedRuleInSpecificDateAndTime(rule: Rule)
    | UnrecognizedRelativeDate
    | StructureMismatchForRelativeDate
    | UnexpectedNumberOfInnerPairs
    | UnexpectedRelativeTerm
    | InvalidRelativeTerm
    | FailedToParseHour
    | InvalidHour(hour: nat)
    | FailedToParseMinute
    | UnexpectedRuleInSpecificTime
    | InvalidWeekday(day: Rule)
    | InvalidDateOrTimeComponents
    | AmbiguousDateAndTime
    | ExpectedLastThisOrNext(direction: Rule)

  /** `Result<T, ParseDateError>`, usable with `:-` as Rust's `?`. */
  datatype Result<+T> = Ok(value: T) | Err(error: ParseDateError) {

    predicate IsFailure() {
      Err?
    }

    function PropagateFailure<U>(): Result<U>
      requires Err?
    {
      Err(error)
    }

    function Extract(): T
      requires Ok?
    {
      value
    }
  }

  /**
   * The shape the interpreter unwraps without a check (the direction of a
   * relative date): a `next_or_last` node followed by a `specific_day` node
   * has a child naming the direction.
   */
  predicate HasDirection(p: Pair) {
    |p.inner| == 2 && p.inner[0].rule == NextOrLast && p.inner[1].rule == SpecificDay
    ==> |p.inner[0].inner| > 0
  }

  /** Every `relative_date` node in the tree has the shape `HasDirection` describes. */
  predicate DirectionsPresent(p: Pair)
    decreases p
  {
    && (p.rule == RelativeDate ==> HasDirection(p))
    && forall i :: 0 <= i < |p.inner| ==> DirectionsPresent(p.inner[i])
  }
}
