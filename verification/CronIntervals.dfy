/** The simple schedules of the frontend, printed as cron text and read back (src/reports/cron-helper.service.ts). */
module CronIntervals {
  import opened Wrappers
  import opened Strings
  import opened Calendar
  import opened CronHelper
  import opened CronBounds

  datatype SimpleInterval = Daily | Weekly | Monthly

  datatype ScheduleInput = ScheduleInput(
    cron: Option<string>,
    interval: Option<SimpleInterval>,
    hour: Option<int>,
    dayOfWeek: Option<int>,
    dayOfMonth: Option<int>)

  function OrElse(o: Option<int>, default: int): int {
    if o.Some? then o.value else default
  }

  function Clamp(n: int, min: int, max: int): (r: int)
    requires min <= max
    ensures min <= r <= max && (min <= n <= max ==> r == n)
  {
    var upper := if n < max then n else max;
    if upper < min then min else upper
  }

  /** The five fields of a simple schedule. */
  function SimpleFields(interval: SimpleInterval, hour: int, dayOfWeek: int, dayOfMonth: int): (fields: seq<string>)
    ensures |fields| == 5
  {
    var h := Decimal(Clamp(hour, 0, 23));
    match interval
    case Daily => ["0", h, "*", "*", "*"]
    case Weekly => ["0", h, "*", "*", Decimal(Clamp(dayOfWeek, 0, 6))]
    case Monthly => ["0", h, Decimal(Clamp(dayOfMonth, 1, 28)), "*", "*"]
  }

  /** `intervalToCron`. */
  function IntervalToCron(interval: SimpleInterval, hour: int, dayOfWeek: int, dayOfMonth: int): string {
    Join(SimpleFields(interval, hour, dayOfWeek, dayOfMonth), ' ')
  }

  /** `resolve`: the advanced text when not blank, else the interval, else Monday at 08:00. */
  function Resolve(input: ScheduleInput): Result<string, CronError> {
    if input.cron.Some? && Trim(input.cron.value) != "" then
      var text := Trim(input.cron.value);
      match CronFault(text)
      case Some(e) => Err(e)
      case None => Ok(text)
    else if input.interval.Some? then
      Ok(IntervalToCron(input.interval.value, OrElse(input.hour, 8), OrElse(input.dayOfWeek, 1),
                        OrElse(input.dayOfMonth, 1)))
    else Ok("0 8 * * 1")
  }

  lemma SimpleFieldsPlain(interval: SimpleInterval, hour: int, dayOfWeek: int, dayOfMonth: int)
    ensures var fields := SimpleFields(interval, hour, dayOfWeek, dayOfMonth);
            forall i :: 0 <= i < 5 ==> PlainWord(fields[i])
  {
    var h, w, d := Decimal(Clamp(hour, 0, 23)), Decimal(Clamp(dayOfWeek, 0, 6)), Decimal(Clamp(dayOfMonth, 1, 28));
    assert PlainWord("0") && PlainWord("*");
    assert PlainWord(h) && PlainWord(w) && PlainWord(d) by {
      ToNumberDecimal(Clamp(hour, 0, 23));
      ToNumberDecimal(Clamp(dayOfWeek, 0, 6));
      ToNumberDecimal(Clamp(dayOfMonth, 1, 28));
    }
    assert forall f :: f in SimpleFields(interval, hour, dayOfWeek, dayOfMonth) ==> f in {"0", "*", h, w, d};
  }

  /** The text of a simple schedule splits back into its five fields. */
  lemma SimpleFieldsReadBack(interval: SimpleInterval, hour: int, dayOfWeek: int, dayOfMonth: int)
    ensures CronFields(IntervalToCron(interval, hour, dayOfWeek, dayOfMonth))
         == SimpleFields(interval, hour, dayOfWeek, dayOfMonth)
  {
    var fields := SimpleFields(interval, hour, dayOfWeek, dayOfMonth);
    SimpleFieldsPlain(interval, hour, dayOfWeek, dayOfMonth);
    WordsJoin(fields);
    TrimEdges(Join(fields, ' '));
  }

  /** A printed number is a valid single-number field for its own value (and, printed as 7, also for 0). */
  lemma NumeralField(n: nat, b: Bounds, value: int, min: int)
    requires b.min <= n <= b.max
    ensures ValidField(Decimal(n), b)
    ensures Matches(value, Decimal(n), min) <==> value == n || (n == 7 && value == 0)
    ensures OnlySevens(Decimal(n)) <==> false
  {
    ToNumberDecimal(n);
    var text := Decimal(n);
    assert forall i :: 0 <= i < |text| ==> IsDigit(text[i]);
    assert '*' !in text && '/' !in text && '-' !in text && ',' !in text;
    if text == "7" {
      assert DigitsValue("7") == 7;
    }
    if n == 7 {
      assert text == "7";
    }
  }

  lemma SimpleIsValid(interval: SimpleInterval, hour: int, dayOfWeek: int, dayOfMonth: int)
    ensures ValidFields(SimpleFields(interval, hour, dayOfWeek, dayOfMonth))
  {
    var fields := SimpleFields(interval, hour, dayOfWeek, dayOfMonth);
    forall i | 0 <= i < 5
      ensures ValidField(fields[i], BOUNDS[i])
    {
      if fields[i] != "*" {
        assert Decimal(0) == "0";
        var n := if i == 0 then 0 else if i == 1 then Clamp(hour, 0, 23)
                 else if i == 2 then Clamp(dayOfMonth, 1, 28) else Clamp(dayOfWeek, 0, 6);
        assert fields[i] == Decimal(n) && BOUNDS[i].min <= n <= BOUNDS[i].max;
        NumeralField(n, BOUNDS[i], 0, 0);
      }
    }
  }

  /** Whatever `resolve` returns passes validation; without advanced text it never fails. */
  lemma ResolveIsValid(input: ScheduleInput)
    ensures Resolve(input).Ok? ==> ValidCron(Resolve(input).value)
    ensures (input.cron.None? || Trim(input.cron.value) == "") ==> Resolve(input).Ok?
  {
    if input.cron.Some? && Trim(input.cron.value) != "" {
    } else if input.interval.Some? {
      var h, w, d := OrElse(input.hour, 8), OrElse(input.dayOfWeek, 1), OrElse(input.dayOfMonth, 1);
      SimpleFieldsReadBack(input.interval.value, h, w, d);
      SimpleIsValid(input.interval.value, h, w, d);
      CronFaultMeaning(IntervalToCron(input.interval.value, h, w, d));
    } else {
      DefaultIsMonday();
      SimpleFieldsReadBack(Weekly, 8, 1, 1);
      SimpleIsValid(Weekly, 8, 1, 1);
      CronFaultMeaning("0 8 * * 1");
    }
  }

  lemma DefaultIsMonday()
    ensures IntervalToCron(Weekly, 8, 1, 1) == "0 8 * * 1"
  {
    var f := SimpleFields(Weekly, 8, 1, 1);
    assert DigitOf(8) == '8' && DigitOf(1) == '1';
    assert Decimal(8) == "8" && Decimal(1) == "1";
    assert f == ["0", "8", "*", "*", "1"];
    assert Join(f[3..], ' ') == "* 1";
    assert Join(f[2..], ' ') == "* * 1";
    assert Join(f[1..], ' ') == "8 * * 1";
  }

  /**
   * What `resolve` answers: the advanced text itself, trimmed, if it is there and valid; else the interval at the given
   * hour and days, by default 8 and the first; else Mondays at 8.
   */
  lemma ResolveMeans(input: ScheduleInput)
    ensures input.cron.Some? && Trim(input.cron.value) != "" ==>
              && (Resolve(input).Ok? <==> ValidCron(Trim(input.cron.value)))
              && (Resolve(input).Ok? ==> Resolve(input).value == Trim(input.cron.value))
              && (Resolve(input).Err? ==> Some(Resolve(input).error) == CronFault(Trim(input.cron.value)))
    ensures (input.cron.None? || Trim(input.cron.value) == "") && input.interval.Some? ==>
              exists h, w, d ::
                && (if input.hour.Some? then input.hour == Some(h) else h == 8)
                && (if input.dayOfWeek.Some? then input.dayOfWeek == Some(w) else w == 1)
                && (if input.dayOfMonth.Some? then input.dayOfMonth == Some(d) else d == 1)
                && Resolve(input).Ok?
                && CronFields(Resolve(input).value) == SimpleFields(input.interval.value, h, w, d)
    ensures (input.cron.None? || Trim(input.cron.value) == "") && input.interval.None? ==>
              Resolve(input).Ok? && CronFields(Resolve(input).value) == ["0", "8", "*", "*", "1"]
  {
    if input.interval.Some? {
      var h, w, d := OrElse(input.hour, 8), OrElse(input.dayOfWeek, 1), OrElse(input.dayOfMonth, 1);
      SimpleFieldsReadBack(input.interval.value, h, w, d);
    } else {
      DefaultIsMonday();
      SimpleFieldsReadBack(Weekly, 8, 1, 1);
      assert Decimal(8) == "8" && Decimal(1) == "1";
    }
  }

  /** The minutes the documentation promises for a simple schedule. */
  ghost predicate Documented(interval: SimpleInterval, hour: int, dayOfWeek: int, dayOfMonth: int, u: int) {
    && MinuteOf(u) == 0 && HourOf(u) == Clamp(hour, 0, 23)
    && (interval.Weekly? ==> WeekdayOf(u) == Clamp(dayOfWeek, 0, 6))
    && (interval.Monthly? ==> DateOf(u).day == Clamp(dayOfMonth, 1, 28))
  }

  /** The minutes at which it fires: as documented, and with hour 7 also at midnight on the same days. */
  lemma SimpleFiresAt(interval: SimpleInterval, hour: int, dayOfWeek: int, dayOfMonth: int, u: int)
    ensures var fields := SimpleFields(interval, hour, dayOfWeek, dayOfMonth);
            MatchesAt(fields, u) <==>
              Documented(interval, hour, dayOfWeek, dayOfMonth, u)
              || (Clamp(hour, 0, 23) == 7 && HourOf(u) == 0
                  && Documented(interval, 0, dayOfWeek, dayOfMonth, u))
  {
    NumeralField(0, BOUNDS[0], MinuteOf(u), 0);
    assert Decimal(0) == "0";
    NumeralField(Clamp(hour, 0, 23), BOUNDS[1], HourOf(u), 0);
    NumeralField(Clamp(dayOfWeek, 0, 6), BOUNDS[4], WeekdayOf(u), 0);
    NumeralField(Clamp(dayOfMonth, 1, 28), BOUNDS[2], DateOf(u).day, 1);
  }

  /** A simple schedule fires exactly when its documentation says, for every minute, unless its hour is 7. */
  lemma SimpleAsDocumentedExactly(interval: SimpleInterval, hour: int, dayOfWeek: int, dayOfMonth: int)
    ensures (forall u :: MatchesAt(SimpleFields(interval, hour, dayOfWeek, dayOfMonth), u)
                         <==> Documented(interval, hour, dayOfWeek, dayOfMonth, u))
            <==> Clamp(hour, 0, 23) != 7
  {
    var fields := SimpleFields(interval, hour, dayOfWeek, dayOfMonth);
    forall u
      ensures Clamp(hour, 0, 23) != 7 ==>
                (MatchesAt(fields, u) <==> Documented(interval, hour, dayOfWeek, dayOfMonth, u))
    {
      SimpleFiresAt(interval, hour, dayOfWeek, dayOfMonth, u);
    }
    if Clamp(hour, 0, 23) == 7 {
      var u := MidnightOn(interval, dayOfWeek, dayOfMonth);
      SimpleFiresAt(interval, hour, dayOfWeek, dayOfMonth, u);
      assert MatchesAt(fields, u) && !Documented(interval, hour, dayOfWeek, dayOfMonth, u);
    }
  }

  /** A midnight on a day the schedule allows. */
  lemma MidnightOn(interval: SimpleInterval, dayOfWeek: int, dayOfMonth: int) returns (u: int)
    ensures HourOf(u) == 0 && Documented(interval, 0, dayOfWeek, dayOfMonth, u)
  {
    var day: int;
    if interval.Monthly? {
      var date := UpcomingMonthlyDate(0, Clamp(dayOfMonth, 1, 28), 0, 0);
      CivilOfDayNumber(date);
      day := DayNumber(date);
    } else {
      day := UpcomingWeekday(0, Clamp(dayOfWeek, 0, 6), 0, 0);
    }
    FieldsAt(day, 0, 0);
    u := At(day, 0, 0);
  }

  /** Every simple schedule is found by the search: within 7 days when daily or weekly, within 31 when monthly. */
  lemma SimpleNeverRejects(interval: SimpleInterval, hour: int, dayOfWeek: int, dayOfMonth: int, after: int,
                           r: Result<int, CronError>)
    requires Outcome(IntervalToCron(interval, hour, dayOfWeek, dayOfMonth), after, r)
    ensures r.Ok? && after < r.value
    ensures r.value <= after + (if interval.Monthly? then 31 else 7) * DAY_MINUTES * MINUTE_MS
  {
    var cron := IntervalToCron(interval, hour, dayOfWeek, dayOfMonth);
    SimpleFieldsReadBack(interval, hour, dayOfWeek, dayOfMonth);
    SimpleIsValid(interval, hour, dayOfWeek, dayOfMonth);
    CronFaultMeaning(cron);
    if interval.Monthly? {
      var d := Clamp(dayOfMonth, 1, 28);
      NumeralField(d, BOUNDS[2], d, 1);
      MonthlyNeverRejects(cron);
      assert WithinMonth(cron, after);
    } else {
      NumeralField(Clamp(dayOfWeek, 0, 6), BOUNDS[4], 0, 0);
      WeeklyNeverRejects(cron);
    }
  }
}
