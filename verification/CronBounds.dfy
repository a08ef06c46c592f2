/** How soon a schedule fires, and exactly which schedules can be rejected by the 366-day scan. */
module CronBounds {
  import opened Wrappers
  import opened Strings
  import opened Calendar
  import opened CronHelper

  ghost predicate ValidFields(fields: seq<string>) {
    |fields| == 5 && forall i :: 0 <= i < 5 ==> ValidField(fields[i], BOUNDS[i])
  }

  /** The first value of a field: its lower bound, or its first numeral. */
  function FirstValue(field: string, b: Bounds): int {
    var text := if '/' in field then Split(field, '/')[0]
                else if '-' in field then Split(field, '-')[0]
                else if ',' in field then Split(field, ',')[0]
                else field;
    var num := ToNumber(text);
    if text == "*" || num.NaN? then b.min else num.n
  }

  /** The first value of a valid field is in range and matches, so every field but day-of-week can always be met. */
  lemma FirstValueMatches(field: string, b: Bounds)
    requires ValidField(field, b) && b.min <= b.max
    ensures b.min <= FirstValue(field, b) <= b.max && Matches(FirstValue(field, b), field, b.min)
  {
    if field != "*" {
      if '/' in field {
        StepMatchesBase(field, b);
      } else {
        PlainFieldMatches(field, b);
      }
    }
  }

  lemma StepMatchesBase(field: string, b: Bounds)
    requires ValidField(field, b) && b.min <= b.max && '/' in field
    ensures b.min <= FirstValue(field, b) <= b.max && Matches(FirstValue(field, b), field, b.min)
  {
    var base, step := Split(field, '/')[0], ToNumber(Split(field, '/')[1]);
    assert base == "*" || InRange(ToNumber(base), b);
    assert step.Int? && 0 % step.n == 0;
  }

  lemma PlainFieldMatches(field: string, b: Bounds)
    requires ValidField(field, b) && b.min <= b.max && field != "*" && '/' !in field
    ensures b.min <= FirstValue(field, b) <= b.max && Matches(FirstValue(field, b), field, b.min)
  {
    var text := if '-' in field then Split(field, '-')[0] else if ',' in field then Split(field, ',')[0] else field;
    assert InRange(ToNumber(text), b);
  }

  ghost predicate HasWeekday(field: string) {
    exists d :: 0 <= d <= 6 && Matches(d, field, 0)
  }

  /** Every numeral of a day-of-week field is 7, and it is not the lone text "7" that also means Sunday. */
  predicate OnlySevens(field: string) {
    field != "7" && field != "*" &&
    if '/' in field then ToNumber(Split(field, '/')[0]) == Int(7)
    else if '-' in field then ToNumber(Split(field, '-')[0]) == Int(7)
    else if ',' in field then
      var parts := Split(field, ',');
      forall i :: 0 <= i < |parts| ==> ToNumber(parts[i]) == Int(7)
    else ToNumber(field) == Int(7)
  }

  /** A valid day-of-week field names some weekday unless it consists of sevens, which `getUTCDay` never yields. */
  lemma HasWeekdayExactly(field: string)
    requires ValidField(field, BOUNDS[4])
    ensures HasWeekday(field) <==> !OnlySevens(field)
  {
    if OnlySevens(field) {
      assert '/' in field ==> Split(field, '/')[0] != "*";
    } else if field == "7" {
      assert Matches(0, field, 0);
    } else if ',' in field && '/' !in field && '-' !in field {
      var parts := Split(field, ',');
      var i :| 0 <= i < |parts| && ToNumber(parts[i]) != Int(7);
      assert InRange(ToNumber(parts[i]), BOUNDS[4]);
      assert Matches(ToNumber(parts[i]).n, field, 0);
    } else {
      FirstValueMatches(field, BOUNDS[4]);
      assert FirstValue(field, BOUNDS[4]) <= 6;
    }
  }

  ghost predicate Found(fields: seq<string>, first: int, minutes: int)
    requires |fields| == 5
  {
    exists u :: first <= u < first + minutes && MatchesAt(fields, u)
  }

  /** Any match in the scan window bounds the outcome from above. */
  lemma FoundBoundsOutcome(cron: string, after: int, minutes: int, r: Result<int, CronError>)
    requires ValidCron(cron) && Outcome(cron, after, r) && |CronFields(cron)| == 5
    requires minutes <= SCAN_MINUTES && Found(CronFields(cron), FirstMinute(after), minutes)
    ensures r.Ok? && after < r.value <= after + minutes * MINUTE_MS
  {
    var first := FirstMinute(after);
    var u :| first <= u < first + minutes && MatchesAt(CronFields(cron), u);
    if r.Ok? {
      assert r.value / MINUTE_MS <= u;
    }
  }

  // ── Day of month and month unrestricted: at most 7 days ────────────────────

  lemma WeekdayShift(wd: int, weeks: int)
    requires 0 <= wd <= 6
    ensures (wd + 7 * weeks) % 7 == wd && (wd + 7 * (weeks + 1)) % 7 == wd
  {
  }

  /** The next occurrence of a weekday at a given time, at most 7 days ahead. */
  lemma UpcomingWeekday(first: int, wd: int, hh: int, mm: int) returns (day: int)
    requires 0 <= wd <= 6 && 0 <= hh <= 23 && 0 <= mm <= 59
    ensures (day + 4) % 7 == wd
    ensures first <= At(day, hh, mm) < first + 7 * DAY_MINUTES
  {
    var today := first / DAY_MINUTES;
    var ahead := (wd - 4 - today) % 7;
    day := today + ahead;
    WeekdayShift(wd, 0 - (wd - 4 - today) / 7);
    if At(day, hh, mm) < first {
      day := day + 7;
    }
  }

  lemma WeekdayWithinWeek(fields: seq<string>, first: int)
    requires ValidFields(fields) && fields[2] == "*" && fields[3] == "*" && HasWeekday(fields[4])
    ensures Found(fields, first, 7 * DAY_MINUTES)
  {
    FirstValueMatches(fields[0], BOUNDS[0]);
    FirstValueMatches(fields[1], BOUNDS[1]);
    var mm, hh := FirstValue(fields[0], BOUNDS[0]), FirstValue(fields[1], BOUNDS[1]);
    var wd :| 0 <= wd <= 6 && Matches(wd, fields[4], 0);
    var day := UpcomingWeekday(first, wd, hh, mm);
    FieldsAt(day, hh, mm);
    assert MatchesAt(fields, At(day, hh, mm));
  }

  // ── Day of week and month unrestricted: at most 31 days ────────────────────

  ghost predicate HasShortDay(field: string) {
    exists d :: 1 <= d <= 28 && Matches(d, field, 1)
  }

  /** The next occurrence of a day of the month at a given time, at most 31 days ahead. */
  lemma UpcomingMonthlyDate(first: int, d: int, hh: int, mm: int) returns (date: Date)
    requires 1 <= d <= 28 && 0 <= hh <= 23 && 0 <= mm <= 59
    ensures ValidDate(date) && date.day == d
    ensures first <= At(DayNumber(date), hh, mm) < first + 31 * DAY_MINUTES
  {
    var today := first / DAY_MINUTES;
    var now := Civil(today);
    DayNumberOfCivil(today);
    date := Date(now.year, now.month, d);
    assert DayNumber(date) - today == d - now.day;
    if At(DayNumber(date), hh, mm) < first {
      NextMonth(now.year, now.month, d);
      date := if now.month < 12 then Date(now.year, now.month + 1, d) else Date(now.year + 1, 1, d);
    }
  }

  lemma DayWithinMonth(fields: seq<string>, first: int)
    requires ValidFields(fields) && fields[3] == "*" && fields[4] == "*" && HasShortDay(fields[2])
    ensures Found(fields, first, 31 * DAY_MINUTES)
  {
    FirstValueMatches(fields[0], BOUNDS[0]);
    FirstValueMatches(fields[1], BOUNDS[1]);
    var mm, hh := FirstValue(fields[0], BOUNDS[0]), FirstValue(fields[1], BOUNDS[1]);
    var d :| 1 <= d <= 28 && Matches(d, fields[2], 1);
    var date := UpcomingMonthlyDate(first, d, hh, mm);
    FieldsAt(DayNumber(date), hh, mm);
    CivilOfDayNumber(date);
    assert MatchesAt(fields, At(DayNumber(date), hh, mm));
  }

  // ── Day of week unrestricted: the 366-day scan is enough exactly for yearly dates ──

  /** The month has that day in every year. */
  predicate EveryYear(month: int, day: int) {
    1 <= month <= 12 && 1 <= day <= MonthLength(2025, month)
  }

  ghost predicate HasYearlyDate(fields: seq<string>)
    requires |fields| == 5
  {
    exists m, d :: EveryYear(m, d) && Matches(m, fields[3], 1) && Matches(d, fields[2], 1)
  }

  lemma CommonYearShortest(y: int, m: int)
    requires 1 <= m <= 12
    ensures MonthLength(2025, m) <= MonthLength(y, m)
  {
  }

  lemma NextYear(y: int, m: int, d: int)
    requires EveryYear(m, d)
    ensures d <= MonthLength(y, m) && d <= MonthLength(y + 1, m)
    ensures 365 <= DayNumber(Date(y + 1, m, d)) - DayNumber(Date(y, m, d)) <= 366
  {
    CommonYearShortest(y, m);
    CommonYearShortest(y + 1, m);
    YearLength(y);
    LeapShift(y, m);
    LeapShift(y + 1, m);
    assert !(Leap(y) && Leap(y + 1)) by {
      assert y % 4 == 0 ==> (y + 1) % 4 == 1;
    }
    var before, after := DaysBeforeMonth(y, m), DaysBeforeMonth(y + 1, m);
    assert -1 <= after - before <= 1;
  }

  lemma {:induction false} LeapShift(y: int, m: int)
    requires 1 <= m <= 12
    ensures DaysBeforeMonth(y, m) == DaysBeforeMonth(2025, m) + (if m > 2 && Leap(y) then 1 else 0)
  {
    if m > 1 {
      LeapShift(y, m - 1);
    }
  }

  /** The next occurrence of a yearly date at a given time, at most 366 days ahead. */
  lemma UpcomingYearlyDate(first: int, m: int, d: int, hh: int, mm: int) returns (date: Date)
    requires EveryYear(m, d) && 0 <= hh <= 23 && 0 <= mm <= 59
    ensures ValidDate(date) && date.month == m && date.day == d
    ensures first <= At(DayNumber(date), hh, mm) < first + SCAN_MINUTES
  {
    var today := first / DAY_MINUTES;
    var now := Civil(today);
    DayNumberOfCivil(today);
    NextYear(now.year, m, d);
    date := Date(now.year, m, d);
    assert DayNumber(date) <= today + 365 by {
      DayOfYearBounds(now.year, m);
      DayOfYearBounds(now.year, now.month);
    }
    if At(DayNumber(date), hh, mm) < first {
      assert DayNumber(date) <= today;
      date := Date(now.year + 1, m, d);
      DayNumberIncreases(now, date);
    }
  }

  lemma DateWithinYear(fields: seq<string>, first: int)
    requires ValidFields(fields) && fields[4] == "*" && HasYearlyDate(fields)
    ensures Found(fields, first, SCAN_MINUTES)
  {
    FirstValueMatches(fields[0], BOUNDS[0]);
    FirstValueMatches(fields[1], BOUNDS[1]);
    var mm, hh := FirstValue(fields[0], BOUNDS[0]), FirstValue(fields[1], BOUNDS[1]);
    var m, d :| EveryYear(m, d) && Matches(m, fields[3], 1) && Matches(d, fields[2], 1);
    var date := UpcomingYearlyDate(first, m, d, hh, mm);
    FieldsAt(DayNumber(date), hh, mm);
    CivilOfDayNumber(date);
    assert MatchesAt(fields, At(DayNumber(date), hh, mm));
  }

  predicate TwoCommonYears(y: int) {
    !Leap(y) && !Leap(y + 1)
  }

  /** The instant before year `y`. */
  function YearStart(y: int): int {
    DayNumber(Date(y, 1, 1)) * DAY_MINUTES * MINUTE_MS - 1
  }

  lemma CommonYearDates(y: int, first: int, u: int)
    requires TwoCommonYears(y)
    requires DayNumber(Date(y, 1, 1)) * DAY_MINUTES <= first <= DayNumber(Date(y + 1, 1, 1)) * DAY_MINUTES
    requires first <= u < first + SCAN_MINUTES
    ensures var d := DateOf(u); EveryYear(d.month, d.day)
  {
    var date := DateOf(u);
    DayNumberOfCivil(u / DAY_MINUTES);
    assert DayNumber(Date(y, 1, 1)) <= DayNumber(date) < DayNumber(Date(y + 1, 1, 1)) + 366;
    if date.year < y {
      DayNumberIncreases(date, Date(y, 1, 1));
    } else if date.year > y + 1 && date != Date(y + 2, 1, 1) {
      YearLength(y + 1);
      DayNumberIncreases(Date(y + 2, 1, 1), date);
    }
  }

  /** Does the search never reject the expression, whatever the start? */
  ghost predicate NeverRejects(cron: string) {
    forall after, r :: Outcome(cron, after, r) ==> r.Ok?
  }

  /** With day-of-month and month free, the search never rejects exactly when some weekday is named; then 7 days do. */
  lemma WeeklyNeverRejects(cron: string)
    requires ValidCron(cron)
    requires CronFields(cron)[2..4] == ["*", "*"]
    ensures NeverRejects(cron) <==> !OnlySevens(CronFields(cron)[4])
    ensures !OnlySevens(CronFields(cron)[4]) ==>
              forall after, r :: Outcome(cron, after, r) ==>
                r.Ok? && after < r.value <= after + 7 * DAY_MINUTES * MINUTE_MS
  {
    CronFaultMeaning(cron);
    var fields := CronFields(cron);
    assert fields[2..4][0] == fields[2] && fields[2..4][1] == fields[3];
    HasWeekdayExactly(fields[4]);
    if OnlySevens(fields[4]) {
      assert Outcome(cron, 0, Err(NoMatch));
    } else {
      forall after, r | Outcome(cron, after, r)
        ensures r.Ok? && after < r.value <= after + 7 * DAY_MINUTES * MINUTE_MS
      {
        WeekdayWithinWeek(fields, FirstMinute(after));
        FoundBoundsOutcome(cron, after, 7 * DAY_MINUTES, r);
      }
    }
  }

  /** The search from that instant succeeds within 31 days. */
  ghost predicate WithinMonth(cron: string, after: int) {
    forall r :: Outcome(cron, after, r) ==> r.Ok? && after < r.value <= after + 31 * DAY_MINUTES * MINUTE_MS
  }

  /** The instant before February of a common year. */
  const BEFORE_FEBRUARY := DayNumber(Date(2025, 2, 1)) * DAY_MINUTES * MINUTE_MS - 1

  /** None of the 31 days from 1 February of a common year is a 29th, 30th or 31st. */
  lemma ShortDaysOfFebruary(u: int)
    requires var first := DayNumber(Date(2025, 2, 1)) * DAY_MINUTES; first <= u < first + 31 * DAY_MINUTES
    ensures DateOf(u).day <= 28
  {
    var date := DateOf(u);
    DayNumberOfCivil(u / DAY_MINUTES);
    assert DayNumber(Date(2025, 2, 1)) <= DayNumber(date) < DayNumber(Date(2025, 2, 1)) + 31;
    assert DayNumber(Date(2025, 3, 4)) == DayNumber(Date(2025, 2, 1)) + 31;
    if date.day > 28 {
      if date.year < 2025 || (date.year == 2025 && date.month < 2) {
        DayNumberIncreases(date, Date(2025, 2, 1));
      } else {
        DayNumberIncreases(Date(2025, 3, 4), date);
      }
    }
  }

  /**
   * With day-of-week and month free the search never rejects, and it succeeds within 31 days from every start exactly
   * when some allowed day is at most 28.
   */
  lemma MonthlyNeverRejects(cron: string)
    requires ValidCron(cron) && CronFields(cron)[3..] == ["*", "*"]
    ensures NeverRejects(cron)
    ensures (forall after :: WithinMonth(cron, after)) <==> HasShortDay(CronFields(cron)[2])
  {
    CronFaultMeaning(cron);
    var fields := CronFields(cron);
    assert fields[3..][0] == fields[3] && fields[3..][1] == fields[4];
    FirstValueMatches(fields[2], BOUNDS[2]);
    assert EveryYear(1, FirstValue(fields[2], BOUNDS[2]));
    assert fields[4..] == ["*"];
    YearlyNeverRejects(cron);
    if HasShortDay(fields[2]) {
      forall after
        ensures WithinMonth(cron, after)
      {
        DayWithinMonth(fields, FirstMinute(after));
        forall r | Outcome(cron, after, r)
          ensures r.Ok? && after < r.value <= after + 31 * DAY_MINUTES * MINUTE_MS
        {
          FoundBoundsOutcome(cron, after, 31 * DAY_MINUTES, r);
        }
      }
    } else {
      NotWithinMonth(cron);
    }
  }

  lemma NotWithinMonth(cron: string)
    requires ValidCron(cron) && |CronFields(cron)| == 5 && !HasShortDay(CronFields(cron)[2])
    ensures !WithinMonth(cron, BEFORE_FEBRUARY)
  {
    var r := NextRun(cron, BEFORE_FEBRUARY);
    var first := DayNumber(Date(2025, 2, 1)) * DAY_MINUTES;
    assert FirstMinute(BEFORE_FEBRUARY) == first;
    if r.Ok? && r.value <= BEFORE_FEBRUARY + 31 * DAY_MINUTES * MINUTE_MS {
      var u := r.value / MINUTE_MS;
      assert MatchesAt(CronFields(cron), u);
      ShortDaysOfFebruary(u);
    }
  }

  /** With day-of-week free, the search never rejects exactly when some allowed date exists in every year. */
  lemma YearlyNeverRejects(cron: string)
    requires ValidCron(cron) && CronFields(cron)[4..] == ["*"]
    ensures NeverRejects(cron) <==> HasYearlyDate(CronFields(cron))
  {
    CronFaultMeaning(cron);
    var fields := CronFields(cron);
    assert fields[4..][0] == fields[4];
    if HasYearlyDate(fields) {
      forall after, r | Outcome(cron, after, r)
        ensures r.Ok?
      {
        DateWithinYear(fields, FirstMinute(after));
        FoundBoundsOutcome(cron, after, SCAN_MINUTES, r);
      }
    } else {
      assert TwoCommonYears(2025);
      var y :| TwoCommonYears(y);
      var after := YearStart(y);
      forall v | FirstMinute(after) <= v < FirstMinute(after) + SCAN_MINUTES
        ensures !MatchesAt(fields, v)
      {
        CommonYearDates(y, FirstMinute(after), v);
      }
      assert Outcome(cron, after, Err(NoMatch));
    }
  }

  // ── The scan limit is exactly tight ────────────────────────────────────────

  const MARCH_FIRST := ["0", "0", "1", "3", "*"]
  const LEAP_DAY := ["0", "0", "29", "2", "*"]

  lemma MarchFirstMatches(u: int)
    ensures MatchesAt(MARCH_FIRST, u) <==>
            MinuteOf(u) == 0 && HourOf(u) == 0 && DateOf(u).day == 1 && DateOf(u).month == 3
  {
    SmallNumerals();
  }

  /** No 1 March lies strictly between those of a year and the next. */
  lemma MarchFirsts(y: int, date: Date)
    requires ValidDate(date) && date.month == 3 && date.day == 1
    ensures var a, b := DayNumber(Date(y, 3, 1)), DayNumber(Date(y + 1, 3, 1));
            b == a + YearDays(y + 1) && !(a < DayNumber(date) < b)
  {
    LeapShift(y, 3);
    LeapShift(y + 1, 3);
    YearLength(y);
    if date.year < y {
      DayNumberIncreases(date, Date(y, 3, 1));
    } else if date.year > y + 1 {
      DayNumberIncreases(Date(y + 1, 3, 1), date);
    }
  }

  lemma NoneBetweenMarchFirsts(y: int, v: int)
    requires DayNumber(Date(y, 3, 1)) * DAY_MINUTES < v < DayNumber(Date(y + 1, 3, 1)) * DAY_MINUTES
    ensures !MatchesAt(MARCH_FIRST, v)
  {
    MarchFirstMatches(v);
    if MatchesAt(MARCH_FIRST, v) {
      var day := v / DAY_MINUTES;
      MidnightMinute(v);
      DayNumberOfCivil(day);
      MarchFirsts(y, DateOf(v));
    }
  }

  lemma MidnightMinute(v: int)
    requires MinuteOf(v) == 0 && HourOf(v) == 0
    ensures v == v / DAY_MINUTES * DAY_MINUTES
  {
    var r := v % DAY_MINUTES;
    assert r / 60 == 0;
    assert v % 60 == r % 60;
  }

  lemma MarchFirstValid(cron: string)
    requires CronFields(cron) == MARCH_FIRST
    ensures ValidCron(cron)
  {
    CronFaultMeaning(cron);
    SmallNumerals();
  }

  /** Fired on 1 March before a leap year, a yearly schedule fires next in the very last minute of the scan window. */
  lemma ScanLimitTight(cron: string, y: int)
    requires CronFields(cron) == MARCH_FIRST && Leap(y + 1)
    ensures var after := DayNumber(Date(y, 3, 1)) * DAY_MINUTES * MINUTE_MS;
            ValidCron(cron) && Outcome(cron, after, Ok((FirstMinute(after) + SCAN_MINUTES - 1) * MINUTE_MS))
  {
    var next := Date(y + 1, 3, 1);
    MarchFirsts(y, next);
    CivilOfDayNumber(next);
    FieldsAt(DayNumber(next), 0, 0);
    var start := DayNumber(Date(y, 3, 1)) * DAY_MINUTES;
    var u := start + SCAN_MINUTES;
    MarchFirstMatches(u);
    forall v | start < v < u
      ensures !MatchesAt(MARCH_FIRST, v)
    {
      NoneBetweenMarchFirsts(y, v);
    }
    MarchFirstValid(cron);
    assert FirstMinute(start * MINUTE_MS) == start + 1;
    assert u * MINUTE_MS / MINUTE_MS == u;
  }

  /** The leap-day schedule is valid, yet the search rejects it from every instant of a common year before another. */
  lemma LeapDayRejected(cron: string, y: int, after: int)
    requires CronFields(cron) == LEAP_DAY && TwoCommonYears(y)
    requires YearStart(y) <= after <= YearStart(y + 1)
    ensures ValidCron(cron) && Outcome(cron, after, Err(NoMatch))
  {
    CronFaultMeaning(cron);
    SmallNumerals();
    forall v | FirstMinute(after) <= v < FirstMinute(after) + SCAN_MINUTES
      ensures !MatchesAt(LEAP_DAY, v)
    {
      CommonYearDates(y, FirstMinute(after), v);
    }
  }

  // ── The search repeats every 400 years ─────────────────────────────────────

  const PERIOD_MINUTES := PERIOD_DAYS * DAY_MINUTES
  const PERIOD_MS := PERIOD_MINUTES * MINUTE_MS

  lemma MatchesRepeat(fields: seq<string>, u: int)
    requires |fields| == 5
    ensures MatchesAt(fields, u + PERIOD_MINUTES) <==> MatchesAt(fields, u)
  {
    hide Matches, Civil;
    var day := u / DAY_MINUTES;
    DivisionUnique(u + PERIOD_MINUTES, DAY_MINUTES, day + PERIOD_DAYS, u % DAY_MINUTES);
    DivisionUnique(u + PERIOD_MINUTES, 60, u / 60 + PERIOD_DAYS * 24, u % 60);
    DivisionUnique(day + PERIOD_DAYS + 4, 7, (day + 4) / 7 + PERIOD_DAYS / 7, (day + 4) % 7);
    CivilRepeats(day);
  }

  function Later(r: Result<int, CronError>): Result<int, CronError> {
    if r.Ok? then Ok(r.value + PERIOD_MS) else r
  }

  lemma NoMatchRepeats(fields: seq<string>, lo: int, hi: int)
    requires |fields| == 5 && forall v :: lo <= v < hi ==> !MatchesAt(fields, v)
    ensures forall v :: lo + PERIOD_MINUTES <= v < hi + PERIOD_MINUTES ==> !MatchesAt(fields, v)
  {
    forall v | lo + PERIOD_MINUTES <= v < hi + PERIOD_MINUTES
      ensures !MatchesAt(fields, v)
    {
      MatchesRepeat(fields, v - PERIOD_MINUTES);
    }
  }

  /** 400 years later the search has the same outcome, 400 years later. */
  lemma SearchRepeats(cron: string, after: int)
    ensures NextRun(cron, after + PERIOD_MS) == Later(NextRun(cron, after))
  {
    hide MatchesAt;
    CronFaultMeaning(cron);
    var r, first := NextRun(cron, after), FirstMinute(after);
    DivisionUnique(after + PERIOD_MS, MINUTE_MS, after / MINUTE_MS + PERIOD_MINUTES, after % MINUTE_MS);
    if ValidCron(cron) {
      var fields := CronFields(cron);
      if r.Ok? {
        var u := r.value / MINUTE_MS;
        DivisionUnique(r.value + PERIOD_MS, MINUTE_MS, u + PERIOD_MINUTES, 0);
        NoMatchRepeats(fields, first, u);
        MatchesRepeat(fields, u);
      } else {
        NoMatchRepeats(fields, first, first + SCAN_MINUTES);
      }
    }
    OutcomeUnique(cron, after + PERIOD_MS, NextRun(cron, after + PERIOD_MS), Later(r));
  }

  function AfterPeriods(after: int, k: nat): (t: int)
    ensures t >= after + k
  {
    if k == 0 then after else AfterPeriods(after, k - 1) + PERIOD_MS
  }

  lemma {:induction false} RejectionRepeats(cron: string, after: int, k: nat)
    requires NextRun(cron, after).Err?
    ensures NextRun(cron, AfterPeriods(after, k)).Err?
  {
    hide Outcome;
    if k > 0 {
      RejectionRepeats(cron, after, k - 1);
      SearchRepeats(cron, AfterPeriods(after, k - 1));
    }
  }

  // ── Day of month and day of week together ──────────────────────────────────

  const FRIDAY_13 := ["0", "0", "13", "*", "5"]

  const MONTH_OFFSETS: set<int> := {31, 61, 92, 122, 153, 184, 213, 244, 274, 305, 335, 366, 397}

  lemma NoWholeWeeks(wd: int, offset: int)
    requires wd % 7 == 5 && offset in MONTH_OFFSETS
    ensures (wd + offset) % 7 != 5
  {
    assert offset % 7 != 0;
  }

  /** Days from 13 August to the 13th of the months after it, up to September of the next, leap, year. */
  lemma Thirteenths(y: int, date: Date)
    requires Leap(y + 1) && ValidDate(date) && date.day == 13
    requires DayNumber(Date(y, 8, 13)) < DayNumber(date) < DayNumber(Date(y, 8, 13)) + 427
    ensures DayNumber(date) - DayNumber(Date(y, 8, 13))
            in MONTH_OFFSETS
  {
    LeapShift(y, 8);
    LeapShift(date.year, date.month);
    MonthStarts();
    YearLength(y);
    YearLength(y + 1);
    assert !Leap(y) by {
      assert (y + 1) % 4 == 0;
    }
    if date.year < y {
      DayNumberIncreases(date, Date(y, 8, 13));
    } else if date.year > y + 1 {
      LeapShift(y + 1, 12);
      DayNumberIncreases(Date(y + 1, 12, 13), date);
    }
  }

  lemma MonthStarts()
    ensures DaysBeforeMonth(2025, 1) == 0 && DaysBeforeMonth(2025, 2) == 31 && DaysBeforeMonth(2025, 3) == 59
    ensures DaysBeforeMonth(2025, 4) == 90 && DaysBeforeMonth(2025, 5) == 120 && DaysBeforeMonth(2025, 6) == 151
    ensures DaysBeforeMonth(2025, 7) == 181 && DaysBeforeMonth(2025, 8) == 212 && DaysBeforeMonth(2025, 9) == 243
    ensures DaysBeforeMonth(2025, 10) == 273 && DaysBeforeMonth(2025, 11) == 304 && DaysBeforeMonth(2025, 12) == 334
  {
    assert DaysBeforeMonth(2025, 2) == DaysBeforeMonth(2025, 1) + 31;
    assert DaysBeforeMonth(2025, 4) == DaysBeforeMonth(2025, 3) + 31 == DaysBeforeMonth(2025, 2) + 59;
    assert DaysBeforeMonth(2025, 6) == DaysBeforeMonth(2025, 5) + 31 == DaysBeforeMonth(2025, 4) + 61;
    assert DaysBeforeMonth(2025, 8) == DaysBeforeMonth(2025, 7) + 31 == DaysBeforeMonth(2025, 6) + 61;
    assert DaysBeforeMonth(2025, 10) == DaysBeforeMonth(2025, 9) + 30 == DaysBeforeMonth(2025, 8) + 61;
    assert DaysBeforeMonth(2025, 12) == DaysBeforeMonth(2025, 11) + 30 == DaysBeforeMonth(2025, 10) + 61;
  }

  lemma FridayMatches(u: int)
    ensures MatchesAt(FRIDAY_13, u) <==>
            MinuteOf(u) == 0 && HourOf(u) == 0 && DateOf(u).day == 13 && WeekdayOf(u) == 5
  {
    SmallNumerals();
  }

  /**
   * Friday the 13th: when 13 August is one and the next year is a leap year the following one is 427 days later, so
   * this valid expression is rejected from every instant of the first 61 days.
   */
  lemma FridayThirteenthRejected(cron: string, y: int, after: int)
    requires CronFields(cron) == FRIDAY_13 && Leap(y + 1) && (DayNumber(Date(y, 8, 13)) + 4) % 7 == 5
    requires var day := DayNumber(Date(y, 8, 13));
             day * DAY_MINUTES * MINUTE_MS <= after < (day + 61) * DAY_MINUTES * MINUTE_MS
    ensures ValidCron(cron) && Outcome(cron, after, Err(NoMatch)) && !NeverRejects(cron)
  {
    CronFaultMeaning(cron);
    SmallNumerals();
    var day, first := DayNumber(Date(y, 8, 13)), FirstMinute(after);
    assert day * DAY_MINUTES < first <= (day + 61) * DAY_MINUTES;
    forall u | first <= u < first + SCAN_MINUTES
      ensures !MatchesAt(FRIDAY_13, u)
    {
      FridayMatches(u);
      if MatchesAt(FRIDAY_13, u) {
        NoFriday(y, u);
      }
    }
  }

  lemma NoFriday(y: int, u: int)
    requires Leap(y + 1) && (DayNumber(Date(y, 8, 13)) + 4) % 7 == 5
    requires var day := DayNumber(Date(y, 8, 13)); day * DAY_MINUTES < u < (day + 427) * DAY_MINUTES
    requires MinuteOf(u) == 0 && HourOf(u) == 0
    ensures DateOf(u).day != 13 || WeekdayOf(u) != 5
  {
    hide DayNumber, Civil, MONTH_OFFSETS;
    var date, day := DateOf(u), DayNumber(Date(y, 8, 13));
    DayNumberOfCivil(u / DAY_MINUTES);
    MidnightMinute(u);
    if date.day == 13 {
      Thirteenths(y, date);
      NoWholeWeeks(day + 4, DayNumber(date) - day);
    }
  }

  /** 13 August 1999 was such a Friday. */
  lemma Friday1999()
    ensures Leap(2000) && (DayNumber(Date(1999, 8, 13)) + 4) % 7 == 5
  {
    hide DayFromYear, DaysBeforeMonth;
    DayFromYearClosedForm(1999);
    LeapShift(1999, 8);
    MonthStarts();
  }

  lemma LeapDayMatches(u: int)
    ensures MatchesAt(LEAP_DAY, u) <==>
            MinuteOf(u) == 0 && HourOf(u) == 0 && DateOf(u).day == 29 && DateOf(u).month == 2
  {
    SmallNumerals();
  }

  lemma SmallNumerals()
    ensures ToNumber("0") == Int(0) && ToNumber("1") == Int(1) && ToNumber("3") == Int(3)
    ensures ToNumber("2") == Int(2) && ToNumber("5") == Int(5) && ToNumber("29") == Int(29) && ToNumber("13") == Int(13)
  {
    assert "29"[..1] == "2" && "13"[..1] == "1";
    assert Digits("29") && Digits("13");
    assert DigitsValue("2") == 2 && DigitsValue("1") == 1;
    assert DigitsValue("29") == 29 && DigitsValue("13") == 13;
  }
}
