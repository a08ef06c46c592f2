/** The UTC civil calendar behind `getUTCMinutes`, `getUTCHours`, `getUTCDate`, `getUTCMonth` and `getUTCDay`. */
module Calendar {
  const MINUTE_MS := 60_000
  const DAY_MINUTES := 1440

  datatype Date = Date(year: int, month: int, day: int)

  predicate Leap(y: int) {
    y % 4 == 0 && (y % 100 != 0 || y % 400 == 0)
  }

  function MonthLength(y: int, m: int): (n: int)
    requires 1 <= m <= 12
    ensures 28 <= n <= 31
  {
    if m == 2 then (if Leap(y) then 29 else 28)
    else if m == 4 || m == 6 || m == 9 || m == 11 then 30
    else 31
  }

  predicate ValidDate(d: Date) {
    1 <= d.month <= 12 && 1 <= d.day <= MonthLength(d.year, d.month)
  }

  function NextDay(d: Date): (e: Date)
    requires ValidDate(d)
    ensures ValidDate(e)
  {
    if d.day < MonthLength(d.year, d.month) then d.(day := d.day + 1)
    else if d.month < 12 then Date(d.year, d.month + 1, 1)
    else Date(d.year + 1, 1, 1)
  }

  function PreviousDay(d: Date): (e: Date)
    requires ValidDate(d)
    ensures ValidDate(e)
  {
    if d.day > 1 then d.(day := d.day - 1)
    else if d.month > 1 then Date(d.year, d.month - 1, MonthLength(d.year, d.month - 1))
    else Date(d.year - 1, 12, 31)
  }

  /** The date `n` days after 1 January 1970, stepping day by day in either direction. */
  function Civil(n: int): (d: Date)
    ensures ValidDate(d)
    decreases if n < 0 then -n else n
  {
    if n == 0 then Date(1970, 1, 1)
    else if n > 0 then NextDay(Civil(n - 1))
    else PreviousDay(Civil(n + 1))
  }

  function YearDays(y: int): int {
    if Leap(y) then 366 else 365
  }

  /** The day number of 1 January, stepping year by year from 1970 in either direction. */
  function DayFromYear(y: int): int
    decreases if y < 1970 then 1970 - y else y - 1970
  {
    if y == 1970 then 0
    else if y > 1970 then DayFromYear(y - 1) + YearDays(y - 1)
    else DayFromYear(y + 1) - YearDays(y)
  }

  function DaysBeforeMonth(y: int, m: int): int
    requires 1 <= m <= 12
  {
    if m == 1 then 0 else DaysBeforeMonth(y, m - 1) + MonthLength(y, m - 1)
  }

  /** The day number of a date, counting whole years and months: an independent definition of the calendar. */
  function DayNumber(d: Date): int
    requires ValidDate(d)
  {
    DayFromYear(d.year) + DaysBeforeMonth(d.year, d.month) + d.day - 1
  }

  lemma YearLength(y: int)
    ensures DayFromYear(y + 1) == DayFromYear(y) + YearDays(y)
  {
  }

  lemma {:induction false} YearsIncrease(y: int, z: int)
    requires y <= z
    ensures DayFromYear(y) <= DayFromYear(z)
    decreases z - y
  {
    if y < z {
      YearLength(y);
      YearsIncrease(y + 1, z);
    }
  }

  lemma DivisionUnique(x: int, k: int, q: int, r: int)
    requires 0 <= r < k && x == k * q + r
    ensures x / k == q && x % k == r
  {
    var d := x / k - q;
    assert k * d == r - x % k;
    MultipleIsLarge(k, d);
  }

  lemma MultipleIsLarge(k: int, d: int)
    requires k > 0
    ensures d >= 1 ==> k * d >= k
    ensures d <= -1 ==> k * d <= -k
  {
  }

  lemma MultipleStep(y: int, k: int)
    requires k >= 1
    ensures y / k - (y - 1) / k == (if y % k == 0 then 1 else 0)
  {
    var q, r := y / k, y % k;
    assert y == k * q + r;
    if r == 0 {
      assert y - 1 == k * (q - 1) + (k - 1);
      DivisionUnique(y - 1, k, q - 1, k - 1);
    } else {
      DivisionUnique(y - 1, k, q, r - 1);
    }
  }

  lemma MultiplesNest(y: int)
    ensures y % 400 == 0 ==> y % 100 == 0
    ensures y % 100 == 0 ==> y % 4 == 0
  {
    if y % 400 == 0 {
      DivisionUnique(y, 100, 4 * (y / 400), 0);
    }
    if y % 100 == 0 {
      DivisionUnique(y, 4, 25 * (y / 100), 0);
    }
  }

  /** Counts of the leap-year rule, year by year. */
  function LeapsUpTo(y: int): int {
    y / 4 - y / 100 + y / 400
  }

  lemma LeapYearsStep(y: int)
    ensures LeapsUpTo(y) - LeapsUpTo(y - 1) == (if Leap(y) then 1 else 0)
  {
    MultipleStep(y, 4);
    MultipleStep(y, 100);
    MultipleStep(y, 400);
    MultiplesNest(y);
  }

  /** The closed form DayFromYear of the ECMAScript language specification, which `Date` follows. */
  lemma {:induction false} DayFromYearClosedForm(y: int)
    ensures DayFromYear(y) == 365 * (y - 1970) + ((y - 1) / 4 - 492) - ((y - 1) / 100 - 19) + ((y - 1) / 400 - 4)
    decreases if y < 1970 then 1970 - y else y - 1970
  {
    if y > 1970 {
      DayFromYearClosedForm(y - 1);
      LeapYearsStep(y - 1);
    } else if y < 1970 {
      DayFromYearClosedForm(y + 1);
      LeapYearsStep(y);
    }
  }

  lemma MonthsOfYear(y: int)
    ensures DaysBeforeMonth(y, 12) + 31 == YearDays(y)
  {
    assert DaysBeforeMonth(y, 2) == 31;
    assert DaysBeforeMonth(y, 3) == (if Leap(y) then 60 else 59);
    assert DaysBeforeMonth(y, 5) == DaysBeforeMonth(y, 4) + 30 == DaysBeforeMonth(y, 3) + 61;
    assert DaysBeforeMonth(y, 7) == DaysBeforeMonth(y, 6) + 30 == DaysBeforeMonth(y, 5) + 61;
    assert DaysBeforeMonth(y, 9) == DaysBeforeMonth(y, 8) + 31 == DaysBeforeMonth(y, 7) + 62;
    assert DaysBeforeMonth(y, 11) == DaysBeforeMonth(y, 10) + 31 == DaysBeforeMonth(y, 9) + 61;
    assert DaysBeforeMonth(y, 12) == DaysBeforeMonth(y, 11) + 30;
  }

  lemma NextDayNumber(d: Date)
    requires ValidDate(d)
    ensures DayNumber(NextDay(d)) == DayNumber(d) + 1
    ensures NextDay(PreviousDay(d)) == d
  {
    YearLength(d.year);
    MonthsOfYear(d.year);
  }

  /** The day-by-day calendar agrees with the one counting years and months. */
  lemma {:induction false} DayNumberOfCivil(n: int)
    ensures DayNumber(Civil(n)) == n
    decreases if n < 0 then -n else n
  {
    if n > 0 {
      DayNumberOfCivil(n - 1);
      NextDayNumber(Civil(n - 1));
    } else if n < 0 {
      DayNumberOfCivil(n + 1);
      NextDayNumber(Civil(n + 1));
      NextDayNumber(Civil(n));
    } else {
      assert DaysBeforeMonth(1970, 1) == 0;
    }
  }

  lemma {:induction false} DayOfYearBounds(y: int, m: int)
    requires 1 <= m <= 12
    ensures 0 <= DaysBeforeMonth(y, m)
    ensures DaysBeforeMonth(y, m) + MonthLength(y, m) <= YearDays(y)
    decreases 12 - m
  {
    if m == 12 {
      MonthsOfYear(y);
    } else {
      DayOfYearBounds(y, m + 1);
    }
    MonthsBefore(y, 1, m);
  }

  lemma {:induction false} MonthsBefore(y: int, m: int, k: int)
    requires 1 <= m <= k <= 12
    ensures DaysBeforeMonth(y, k) >= DaysBeforeMonth(y, m)
    ensures m < k ==> DaysBeforeMonth(y, k) >= DaysBeforeMonth(y, m) + MonthLength(y, m)
  {
    if m < k {
      MonthsBefore(y, m, k - 1);
    }
  }

  /** The earlier date has the smaller day number. */
  lemma DayNumberIncreases(d: Date, e: Date)
    requires ValidDate(d) && ValidDate(e)
    requires d.year < e.year || (d.year == e.year && (d.month < e.month || (d.month == e.month && d.day < e.day)))
    ensures DayNumber(d) < DayNumber(e)
  {
    DayOfYearBounds(d.year, d.month);
    DayOfYearBounds(e.year, e.month);
    YearLength(d.year);
    if d.year == e.year {
      MonthsBefore(d.year, d.month, e.month);
    } else {
      YearsIncrease(d.year + 1, e.year);
    }
  }

  /** Every valid date is the date of its own day number. */
  lemma CivilOfDayNumber(d: Date)
    requires ValidDate(d)
    ensures Civil(DayNumber(d)) == d
  {
    var e := Civil(DayNumber(d));
    DayNumberOfCivil(DayNumber(d));
    if e != d {
      if e.year < d.year || (e.year == d.year && (e.month < d.month || (e.month == d.month && e.day < d.day))) {
        DayNumberIncreases(e, d);
      } else {
        DayNumberIncreases(d, e);
      }
    }
  }

  /** The days of 400 years, a whole number of weeks after which the calendar repeats. */
  const PERIOD_DAYS := 146_097

  lemma LeapRepeats(y: int)
    ensures Leap(y + 400) == Leap(y)
  {
    DivisionUnique(y + 400, 4, y / 4 + 100, y % 4);
    DivisionUnique(y + 400, 100, y / 100 + 4, y % 100);
    DivisionUnique(y + 400, 400, y / 400 + 1, y % 400);
  }

  lemma {:induction false} MonthsRepeat(y: int, m: int)
    requires 1 <= m <= 12
    ensures DaysBeforeMonth(y + 400, m) == DaysBeforeMonth(y, m)
  {
    LeapRepeats(y);
    if m > 1 {
      MonthsRepeat(y, m - 1);
    }
  }

  lemma QuotientsRepeat(z: int)
    ensures (z + 400) / 4 == z / 4 + 100 && (z + 400) / 100 == z / 100 + 4 && (z + 400) / 400 == z / 400 + 1
  {
    DivisionUnique(z + 400, 4, z / 4 + 100, z % 4);
    DivisionUnique(z + 400, 100, z / 100 + 4, z % 100);
    DivisionUnique(z + 400, 400, z / 400 + 1, z % 400);
  }

  lemma YearsRepeat(y: int)
    ensures DayFromYear(y + 400) == DayFromYear(y) + PERIOD_DAYS
  {
    hide DayFromYear;
    DayFromYearClosedForm(y);
    DayFromYearClosedForm(y + 400);
    QuotientsRepeat(y - 1);
  }

  /** The same date comes 400 years later. */
  lemma CivilRepeats(n: int)
    ensures Civil(n + PERIOD_DAYS) == Civil(n).(year := Civil(n).year + 400)
  {
    hide Civil, DayFromYear, DaysBeforeMonth;
    var d := Civil(n);
    LeapRepeats(d.year);
    MonthsRepeat(d.year, d.month);
    YearsRepeat(d.year);
    DayNumberOfCivil(n);
    CivilOfDayNumber(d.(year := d.year + 400));
  }

  /** The five fields of a minute counted from the epoch. */
  function MinuteOf(t: int): (v: int) ensures 0 <= v <= 59 { t % 60 }

  function HourOf(t: int): (v: int) ensures 0 <= v <= 23 { t % DAY_MINUTES / 60 }

  function DateOf(t: int): (d: Date) ensures ValidDate(d) { Civil(t / DAY_MINUTES) }

  /** 0 is Sunday; 1 January 1970 was a Thursday. */
  function WeekdayOf(t: int): (v: int) ensures 0 <= v <= 6 { (t / DAY_MINUTES + 4) % 7 }

  /** The minute at a given date, hour and minute. */
  function At(day: int, hour: int, minute: int): int {
    day * DAY_MINUTES + hour * 60 + minute
  }

  lemma FieldsAt(day: int, hour: int, minute: int)
    requires 0 <= hour <= 23 && 0 <= minute <= 59
    ensures var t := At(day, hour, minute);
            t / DAY_MINUTES == day && HourOf(t) == hour && MinuteOf(t) == minute
  {
    var t := At(day, hour, minute);
    var r := hour * 60 + minute;
    assert t / DAY_MINUTES == day && t % DAY_MINUTES == r by {
      assert 0 <= r < 1440;
    }
    assert r / 60 == hour && r % 60 == minute;
    assert t % 60 == r % 60 by {
      assert t == 60 * (24 * day) + r;
    }
  }

  /** A date recurs with the next month that has it, at most one month length later. */
  lemma NextMonth(y: int, m: int, d: int)
    requires 1 <= m <= 12 && 1 <= d <= 28
    ensures var y', m' := if m < 12 then y else y + 1, if m < 12 then m + 1 else 1;
            DayNumber(Date(y', m', d)) == DayNumber(Date(y, m, d)) + MonthLength(y, m)
  {
    YearLength(y);
    MonthsOfYear(y);
  }
}
