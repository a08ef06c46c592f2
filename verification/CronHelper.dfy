/** Validation, interpretation and search of 5-field cron expressions (src/reports/cron-helper.service.ts). */
module CronHelper {
  import opened Wrappers
  import opened Strings
  import opened Calendar

  datatype Fault = BadBase | BadStep | BadRange | BadListValue | BadValue

  datatype CronError =
    | FieldCount(found: nat)
    | BadField(index: nat, fault: Fault)
    | NoMatch

  datatype Bounds = Bounds(min: int, max: int)

  /** Minute, hour, day of month, month, day of week. */
  const BOUNDS: seq<Bounds> := [Bounds(0, 59), Bounds(0, 23), Bounds(1, 31), Bounds(1, 12), Bounds(0, 7)]

  const SCAN_MINUTES := 366 * DAY_MINUTES

  function CronFields(cron: string): (fields: seq<string>)
    ensures |fields| >= 1
  {
    Words(Trim(cron))
  }

  predicate InRange(n: Num, b: Bounds) {
    n.Int? && b.min <= n.n <= b.max
  }

  /** The first check of `validate` that a field fails, in the code's order: step, range, list, single number. */
  function FaultOf(field: string, b: Bounds): Option<Fault> {
    if field == "*" then None
    else if '/' in field then
      var parts := Split(field, '/');
      var step := ToNumber(parts[1]);
      if parts[0] != "*" && !InRange(ToNumber(parts[0]), b) then Some(BadBase)
      else if step.NaN? || step.n < 1 then Some(BadStep)
      else None
    else if '-' in field then
      var parts := Split(field, '-');
      var lo, hi := ToNumber(parts[0]), ToNumber(parts[1]);
      if !InRange(lo, b) || !InRange(hi, b) || lo.n > hi.n then Some(BadRange) else None
    else if ',' in field then
      var parts := Split(field, ',');
      if exists i :: 0 <= i < |parts| && !InRange(ToNumber(parts[i]), b) then Some(BadListValue) else None
    else if !InRange(ToNumber(field), b) then Some(BadValue)
    else None
  }

  predicate ValidField(field: string, b: Bounds) {
    FaultOf(field, b).None?
  }

  /** The error `validate` throws: a wrong count, else the first bad field. */
  function CronFault(cron: string): Option<CronError> {
    var fields := CronFields(cron);
    if |fields| != 5 then Some(FieldCount(|fields|)) else FirstBadField(fields, 0)
  }

  function FirstBadField(fields: seq<string>, i: nat): Option<CronError>
    requires |fields| == 5 && i <= 5
    decreases 5 - i
  {
    if i == 5 then None
    else match FaultOf(fields[i], BOUNDS[i])
      case Some(fault) => Some(BadField(i, fault))
      case None => FirstBadField(fields, i + 1)
  }

  predicate ValidCron(cron: string) {
    CronFault(cron).None?
  }

  /** What validity means, field by field, and which field an error names. */
  lemma {:induction false} CronFaultMeaning(cron: string)
    ensures var fields := CronFields(cron);
            ValidCron(cron) <==> |fields| == 5 && forall i :: 0 <= i < 5 ==> ValidField(fields[i], BOUNDS[i])
    ensures var fields := CronFields(cron);
            match CronFault(cron)
            case Some(BadField(k, fault)) =>
              |fields| == 5 && k < 5 && FaultOf(fields[k], BOUNDS[k]) == Some(fault)
              && forall i :: 0 <= i < k ==> ValidField(fields[i], BOUNDS[i])
            case Some(FieldCount(n)) => n == |fields| != 5
            case Some(NoMatch) => false
            case None => true
  {
    var fields := CronFields(cron);
    if |fields| == 5 {
      FirstBadFieldMeaning(fields, 0);
    }
  }

  lemma {:induction false} FirstBadFieldMeaning(fields: seq<string>, i: nat)
    requires |fields| == 5 && i <= 5
    ensures match FirstBadField(fields, i)
            case None => forall k :: i <= k < 5 ==> ValidField(fields[k], BOUNDS[k])
            case Some(BadField(k, fault)) =>
              i <= k < 5 && FaultOf(fields[k], BOUNDS[k]) == Some(fault)
              && forall j :: i <= j < k ==> ValidField(fields[j], BOUNDS[j])
            case Some(_) => false
    decreases 5 - i
  {
    if i < 5 && FaultOf(fields[i], BOUNDS[i]).None? {
      FirstBadFieldMeaning(fields, i + 1);
    }
  }

  /** `validate`: loops over the fields and over the parts of a list, stopping at the first fault. */
  method Validate(cron: string) returns (r: Result<(), CronError>)
    ensures r == (match CronFault(cron) case None => Ok(()) case Some(e) => Err(e))
  {
    var fields := Words(Trim(cron));
    if |fields| != 5 {
      return Err(FieldCount(|fields|));
    }
    for i := 0 to 5
      invariant CronFault(cron) == FirstBadField(fields, i)
    {
      var field := fields[i];
      var b := BOUNDS[i];
      if field == "*" {
        continue;
      }
      if '/' in field {
        var parts := Split(field, '/');
        if parts[0] != "*" && !InRange(ToNumber(parts[0]), b) {
          return Err(BadField(i, BadBase));
        }
        var step := ToNumber(parts[1]);
        if step.NaN? || step.n < 1 {
          return Err(BadField(i, BadStep));
        }
        continue;
      }
      if '-' in field {
        var parts := Split(field, '-');
        var lo, hi := ToNumber(parts[0]), ToNumber(parts[1]);
        if !InRange(lo, b) || !InRange(hi, b) || lo.n > hi.n {
          return Err(BadField(i, BadRange));
        }
        continue;
      }
      if ',' in field {
        var parts := Split(field, ',');
        for k := 0 to |parts|
          invariant forall j :: 0 <= j < k ==> InRange(ToNumber(parts[j]), b)
        {
          if !InRange(ToNumber(parts[k]), b) {
            return Err(BadField(i, BadListValue));
          }
        }
        continue;
      }
      var num := ToNumber(field);
      if num.NaN? || !InRange(num, b) {
        return Err(BadField(i, BadValue));
      }
    }
    return Ok(());
  }

  /** `fieldMatches`: comparisons with NaN are false, and a lone `7` also stands for 0 in every field. */
  predicate Matches(value: int, field: string, min: int) {
    if field == "*" then true
    else if '/' in field then
      var parts := Split(field, '/');
      var start := if parts[0] == "*" then Int(min) else ToNumber(parts[0]);
      var step := ToNumber(parts[1]);
      start.Int? && step.Int? && value >= start.n && step.n != 0 && (value - start.n) % step.n == 0
    else if '-' in field then
      var parts := Split(field, '-');
      var lo, hi := ToNumber(parts[0]), ToNumber(parts[1]);
      lo.Int? && hi.Int? && lo.n <= value <= hi.n
    else if ',' in field then
      var parts := Split(field, ',');
      exists i :: 0 <= i < |parts| && ToNumber(parts[i]) == Int(value)
    else
      ToNumber(field) == Int(value) || (field == "7" && value == 0)
  }

  /** Do all five fields match minute `u` of the UTC calendar? */
  predicate MatchesAt(fields: seq<string>, u: int)
    requires |fields| == 5
  {
    && Matches(MinuteOf(u), fields[0], 0)
    && Matches(HourOf(u), fields[1], 0)
    && Matches(DateOf(u).day, fields[2], 1)
    && Matches(DateOf(u).month, fields[3], 1)
    && Matches(WeekdayOf(u), fields[4], 0)
  }

  function FirstMinute(after: int): int {
    after / MINUTE_MS + 1
  }

  /** The outcome of a search from instant `after` (milliseconds): the least matching minute of the scan window. */
  ghost predicate Outcome(cron: string, after: int, r: Result<int, CronError>) {
    match CronFault(cron)
    case Some(e) => r == Err(e)
    case None =>
      CronFaultMeaning(cron);
      var fields, first := CronFields(cron), FirstMinute(after);
      match r
      case Ok(t) =>
        var u := t / MINUTE_MS;
        && t == u * MINUTE_MS
        && first <= u < first + SCAN_MINUTES
        && MatchesAt(fields, u)
        && forall v :: first <= v < u ==> !MatchesAt(fields, v)
      case Err(e) =>
        e == NoMatch && forall v :: first <= v < first + SCAN_MINUTES ==> !MatchesAt(fields, v)
  }

  /** `nextRunAfter`. */
  method NextRunAfter(cron: string, after: int) returns (r: Result<int, CronError>)
    ensures Outcome(cron, after, r) && r == NextRun(cron, after)
  {
    r := Scan(cron, after);
    OutcomeUnique(cron, after, r, NextRun(cron, after));
  }

  /** A cursor moves minute by minute until it matches or passes the limit. */
  method Scan(cron: string, after: int) returns (r: Result<int, CronError>)
    ensures Outcome(cron, after, r)
  {
    CronFaultMeaning(cron);
    var valid := Validate(cron);
    if valid.Err? {
      return Err(valid.error);
    }
    var fields := Words(Trim(cron));
    var cursor := after / MINUTE_MS * MINUTE_MS;
    cursor := cursor + MINUTE_MS;
    var limit := cursor + 366 * 24 * 60 * 60 * 1000;
    ghost var first := FirstMinute(after);
    ghost var u := first;
    while cursor < limit
      invariant cursor == u * MINUTE_MS
      invariant first <= u <= first + SCAN_MINUTES
      invariant forall v :: first <= v < u ==> !MatchesAt(fields, v)
      decreases limit - cursor
    {
      if MatchesAt(fields, cursor / MINUTE_MS) {
        return Ok(cursor);
      }
      cursor := cursor + MINUTE_MS;
      u := u + 1;
    }
    return Err(NoMatch);
  }

  /** A whole minute at which the expression fires. */
  ghost predicate Fires(cron: string, t: int) {
    && |CronFields(cron)| == 5
    && t % MINUTE_MS == 0
    && MatchesAt(CronFields(cron), t / MINUTE_MS)
  }

  /** The outcome is the least firing instant strictly after `after`; a rejection means none in the scan window. */
  lemma OutcomeIsLeast(cron: string, after: int, r: Result<int, CronError>)
    requires Outcome(cron, after, r) && ValidCron(cron)
    ensures r.Ok? ==>
              && after < r.value <= after + SCAN_MINUTES * MINUTE_MS
              && Fires(cron, r.value)
              && forall t :: after < t < r.value ==> !Fires(cron, t)
    ensures r.Err? <==> forall t :: after < t < (FirstMinute(after) + SCAN_MINUTES) * MINUTE_MS ==> !Fires(cron, t)
  {
    CronFaultMeaning(cron);
    var fields, first := CronFields(cron), FirstMinute(after);
    forall t | after < t && Fires(cron, t)
      ensures t == t / MINUTE_MS * MINUTE_MS && first <= t / MINUTE_MS
    {
    }
    if r.Ok? {
      assert Fires(cron, r.value);
    }
  }

  /** A search has one outcome only. */
  lemma OutcomeUnique(cron: string, after: int, r: Result<int, CronError>, s: Result<int, CronError>)
    requires Outcome(cron, after, r) && Outcome(cron, after, s)
    ensures r == s
  {
  }

  lemma {:induction false} OutcomeExists(cron: string, after: int, u: int)
    requires ValidCron(cron) && |CronFields(cron)| == 5
    requires FirstMinute(after) <= u <= FirstMinute(after) + SCAN_MINUTES
    requires forall v :: FirstMinute(after) <= v < u ==> !MatchesAt(CronFields(cron), v)
    ensures exists r :: Outcome(cron, after, r)
    decreases FirstMinute(after) + SCAN_MINUTES - u
  {
    if u == FirstMinute(after) + SCAN_MINUTES {
      assert Outcome(cron, after, Err(NoMatch));
    } else if MatchesAt(CronFields(cron), u) {
      assert u * MINUTE_MS / MINUTE_MS == u;
      assert Outcome(cron, after, Ok(u * MINUTE_MS));
    } else {
      OutcomeExists(cron, after, u + 1);
    }
  }

  /** The one outcome of a search. */
  ghost function NextRun(cron: string, after: int): (r: Result<int, CronError>)
    ensures Outcome(cron, after, r)
    ensures r.Ok? ==> after < r.value
  {
    CronFaultMeaning(cron);
    assert CronFault(cron).Some? ==> Outcome(cron, after, Err(CronFault(cron).value));
    if ValidCron(cron) then
      OutcomeExists(cron, after, FirstMinute(after));
      var r :| Outcome(cron, after, r);
      r
    else
      Err(CronFault(cron).value)
  }
}
