/** Versioned prompt templates (src/chat/prompt-template.service.ts). */
module PromptVersions {
  import opened Wrappers
  import opened VersionLedger

  datatype Template = Template(version: int, content: string, isActive: bool)

  /** The canonical contents and the placeholders a template's content must include, by name. */
  datatype Config = Config(canonical: map<string, string>, required: map<string, seq<string>>)

  predicate OccursAt(content: string, part: string, i: nat) {
    i + |part| <= |content| && content[i..i + |part|] == part
  }

  predicate Includes(content: string, part: string) {
    exists i :: 0 <= i <= |content| - |part| && OccursAt(content, part, i)
  }

  predicate IsMissingPlaceholders(config: Config, name: string, content: string) {
    name in config.required && exists i :: 0 <= i < |config.required[name]| && !Includes(content, config.required[name][i])
  }

  /** A text includes another when that stands between some beginning and some end of it. */
  lemma IncludesExactly(content: string, part: string)
    ensures Includes(content, part) <==> exists a, b :: content == a + part + b
  {
    if i :| 0 <= i <= |content| - |part| && OccursAt(content, part, i) {
      assert content == content[..i] + part + content[i + |part|..];
    }
    if a, b :| content == a + part + b {
      assert OccursAt(content, part, |a|);
    }
  }

  /** One required placeholder that the content does not include is enough. */
  lemma MissingExactly(config: Config, name: string, content: string)
    ensures IsMissingPlaceholders(config, name, content) <==>
            name in config.required && exists part :: part in config.required[name] && !Includes(content, part)
  {
    if name in config.required {
      if part :| part in config.required[name] && !Includes(content, part) {
        var i :| 0 <= i < |config.required[name]| && config.required[name][i] == part;
      }
    }
  }

  /** Every canonical content has what its name requires, and only names with one require anything. */
  ghost predicate Complete(config: Config) {
    && config.required.Keys <= config.canonical.Keys
    && forall name :: name in config.canonical ==>
         config.canonical[name] != "" && !IsMissingPlaceholders(config, name, config.canonical[name])
  }

  lemma IncludedAll(config: Config, name: string)
    ensures forall content :: !IsMissingPlaceholders(config, name, content) && name in config.required ==>
              forall part :: part in config.required[name] ==> exists a, b :: content == a + part + b
  {
    forall content, part | !IsMissingPlaceholders(config, name, content) && name in config.required
                           && part in config.required[name]
      ensures exists a, b :: content == a + part + b
    {
      MissingExactly(config, name, content);
      IncludesExactly(content, part);
    }
  }

  // ── The statements ─────────────────────────────────────────────────────────

  function MaxVersion(rows: seq<Template>): (r: int)
    ensures forall i :: 0 <= i < |rows| ==> rows[i].version <= r
    ensures r == 0 || exists i :: 0 <= i < |rows| && rows[i].version == r
  {
    if rows == [] then 0
    else
      var r, v := MaxVersion(rows[..|rows| - 1]), rows[|rows| - 1].version;
      if v > r then v else r
  }

  function DeactivateAll(rows: seq<Template>): (r: seq<Template>)
    ensures |r| == |rows|
    ensures forall i :: 0 <= i < |r| ==> r[i] == rows[i].(isActive := false)
  {
    seq(|rows|, i requires 0 <= i < |rows| => rows[i].(isActive := false))
  }

  /** The row with the flag and the highest version. */
  function Highest(rows: seq<Template>, active: bool): (r: Option<Template>)
    ensures r.Some? ==> r.value in rows && r.value.isActive == active
    ensures r.Some? ==> forall t :: t in rows && t.isActive == active ==> t.version <= r.value.version
    ensures r.None? ==> forall t :: t in rows ==> t.isActive != active
  {
    if rows == [] then None
    else
      var r, t := Highest(rows[..|rows| - 1], active), rows[|rows| - 1];
      assert rows == rows[..|rows| - 1] + [t];
      if t.isActive == active && (r.None? || t.version > r.value.version) then Some(t) else r
  }

  function ActivateVersion(rows: seq<Template>, version: int): (r: seq<Template>)
    ensures |r| == |rows|
    ensures forall i :: 0 <= i < |r| ==>
              r[i] == if rows[i].version == version then rows[i].(isActive := true) else rows[i]
  {
    seq(|rows|, i requires 0 <= i < |rows| =>
      if rows[i].version == version then rows[i].(isActive := true) else rows[i])
  }

  // ── Refinement ─────────────────────────────────────────────────────────────

  /** Versions are numbered 1, 2, 3, … without a gap. */
  ghost predicate GapFree(rows: seq<Template>) {
    forall i :: 0 <= i < |rows| ==> rows[i].version == i + 1
  }

  function FlagsOf(rows: seq<Template>): (fs: Flags)
    ensures |fs| == |rows|
    ensures forall i :: 0 <= i < |fs| ==> fs[i] == rows[i].isActive
  {
    seq(|rows|, i requires 0 <= i < |rows| => rows[i].isActive)
  }

  ghost predicate Valid(rows: seq<Template>) {
    GapFree(rows) && Ledger(FlagsOf(rows))
  }

  function Published(rows: seq<Template>, content: string): seq<Template> {
    DeactivateAll(rows) + [Template(MaxVersion(rows) + 1, content, true)]
  }

  function RolledBack(rows: seq<Template>): Option<seq<Template>> {
    var previous := Highest(rows, false);
    if previous.None? then None else Some(ActivateVersion(DeactivateAll(rows), previous.value.version))
  }

  /** The contents of the versions, in order. */
  function Contents(rows: seq<Template>): (r: seq<string>)
    ensures |r| == |rows|
    ensures forall i :: 0 <= i < |r| ==> r[i] == rows[i].content
  {
    seq(|rows|, i requires 0 <= i < |rows| => rows[i].content)
  }

  lemma MaxIsLength(rows: seq<Template>)
    requires GapFree(rows)
    ensures MaxVersion(rows) == |rows|
  {
    if rows != [] {
      assert rows[|rows| - 1].version == |rows|;
    }
  }

  lemma HighestInactiveIsLast(rows: seq<Template>)
    requires GapFree(rows)
    ensures var p, q := Highest(rows, false), LastInactive(FlagsOf(rows));
            && (p.Some? <==> q.Some?) && (p.Some? ==> p.value == rows[q.value])
  {
    var p, q := Highest(rows, false), LastInactive(FlagsOf(rows));
    if q.Some? {
      assert rows[q.value] in rows;
      var i :| 0 <= i < |rows| && rows[i] == p.value;
      assert i <= q.value;
    }
  }

  /** Publishing is the machine's publish: one more version, the only active one, the old contents untouched. */
  lemma PublishRefines(rows: seq<Template>, content: string)
    requires GapFree(rows)
    ensures var r := Published(rows, content);
            && GapFree(r) && Some(FlagsOf(r)) == After(FlagsOf(rows), Publish)
            && Contents(r) == Contents(rows) + [content]
  {
    MaxIsLength(rows);
    assert FlagsOf(Published(rows, content)) == Only(|rows| + 1, |rows|);
  }

  /** Rolling back is the machine's rollback and touches no content. */
  lemma RollbackRefines(rows: seq<Template>)
    requires GapFree(rows)
    ensures var r := RolledBack(rows);
            && (r.None? <==> After(FlagsOf(rows), Rollback).None?)
            && (r.Some? ==> GapFree(r.value) && Some(FlagsOf(r.value)) == After(FlagsOf(rows), Rollback))
            && (r.Some? ==> Contents(r.value) == Contents(rows))
  {
    HighestInactiveIsLast(rows);
    var q := LastInactive(FlagsOf(rows));
    if q.Some? {
      assert FlagsOf(RolledBack(rows).value) == Only(|rows|, q.value);
    }
  }

  lemma SameRows(a: seq<Template>, b: seq<Template>)
    requires GapFree(a) && GapFree(b) && Contents(a) == Contents(b) && FlagsOf(a) == FlagsOf(b)
    ensures a == b
  {
    forall i | 0 <= i < |a|
      ensures a[i] == b[i]
    {
      assert Contents(a)[i] == Contents(b)[i] && FlagsOf(a)[i] == FlagsOf(b)[i];
    }
  }

  /** On the whole rows: with two versions or more, rolling back twice restores the table. */
  lemma RollbackTwiceRestores(rows: seq<Template>)
    requires Valid(rows) && |rows| >= 2
    ensures RolledBack(rows).Some? && RolledBack(RolledBack(rows).value) == Some(rows)
  {
    RollbackIsInvolution(FlagsOf(rows));
    RollbackRefines(rows);
    var back := RolledBack(rows).value;
    RollbackRefines(back);
    SameRows(RolledBack(back).value, rows);
  }

  lemma ActiveFlag(rows: seq<Template>, i: nat)
    requires Ledger(FlagsOf(rows)) && i < |rows| && rows[i].isActive
    ensures i == |rows| - 1 || (i == |rows| - 2 && !rows[|rows| - 1].isActive)
  {
    assert FlagsOf(rows)[i];
    if |rows| >= 2 {
      assert FlagsOf(rows)[|rows| - 1] != FlagsOf(rows)[|rows| - 2];
    }
  }

  /** The version that answers is the active one, which is the newest or the one before it. */
  lemma ActiveIsNewestOrBefore(rows: seq<Template>)
    requires Valid(rows)
    ensures var t := Highest(rows, true);
            && (t.Some? ==> t.value.version == |rows| || t.value.version == |rows| - 1)
            && (|rows| >= 2 ==> t.Some?)
            && (t.Some? ==> forall i :: 0 <= i < |rows| && rows[i].isActive ==> rows[i] == t.value)
  {
    var t, n := Highest(rows, true), |rows|;
    if t.Some? {
      var k :| 0 <= k < n && rows[k] == t.value;
      ActiveFlag(rows, k);
      forall i | 0 <= i < n && rows[i].isActive
        ensures i == k
      {
        ActiveFlag(rows, i);
      }
    }
    if n >= 2 {
      assert FlagsOf(rows)[n - 1] || FlagsOf(rows)[n - 2];
      assert rows[n - 1] in rows && rows[n - 2] in rows;
    }
  }

  class PromptTemplateService {
    const config: Config
    var tables: map<string, seq<Template>>

    constructor (config: Config, tables: map<string, seq<Template>>)
      ensures this.config == config && this.tables == tables
    {
      this.config := config;
      this.tables := tables;
    }

    function Rows(name: string): seq<Template>
      reads this
    {
      if name in tables then tables[name] else []
    }

    /** `publish`, one transaction; `fault` rolls it back. */
    method Publish(name: string, content: string, fault: bool) returns (r: Option<Template>)
      modifies this
      ensures r.None? <==> fault
      ensures fault ==> tables == old(tables)
      ensures !fault ==> tables == old(tables)[name := Published(old(Rows(name)), content)]
      ensures !fault ==> r == Some(Template(MaxVersion(old(Rows(name))) + 1, content, true))
    {
      if fault {
        return None;
      }
      var nextVersion := MaxVersion(Rows(name)) + 1;
      tables := tables[name := DeactivateAll(Rows(name))];
      var row := Template(nextVersion, content, true);
      tables := tables[name := Rows(name) + [row]];
      return Some(row);
    }

    /** `rollback`, one transaction: None is the not-found error. */
    method RollBack(name: string) returns (r: Option<Template>)
      modifies this
      ensures var after := RolledBack(old(Rows(name)));
              && (r.Some? <==> after.Some?)
              && tables == (if after.Some? then old(tables)[name := after.value] else old(tables))
              && (r.Some? ==> r.value == Highest(old(Rows(name)), false).value.(isActive := true))
    {
      var previous := Highest(Rows(name), false);
      if previous.None? {
        return None;
      }
      tables := tables[name := DeactivateAll(Rows(name))];
      tables := tables[name := ActivateVersion(Rows(name), previous.value.version)];
      return Some(previous.value.(isActive := true));
    }

    /** `seedCanonical`: without a canonical content, or when publishing fails, the answer is a template no table holds. */
    method SeedCanonical(name: string, fault: bool) returns (t: Template)
      modifies this
      ensures t.isActive
      ensures if name in config.canonical && config.canonical[name] != "" && !fault
              then tables == old(tables)[name := Published(old(Rows(name)), config.canonical[name])]
                   && t.content == config.canonical[name] && t.version == MaxVersion(old(Rows(name))) + 1
              else tables == old(tables) && t.version == 1
                   && t.content == (if name in config.canonical && config.canonical[name] != ""
                                    then config.canonical[name] else "You are a helpful assistant.")
    {
      if name !in config.canonical || config.canonical[name] == "" {
        return Template(1, "You are a helpful assistant.", true);
      }
      var published := Publish(name, config.canonical[name], fault);
      if published.Some? {
        return published.value;
      }
      return Template(1, config.canonical[name], true);
    }

    /**
     * `getActive`: the answer always has the required placeholders, and the table changes only when its active template
     * is missing or lacks them; then it gets one more version.
     */
    method GetActive(name: string, fault: bool) returns (t: Template)
      requires Complete(config)
      modifies this
      ensures name in config.required ==>
                forall part :: part in config.required[name] ==> exists a, b :: t.content == a + part + b
      ensures var active := Highest(old(Rows(name)), true);
              if active.Some? && !IsMissingPlaceholders(config, name, active.value.content)
              then t == active.value && tables == old(tables)
              else if name in config.canonical && !fault
              then t.content == config.canonical[name]
                   && tables == old(tables)[name := Published(old(Rows(name)), config.canonical[name])]
              else tables == old(tables)
    {
      IncludedAll(config, name);
      var template := Highest(Rows(name), true);
      if template.Some? && IsMissingPlaceholders(config, name, template.value.content) {
        t := SeedCanonical(name, fault);
        return;
      }
      if template.None? {
        t := SeedCanonical(name, fault);
        return;
      }
      return template.value;
    }
  }

  /** A rollback onto an incomplete template does not last: the next read publishes the canonical one over it. */
  lemma RollbackToIncompleteIsUndone(config: Config, name: string, rows: seq<Template>)
    requires Complete(config) && name in config.canonical && Valid(rows) && RolledBack(rows).Some?
    requires var active := Highest(RolledBack(rows).value, true);
             active.Some? && IsMissingPlaceholders(config, name, active.value.content)
    ensures var after := Published(RolledBack(rows).value, config.canonical[name]);
            && Valid(after) && |after| == |rows| + 1
            && Highest(after, true) == Some(Template(|rows| + 1, config.canonical[name], true))
  {
    var back := RolledBack(rows).value;
    RollbackRefines(rows);
    StepKeepsLedger(FlagsOf(rows), Rollback);
    PublishRefines(back, config.canonical[name]);
    StepKeepsLedger(FlagsOf(back), Publish);
    var after := Published(back, config.canonical[name]);
    MaxIsLength(back);
    ActiveIsNewestOrBefore(after);
    assert after[|rows|] in after;
  }

  // ── Runs ───────────────────────────────────────────────────────────────────

  datatype Op = PublishOp(content: string) | RollbackOp

  function AfterOps(rows: seq<Template>, ops: seq<Op>): seq<Template> {
    if ops == [] then rows
    else
      var before := AfterOps(rows, ops[..|ops| - 1]);
      match ops[|ops| - 1]
      case PublishOp(content) => Published(before, content)
      case RollbackOp => if RolledBack(before).Some? then RolledBack(before).value else before
  }

  /**
   * From an empty table or one with the single version 1, any run of publishes and rollbacks keeps the versions 1..n
   * without a gap, at most one of them active, that one n or n - 1, and every published content as it was.
   */
  lemma {:induction false} RunKeepsVersions(rows: seq<Template>, ops: seq<Op>)
    requires GapFree(rows) && |rows| <= 1
    ensures Valid(AfterOps(rows, ops))
    ensures ops != [] ==> Contents(AfterOps(rows, ops[..|ops| - 1])) <= Contents(AfterOps(rows, ops))
  {
    if ops != [] {
      var before := AfterOps(rows, ops[..|ops| - 1]);
      RunKeepsVersions(rows, ops[..|ops| - 1]);
      match ops[|ops| - 1]
      case PublishOp(content) =>
        PublishRefines(before, content);
        StepKeepsLedger(FlagsOf(before), Publish);
      case RollbackOp =>
        RollbackRefines(before);
        StepKeepsLedger(FlagsOf(before), Rollback);
    }
  }
}
