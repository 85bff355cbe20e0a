/** The per-file decision of ApplyAsync (Core/ViewModels.cs:204-252):
    back the file up unless a backup exists, try TagLib, and when that
    fails fall back to AtomicParsley then ExifTool, for the title first
    and then the comment, stopping at the first success. Every outcome is
    recorded as one "Write" entry of the file's report; a copy exception
    ends the file's step with Failed. */
module WriteCascade {
  import opened Text
  import opened Models
  import opened Settings
  import opened TagBackend
  import opened ExternalTools
  import opened Backup

  datatype Tool = AtomicParsley | ExifTool

  /** One call into ExternalToolsSvc. */
  datatype Attempt = Attempt(tool: Tool, field: string, value: string)

  /** Everything the world decides for one file: the exception `File.Copy`
      throws (if any), the file as TagLib sees it, and the outcome of each
      process the fallback may start. */
  datatype FileEnv = FileEnv(
    copyError: Option<string>,
    media: MediaFile,
    apTitle: ProcessRun,
    exifTitle: ProcessRun,
    apComment: ProcessRun,
    exifComment: ProcessRun)

  function RunFor(env: FileEnv, a: Attempt): ProcessRun
  {
    match a.tool
    case AtomicParsley => if a.field == "title" then env.apTitle else env.apComment
    case ExifTool => if a.field == "title" then env.exifTitle else env.exifComment
  }

  /** The result of one attempt, with the executables from the settings. */
  function Call(s: Settings, path: string, env: FileEnv, a: Attempt): ToolResult
  {
    match a.tool
    case AtomicParsley => TryWriteWithAtomicParsley(s.atomicParsleyPath, path, a.field, a.value, RunFor(env, a))
    case ExifTool => TryWriteWithExifTool(s.exifToolPath, path, a.field, a.value, RunFor(env, a))
  }

  function Prefix(t: Tool): string
  {
    match t
    case AtomicParsley => "AP:"
    case ExifTool => "Exif:"
  }

  /** The pair of attempts for one field value, if it is present and not blank. */
  function FieldAttempts(values: map<string, string>, key: string, field: string): (r: seq<Attempt>)
    ensures key in values && !IsBlank(values[key]) ==>
      r == [Attempt(AtomicParsley, field, values[key]), Attempt(ExifTool, field, values[key])]
    ensures !(key in values && !IsBlank(values[key])) ==> r == []
  {
    if key in values && !IsBlank(values[key]) then
      [Attempt(AtomicParsley, field, values[key]), Attempt(ExifTool, field, values[key])]
    else []
  }

  /** The attempts the fallback may make, in the order it makes them. */
  function Plan(values: map<string, string>): seq<Attempt>
  {
    FieldAttempts(values, "Title", "title") + FieldAttempts(values, "Comment", "comment")
  }

  /** With both values given, the order is AP-title, Exif-title,
      AP-comment, Exif-comment. */
  lemma PlanOrder(values: map<string, string>)
    requires "Title" in values && !IsBlank(values["Title"])
    requires "Comment" in values && !IsBlank(values["Comment"])
    ensures Plan(values) == [
      Attempt(AtomicParsley, "title", values["Title"]), Attempt(ExifTool, "title", values["Title"]),
      Attempt(AtomicParsley, "comment", values["Comment"]), Attempt(ExifTool, "comment", values["Comment"])]
  {
  }

  /** A blank or absent value is never tried, and neither is any key other
      than Title and Comment. */
  lemma PlanSkipsBlank(values: map<string, string>)
    ensures forall a :: a in Plan(values) ==>
      (a.field == "title" && "Title" in values && a.value == values["Title"] && !IsBlank(a.value))
      || (a.field == "comment" && "Comment" in values && a.value == values["Comment"] && !IsBlank(a.value))
  {
  }

  /** The result each attempt of `plan` would have. */
  function Outcomes(s: Settings, path: string, env: FileEnv, plan: seq<Attempt>): (r: seq<ToolResult>)
    ensures |r| == |plan|
    ensures forall i :: 0 <= i < |plan| ==> r[i] == Call(s, path, env, plan[i])
  {
    seq(|plan|, i requires 0 <= i < |plan| => Call(s, path, env, plan[i]))
  }

  lemma OutcomesAppend(s: Settings, path: string, env: FileEnv, p: seq<Attempt>, q: seq<Attempt>)
    ensures Outcomes(s, path, env, p + q) == Outcomes(s, path, env, p) + Outcomes(s, path, env, q)
  {
  }

  /** `wrote`, the failure messages in order, and the calls made. */
  datatype CascadeResult = CascadeResult(wrote: bool, msgs: seq<string>, calls: seq<Attempt>)

  /** Try the attempts in order, `outs[i]` being what attempt `i` returns,
      stopping at the first success; a failure leaves "AP:" or "Exif:"
      followed by its error. */
  function Cascade(plan: seq<Attempt>, outs: seq<ToolResult>): CascadeResult
    requires |outs| == |plan|
    decreases |plan|
  {
    if |plan| == 0 then CascadeResult(false, [], [])
    else if outs[0].success then CascadeResult(true, [], [plan[0]])
    else
      var rest := Cascade(plan[1..], outs[1..]);
      CascadeResult(rest.wrote, [Prefix(plan[0].tool) + outs[0].error] + rest.msgs, [plan[0]] + rest.calls)
  }

  /** `wrote` says whether some attempt succeeds. */
  lemma {:induction false} CascadeWroteIff(plan: seq<Attempt>, outs: seq<ToolResult>)
    requires |outs| == |plan|
    ensures Cascade(plan, outs).wrote <==> exists i :: 0 <= i < |plan| && outs[i].success
    decreases |plan|
  {
    if |plan| > 0 && !outs[0].success {
      CascadeWroteIff(plan[1..], outs[1..]);
      if exists i :: 0 <= i < |plan| && outs[i].success {
        var i :| 0 <= i < |plan| && outs[i].success;
        assert outs[1..][i - 1] == outs[i];
      }
      if Cascade(plan[1..], outs[1..]).wrote {
        var i :| 0 <= i < |plan[1..]| && outs[1..][i].success;
        assert outs[i + 1] == outs[1..][i];
      }
    }
  }

  /** The calls made are the attempts up to and including the first
      success, or all of them. */
  lemma {:induction false} CascadeCalls(plan: seq<Attempt>, outs: seq<ToolResult>)
    requires |outs| == |plan|
    ensures var r := Cascade(plan, outs);
      && r.calls <= plan
      && (r.wrote ==> |r.calls| > 0 && outs[|r.calls| - 1].success)
      && (forall i :: 0 <= i < |r.calls| - 1 ==> !outs[i].success)
      && (!r.wrote ==> r.calls == plan)
    decreases |plan|
  {
    if |plan| > 0 && !outs[0].success {
      CascadeCalls(plan[1..], outs[1..]);
      var rest := Cascade(plan[1..], outs[1..]);
      var r := Cascade(plan, outs);
      assert r.calls == [plan[0]] + rest.calls;
      assert plan == [plan[0]] + plan[1..];
      forall i | 0 <= i < |r.calls| - 1 ensures !outs[i].success {
        if i > 0 { assert outs[i] == outs[1..][i - 1]; }
      }
      if r.wrote {
        assert outs[|r.calls| - 1] == outs[1..][|rest.calls| - 1];
      }
    }
  }

  /** Without a success, each attempt left its prefixed error, in order. */
  lemma {:induction false} CascadeMessages(plan: seq<Attempt>, outs: seq<ToolResult>)
    requires |outs| == |plan|
    ensures var r := Cascade(plan, outs);
      !r.wrote ==> |r.msgs| == |plan| && forall i :: 0 <= i < |plan| ==> r.msgs[i] == Prefix(plan[i].tool) + outs[i].error
    decreases |plan|
  {
    if |plan| > 0 && !outs[0].success {
      CascadeMessages(plan[1..], outs[1..]);
      var rest := Cascade(plan[1..], outs[1..]);
      var r := Cascade(plan, outs);
      if !r.wrote {
        forall i | 0 <= i < |plan| ensures r.msgs[i] == Prefix(plan[i].tool) + outs[i].error {
          if i > 0 {
            assert r.msgs[i] == rest.msgs[i - 1];
            assert plan[i] == plan[1..][i - 1] && outs[i] == outs[1..][i - 1];
          }
        }
      }
    }
  }

  /** Running two plans in a row is running their concatenation. */
  lemma {:induction false} CascadeAppend(p: seq<Attempt>, q: seq<Attempt>, op: seq<ToolResult>, oq: seq<ToolResult>)
    requires |op| == |p| && |oq| == |q|
    ensures Cascade(p + q, op + oq) ==
      var a := Cascade(p, op);
      if a.wrote then a
      else
        var b := Cascade(q, oq);
        CascadeResult(b.wrote, a.msgs + b.msgs, a.calls + b.calls)
    decreases |p|
  {
    if |p| == 0 {
      assert p + q == q && op + oq == oq;
    } else {
      var pq, o := p + q, op + oq;
      assert pq[0] == p[0] && pq[1..] == p[1..] + q;
      assert o[0] == op[0] && o[1..] == op[1..] + oq;
      if !op[0].success {
        CascadeAppend(p[1..], q, op[1..], oq);
        var tail := Cascade(p[1..], op[1..]);
        var head := Prefix(p[0].tool) + op[0].error;
        assert Cascade(p, op) == CascadeResult(tail.wrote, [head] + tail.msgs, [p[0]] + tail.calls);
        var whole := Cascade(p[1..] + q, op[1..] + oq);
        assert Cascade(pq, o) == CascadeResult(whole.wrote, [head] + whole.msgs, [p[0]] + whole.calls);
        if !tail.wrote {
          var b := Cascade(q, oq);
          assert [head] + (tail.msgs + b.msgs) == ([head] + tail.msgs) + b.msgs;
          assert [p[0]] + (tail.calls + b.calls) == ([p[0]] + tail.calls) + b.calls;
        }
      }
    }
  }

  /** Cascade over a two-attempt plan, spelled out. */
  lemma TwoStepCascade(plan: seq<Attempt>, outs: seq<ToolResult>)
    requires |plan| == 2 && |outs| == 2
    ensures Cascade(plan, outs) ==
      if outs[0].success then CascadeResult(true, [], [plan[0]])
      else if outs[1].success then CascadeResult(true, [Prefix(plan[0].tool) + outs[0].error], plan)
      else CascadeResult(false, [Prefix(plan[0].tool) + outs[0].error, Prefix(plan[1].tool) + outs[1].error], plan)
  {
    var p1, o1 := plan[1..], outs[1..];
    assert p1[0] == plan[1] && o1[0] == outs[1];
    assert p1[1..] == [] && o1[1..] == [];
    assert Cascade(p1[1..], o1[1..]) == CascadeResult(false, [], []);
    assert [plan[0]] + [plan[1]] == plan;
  }

  /** The fallback for a set of values. */
  function Fallback(s: Settings, path: string, env: FileEnv, values: map<string, string>): CascadeResult
  {
    Cascade(Plan(values), Outcomes(s, path, env, Plan(values)))
  }

  /** The message of a Partial result: every failure, in attempt order. */
  function FailureText(s: Settings, path: string, env: FileEnv, values: map<string, string>): string
  {
    Join("; ", Fallback(s, path, env, values).msgs)
  }

  // ---------------------------------------------------------------------
  // One file

  function WriteEntry(status: FieldStatus, message: string): FieldResult
  {
    FieldResult("Write", status, message, None)
  }

  function ReportOf(path: string, status: FieldStatus, message: string): (r: FileReport)
    ensures r.filePath == path && r.fields.Keys == {"Write"}
    ensures r.fields["Write"] == FieldResult("Write", status, message, None)
  {
    FileReport(path, map["Write" := WriteEntry(status, message)])
  }

  /** What one file's step yields: its report, the set of existing paths
      afterwards (with the backup made, if any), and the external calls. */
  datatype StepResult = StepResult(report: FileReport, existing: set<string>, calls: seq<Attempt>)

  /** Does TryWriteBasic succeed on this file? */
  predicate PrimaryWrites(m: MediaFile)
  {
    m.handle.Tagged? && m.saveError.None?
  }

  /** The step for one file, `existing` being the paths that exist before it. */
  function FileStep(s: Settings, createBackup: bool, values: map<string, string>, path: string, env: FileEnv, existing: set<string>): (r: StepResult)
    ensures r.report.filePath == path && r.report.fields.Keys == {"Write"}
    ensures existing <= r.existing
    ensures r.existing <= existing + {BackupPath(path)}
  {
    var bak := BackupPath(path);
    if createBackup && bak !in existing && env.copyError.Some? then
      StepResult(ReportOf(path, Failed, env.copyError.value), existing, [])
    else
      var existing' := if createBackup then existing + {bak} else existing;
      if PrimaryWrites(env.media) then
        StepResult(ReportOf(path, Success, "TagLib"), existing', [])
      else
        var c := Fallback(s, path, env, values);
        if c.wrote then StepResult(ReportOf(path, Success, "External"), existing', c.calls)
        else StepResult(ReportOf(path, Partial, Join("; ", c.msgs)), existing', c.calls)
  }

  /** A successful primary write gives Success/"TagLib" and no external call. */
  lemma PrimarySuccessMakesNoExternalCall(s: Settings, createBackup: bool, values: map<string, string>, path: string, env: FileEnv, existing: set<string>)
    requires PrimaryWrites(env.media)
    requires !(createBackup && BackupPath(path) !in existing && env.copyError.Some?)
    ensures FileStep(s, createBackup, values, path, env, existing).calls == []
    ensures FileStep(s, createBackup, values, path, env, existing).report.fields["Write"] == WriteEntry(Success, "TagLib")
  {
  }

  /** A failed copy ends the step: Failed with the exception message, and
      neither TagLib nor any external tool is tried. */
  lemma CopyFailureIsFailed(s: Settings, values: map<string, string>, path: string, env: FileEnv, existing: set<string>)
    requires BackupPath(path) !in existing && env.copyError.Some?
    ensures FileStep(s, true, values, path, env, existing) ==
      StepResult(ReportOf(path, Failed, env.copyError.value), existing, [])
  {
  }

  /** An existing backup is never copied over: what the copy would do is
      irrelevant, and the set of existing paths is unchanged. */
  lemma ExistingBackupKept(s: Settings, values: map<string, string>, path: string, env: FileEnv, existing: set<string>)
    requires BackupPath(path) in existing
    ensures FileStep(s, true, values, path, env, existing) == FileStep(s, true, values, path, env.(copyError := None), existing)
    ensures FileStep(s, true, values, path, env, existing).existing == existing
  {
    var env' := env.(copyError := None);
    assert Outcomes(s, path, env, Plan(values)) == Outcomes(s, path, env', Plan(values));
  }

  /** After a step with backups on that did not fail, the backup exists. */
  lemma BackupExistsAfterStep(s: Settings, values: map<string, string>, path: string, env: FileEnv, existing: set<string>)
    requires FileStep(s, true, values, path, env, existing).report.fields["Write"].status != Failed
    ensures BackupPath(path) in FileStep(s, true, values, path, env, existing).existing
  {
  }

  /** When the primary write fails the status is Success/"External" if some
      attempt succeeded, and otherwise Partial with every attempt made and
      every failure joined by "; " in order. */
  lemma FallbackOutcome(s: Settings, createBackup: bool, values: map<string, string>, path: string, env: FileEnv, existing: set<string>)
    requires !PrimaryWrites(env.media)
    requires !(createBackup && BackupPath(path) !in existing && env.copyError.Some?)
    ensures var r := FileStep(s, createBackup, values, path, env, existing);
      && ((exists i :: 0 <= i < |Plan(values)| && Call(s, path, env, Plan(values)[i]).success) ==>
            r.report.fields["Write"] == WriteEntry(Success, "External"))
      && ((forall i :: 0 <= i < |Plan(values)| ==> !Call(s, path, env, Plan(values)[i]).success) ==>
            r.report.fields["Write"] == WriteEntry(Partial, FailureText(s, path, env, values))
            && r.calls == Plan(values))
  {
    var plan := Plan(values);
    var outs := Outcomes(s, path, env, plan);
    CascadeWroteIff(plan, outs);
    CascadeCalls(plan, outs);
  }

  /** One field's block of the fallback: AtomicParsley, then ExifTool if
      AtomicParsley failed. */
  method TryBothTools(s: Settings, path: string, env: FileEnv, field: string, value: string)
    returns (wrote: bool, msgs: seq<string>, calls: seq<Attempt>)
    ensures var plan := [Attempt(AtomicParsley, field, value), Attempt(ExifTool, field, value)];
      CascadeResult(wrote, msgs, calls) == Cascade(plan, Outcomes(s, path, env, plan))
  {
    var plan := [Attempt(AtomicParsley, field, value), Attempt(ExifTool, field, value)];
    TwoStepCascade(plan, Outcomes(s, path, env, plan));
    msgs, calls, wrote := [], [], false;
    var a := TryWriteWithAtomicParsley(s.atomicParsleyPath, path, field, value, RunFor(env, plan[0]));
    calls := calls + [plan[0]];
    if a.success { wrote := true; } else { msgs := msgs + ["AP:" + a.error]; }
    if !wrote {
      var e := TryWriteWithExifTool(s.exifToolPath, path, field, value, RunFor(env, plan[1]));
      calls := calls + [plan[1]];
      if e.success { wrote := true; } else { msgs := msgs + ["Exif:" + e.error]; }
    }
  }

  /** `ApplyAsync`'s body for one file, statement by statement. */
  method ProcessFile(s: Settings, createBackup: bool, values: map<string, string>, path: string, env: FileEnv, existing: set<string>)
    returns (r: StepResult)
    ensures r == FileStep(s, createBackup, values, path, env, existing)
  {
    var existing' := existing;
    if createBackup {
      var bak := BackupPath(path);
      if bak !in existing {
        if env.copyError.Some? {
          // File.Copy threw: the catch block records the message.
          return StepResult(ReportOf(path, Failed, env.copyError.value), existing, []);
        }
        existing' := existing + {bak};
      }
    }
    var ok, msg, after := TryWriteBasic(env.media, values);
    if ok {
      return StepResult(ReportOf(path, Success, "TagLib"), existing', []);
    }
    var wrote, msgs, calls := RunFallback(s, path, env, values);
    if wrote {
      r := StepResult(ReportOf(path, Success, "External"), existing', calls);
    } else {
      r := StepResult(ReportOf(path, Partial, Join("; ", msgs)), existing', calls);
    }
  }

  /** The else branch of the primary write: the title block, then the
      comment block unless the title was written. */
  method RunFallback(s: Settings, path: string, env: FileEnv, values: map<string, string>)
    returns (wrote: bool, msgs: seq<string>, calls: seq<Attempt>)
    ensures CascadeResult(wrote, msgs, calls) == Fallback(s, path, env, values)
  {
    ghost var titlePlan := FieldAttempts(values, "Title", "title");
    ghost var commentPlan := FieldAttempts(values, "Comment", "comment");
    msgs, calls, wrote := [], [], false;
    if "Title" in values && !IsBlank(values["Title"]) {
      wrote, msgs, calls := TryBothTools(s, path, env, "title", values["Title"]);
    }
    assert CascadeResult(wrote, msgs, calls) == Cascade(titlePlan, Outcomes(s, path, env, titlePlan));
    if !wrote && "Comment" in values && !IsBlank(values["Comment"]) {
      var w, m, c := TryBothTools(s, path, env, "comment", values["Comment"]);
      wrote, msgs, calls := w, msgs + m, calls + c;
    }
    CascadeAppend(titlePlan, commentPlan, Outcomes(s, path, env, titlePlan), Outcomes(s, path, env, commentPlan));
    OutcomesAppend(s, path, env, titlePlan, commentPlan);
  }

  // ---------------------------------------------------------------------
  // The batch

  datatype BatchResult = BatchResult(reports: seq<FileReport>, existing: set<string>, calls: seq<seq<Attempt>>)

  /** The batch so far followed by one more file's step. */
  function Extend(prev: BatchResult, step: StepResult): (r: BatchResult)
    ensures r.reports == prev.reports + [step.report] && r.calls == prev.calls + [step.calls]
    ensures r.existing == step.existing
  {
    BatchResult(prev.reports + [step.report], step.existing, prev.calls + [step.calls])
  }

  /** The reports of ApplyAsync for the target paths in order, each file's
      step seeing the backups made by the steps before it. */
  function Batch(s: Settings, createBackup: bool, values: map<string, string>, paths: seq<string>, world: string -> FileEnv, existing: set<string>): (r: BatchResult)
    ensures |r.reports| == |paths| && |r.calls| == |paths|
    ensures forall i :: 0 <= i < |paths| ==> r.reports[i].filePath == paths[i] && r.reports[i].fields.Keys == {"Write"}
    ensures existing <= r.existing
    decreases |paths|
  {
    if |paths| == 0 then BatchResult([], existing, [])
    else
      var init := paths[..|paths| - 1];
      var prev := Batch(s, createBackup, values, init, world, existing);
      var p := paths[|paths| - 1];
      var r := Extend(prev, FileStep(s, createBackup, values, p, world(p), prev.existing));
      assert forall i :: 0 <= i < |init| ==> init[i] == paths[i] && r.reports[i] == prev.reports[i];
      r
  }

  /** The batch over the first `i + 1` paths is the batch over the first `i`
      extended by the step of path `i`. */
  lemma BatchStep(s: Settings, createBackup: bool, values: map<string, string>, paths: seq<string>, world: string -> FileEnv, existing: set<string>, i: nat)
    requires i < |paths|
    ensures var prev := Batch(s, createBackup, values, paths[..i], world, existing);
      Batch(s, createBackup, values, paths[..i + 1], world, existing)
        == Extend(prev, FileStep(s, createBackup, values, paths[i], world(paths[i]), prev.existing))
  {
    assert paths[..i + 1][..i] == paths[..i];
  }

  /** A longer batch extends the reports of a shorter one: a file's report
      does not depend on the files after it. */
  lemma {:induction false} BatchPrefix(s: Settings, createBackup: bool, values: map<string, string>, paths: seq<string>, world: string -> FileEnv, existing: set<string>, k: nat)
    requires k <= |paths|
    ensures Batch(s, createBackup, values, paths[..k], world, existing).reports
         == Batch(s, createBackup, values, paths, world, existing).reports[..k]
    decreases |paths|
  {
    if k < |paths| {
      var init := paths[..|paths| - 1];
      var prev := Batch(s, createBackup, values, init, world, existing);
      assert init[..k] == paths[..k];
      BatchPrefix(s, createBackup, values, init, world, existing, k);
      assert Batch(s, createBackup, values, paths, world, existing).reports[..|init|] == prev.reports;
    } else {
      assert paths[..k] == paths;
    }
  }

  /** Without backups, each report is the file's step on its own. */
  lemma {:induction false} BatchWithoutBackup(s: Settings, values: map<string, string>, paths: seq<string>, world: string -> FileEnv, existing: set<string>, i: nat)
    requires i < |paths|
    ensures Batch(s, false, values, paths, world, existing).reports[i]
         == FileStep(s, false, values, paths[i], world(paths[i]), existing).report
    ensures Batch(s, false, values, paths, world, existing).existing == existing
    decreases |paths|
  {
    var init := paths[..|paths| - 1];
    BatchExistingWithoutBackup(s, values, init, world, existing);
    if i < |paths| - 1 {
      BatchWithoutBackup(s, values, init, world, existing, i);
    }
  }

  lemma {:induction false} BatchExistingWithoutBackup(s: Settings, values: map<string, string>, paths: seq<string>, world: string -> FileEnv, existing: set<string>)
    ensures Batch(s, false, values, paths, world, existing).existing == existing
    decreases |paths|
  {
    if |paths| > 0 {
      BatchExistingWithoutBackup(s, values, paths[..|paths| - 1], world, existing);
    }
  }
}
