/** The engine and the directory validator agree on every run. */
module RerunAgreement {
  import opened Options
  import opened Integers
  import opened BoundedLog
  import opened Sequences
  import opened RerunEvidence
  import opened RerunEngine
  import Text

  /** A step's process leaves nothing but that step's declared outputs. */
  ghost predicate Confined(plan: Plan, behaviour: Behaviour) {
    forall i: nat | i < |plan.steps| :: Within(plan.steps[i], behaviour(i))
  }

  predicate Within(step: Step, b: StepBehaviour) {
    forall name | name in b.writes :: name.path in step.outputs
  }

  // ----- facts about the fixed registry -----

  lemma FixedIdsDistinct(i: nat, j: nat)
    requires i < 6 && j < 6 && FIXED_STEP_IDS[i] == FIXED_STEP_IDS[j]
    ensures i == j
  {
    var ids := ["intent", "rag", "diagnosis", "tool", "memory", "unified"];
    assert ids[0][0] == 'i' && ids[1][0] == 'r' && ids[2][0] == 'd' && ids[3][0] == 't' && ids[4][0] == 'm'
           && ids[5][0] == 'u';
    assert FIXED_STEP_IDS[i][0] == FIXED_STEP_IDS[j][0];
  }

  /** Every declared output starts with the first letter of its step's id and is a bare file name. */
  lemma FixedOutputFacts(i: nat, path: string)
    requires i < 6 && path in FixedOutputs(i)
    ensures path != "" && path[0] == FIXED_STEP_IDS[i][0]
    ensures '/' !in path && '\\' !in path && path[0] != '.'
  {
  }

  lemma FixedOutputsDistinct(i: nat)
    requires i < 6
    ensures FixedOutputs(i) != [] && Distinct(FixedOutputs(i))
  {
    assert |"intent.json"| != |"intent.md"| && |"rag.json"| != |"rag.md"| && |"unified.json"| != |"unified.md"|;
  }

  lemma FixedOutputOwner(i: nat, j: nat, path: string)
    requires i < 6 && j < 6 && path in FixedOutputs(i) && path in FixedOutputs(j)
    ensures i == j
  {
    FixedOutputFacts(i, path);
    FixedOutputFacts(j, path);
    var ids := ["intent", "rag", "diagnosis", "tool", "memory", "unified"];
    assert ids[0][0] == 'i' && ids[1][0] == 'r' && ids[2][0] == 'd' && ids[3][0] == 't' && ids[4][0] == 'm'
           && ids[5][0] == 'u';
  }

  lemma {:induction false} BareNameComponents(path: string)
    requires '/' !in path
    ensures Components(path) == [path]
  {
    if path != "" {
      BareNameComponents(path[1..]);
      assert path == [path[0]] + path[1..];
    }
  }

  lemma FixedOutputsSafe(i: nat, path: string)
    requires i < 6 && path in FixedOutputs(i)
    ensures SafeRelativePath(path)
  {
    FixedOutputFacts(i, path);
    BareNameComponents(path);
  }

  // ----- collecting outputs -----

  /** What CollectFrom returns: a prefix of the names, each with its file's digest and size. */
  lemma {:induction false} CollectFromIsPrefix(codec: Codec, files: Files, names: seq<string>)
    ensures var (outputs, ok) := CollectFrom(codec, files, names);
            && |outputs| <= |names| && (ok ==> |outputs| == |names|)
            && forall i | 0 <= i < |outputs| ::
                 outputs[i].path == names[i] && OutputOf(codec, files, names[i]) == Some(outputs[i])
  {
    if names != [] {
      CollectFromIsPrefix(codec, files, names[1..]);
    }
  }

  /** Collected outputs: distinct paths, all declared, each recording the file as it stands;
      all of them when collection succeeds. */
  lemma CollectedFacts(codec: Codec, files: Files, names: seq<string>)
    requires Distinct(names)
    ensures var (outputs, ok) := Collected(codec, files, names);
            && Distinct(PathsOf(outputs))
            && (ok ==> |outputs| == |names|)
            && forall o | o in outputs :: o.path in names && OutputOf(codec, files, o.path) == Some(o)
  {
    CollectFromIsPrefix(codec, files, names);
    var (found, ok) := CollectFrom(codec, files, names);
    var outputs := Collected(codec, files, names).0;
    assert Distinct(PathsOf(found)) by {
      assert forall i | 0 <= i < |found| :: PathsOf(found)[i] == names[i];
    }
    if ok {
      Text.SortBySorts(OutputPath, found);
      assert Distinct(found) by {
        assert forall i | 0 <= i < |found| :: found[i].path == names[i];
      }
      RearrangedStaysDistinct(found, outputs);
      forall o | o in outputs ensures o in found {
        Text.SameMembers(outputs, found, o);
      }
      forall i, j | 0 <= i < j < |outputs| ensures outputs[i].path != outputs[j].path {
        assert outputs[i] in found && outputs[j] in found && outputs[i] != outputs[j];
      }
    }
  }

  // ----- the invariant of a run -----

  predicate NameAllowed(plan: Plan, steps: nat, checkpoints: nat, name: FileName)
    requires steps <= |plan.steps|
  {
    match name
    case PlanFile => true
    case ResultFile => false
    case CheckpointFile(k) => 0 <= k <= checkpoints
    case StdoutLog(id) => exists j | 0 <= j < steps :: plan.steps[j].id == id
    case StderrLog(id) => exists j | 0 <= j < steps :: plan.steps[j].id == id
    case DeclaredOutput(path) => exists j | 0 <= j < steps :: path in plan.steps[j].outputs
  }

  ghost predicate CheckpointsKept(codec: Codec, plan: Plan, runId: string, started: Time,
                                  files: Files, steps: seq<StepResult>, checkpoints: nat)
    requires checkpoints <= |steps|
  {
    forall k: nat | k <= checkpoints ::
      && CheckpointFile(k) in files
      && files[CheckpointFile(k)]
      == RegularFile(codec.indentReport(RunningReport(codec, plan, runId, started, steps[..k])))
  }

  ghost predicate NamesKept(plan: Plan, files: Files, steps: nat, checkpoints: nat)
    requires steps <= |plan.steps|
  {
    forall name | name in files :: files[name].RegularFile? && NameAllowed(plan, steps, checkpoints, name)
  }

  ghost predicate EvidenceKept(codec: Codec, plan: Plan, files: Files, steps: seq<StepResult>)
    requires |steps| <= |plan.steps|
  {
    forall j | 0 <= j < |steps| :: ResultMatchesStep(steps[j], plan.steps[j]) && EvidenceMatches(codec, files, steps[j])
  }

  /** Evidence of the given finished steps with checkpoints 0..checkpoints on disk. */
  ghost predicate Trail(codec: Codec, plan: Plan, runId: string, started: Time,
                        files: Files, steps: seq<StepResult>, checkpoints: nat)
  {
    && |steps| <= |plan.steps| && checkpoints <= |steps|
    && PlanFile in files && files[PlanFile] == RegularFile(codec.indentPlan(plan))
    && CheckpointsKept(codec, plan, runId, started, files, steps, checkpoints)
    && NamesKept(plan, files, |steps|, checkpoints)
    && EvidenceKept(codec, plan, files, steps)
  }

  /** The step about to run finds its own file names unused. */
  lemma LogsAreNew(codec: Codec, plan: Plan, runId: string, started: Time, files: Files, steps: seq<StepResult>)
    requires FixedRegistry(plan.steps) && |steps| < 6 && Trail(codec, plan, runId, started, files, steps, |steps|)
    ensures StdoutLog(plan.steps[|steps|].id) !in files && StderrLog(plan.steps[|steps|].id) !in files
  {
    forall j | 0 <= j < |steps| ensures plan.steps[j].id != plan.steps[|steps|].id {
      if plan.steps[j].id == plan.steps[|steps|].id {
        FixedIdsDistinct(|steps|, j);
      }
    }
  }

  /** A finished step's result matches the plan and records the files as the step left them. */
  lemma StepIsRecorded(codec: Codec, files: Files, step: Step, b: StepBehaviour, started: Time, finished: Time)
    requires Distinct(step.outputs)
    ensures var files' := FilesAfterProcess(files, step, b);
            var result := FinishedStep(codec, files', step, b, started, finished);
            && ResultMatchesStep(result, step)
            && EvidenceMatches(codec, files', result)
            && Distinct(PathsOf(result.outputs))
            && (result.status != StepFailed ==> |result.outputs| == |step.outputs|)
            && forall o | o in result.outputs :: OutputOf(codec, files', o.path) == Some(o)
  {
    var files' := FilesAfterProcess(files, step, b);
    CollectedFacts(codec, files', step.outputs);
    LogsAsWritten(files, step, b);
  }

  /** A finished step reports of each log the hash and size of exactly the first bytes its process wrote, up to the
      log limit, and that it was cut exactly when the process wrote more. */
  lemma StepReportsItsLogs(codec: Codec, files: Files, step: Step, b: StepBehaviour, started: Time, finished: Time)
    ensures var result := FinishedStep(codec, files, step, b, started, finished);
            var out, err := Concat(b.stdout), Concat(b.stderr);
            && result.stdoutSha == codec.sha(out[..Min(|out|, MAX_LOG_BYTES)])
            && result.stdoutBytes == Min(|out|, MAX_LOG_BYTES) && (result.stdoutTruncated <==> |out| > MAX_LOG_BYTES)
            && result.stderrSha == codec.sha(err[..Min(|err|, MAX_LOG_BYTES)])
            && result.stderrBytes == Min(|err|, MAX_LOG_BYTES) && (result.stderrTruncated <==> |err| > MAX_LOG_BYTES)
            && (0 <= finished - started <= MAX_INT64 ==>
                  1_000_000 * result.durationMillis <= finished - started < 1_000_000 * (result.durationMillis + 1))
  {
    KeepsExactlyThePrefix(MAX_LOG_BYTES, b.stdout);
    KeepsExactlyThePrefix(MAX_LOG_BYTES, b.stderr);
  }

  lemma LogsAsWritten(files: Files, step: Step, b: StepBehaviour)
    ensures var files' := FilesAfterProcess(files, step, b);
            && StdoutLog(step.id) in files' && StderrLog(step.id) in files'
            && files'[StdoutLog(step.id)] == RegularFile(Written(Fresh(MAX_LOG_BYTES), b.stdout).stored)
            && files'[StderrLog(step.id)] == RegularFile(Written(Fresh(MAX_LOG_BYTES), b.stderr).stored)
  {
  }

  /** A confined step does not touch the evidence of the steps before it. */
  lemma OldEvidenceStays(codec: Codec, plan: Plan, files: Files, b: StepBehaviour, i: nat, old_: StepResult, j: nat)
    requires FixedRegistry(plan.steps) && j < i < 6
    requires Within(plan.steps[i], b)
    requires ResultMatchesStep(old_, plan.steps[j]) && EvidenceMatches(codec, files, old_)
    ensures EvidenceMatches(codec, FilesAfterProcess(files, plan.steps[i], b), old_)
  {
    if plan.steps[j].id == plan.steps[i].id {
      FixedIdsDistinct(i, j);
    }
    forall o | o in old_.outputs ensures DeclaredOutput(o.path) !in b.writes {
      if DeclaredOutput(o.path) in b.writes {
        FixedOutputOwner(i, j, o.path);
      }
    }
  }

  lemma StepNamesAllowed(plan: Plan, files: Files, b: StepBehaviour, i: nat)
    requires i < |plan.steps|
    requires Within(plan.steps[i], b)
    requires NamesKept(plan, files, i, i)
    ensures NamesKept(plan, FilesAfterProcess(files, plan.steps[i], b), i + 1, i)
  {
    var files' := FilesAfterProcess(files, plan.steps[i], b);
    forall name | name in files' ensures files'[name].RegularFile? && NameAllowed(plan, i + 1, i, name) {
      ProcessNames(files, plan.steps[i], b, name);
      if name in files {
        OldNameStaysAllowed(plan, i, name);
      } else {
        NewNameIsAllowed(plan, i, name);
      }
    }
  }

  lemma ProcessNames(files: Files, step: Step, b: StepBehaviour, name: FileName)
    requires name in FilesAfterProcess(files, step, b)
    requires Within(step, b)
    requires name in files ==> files[name].RegularFile?
    ensures FilesAfterProcess(files, step, b)[name].RegularFile?
    ensures name in files || name == StdoutLog(step.id) || name == StderrLog(step.id)
            || (name.DeclaredOutput? && name.path in step.outputs)
  {
  }

  lemma OldNameStaysAllowed(plan: Plan, i: nat, name: FileName)
    requires i < |plan.steps| && NameAllowed(plan, i, i, name)
    ensures NameAllowed(plan, i + 1, i, name)
  {
  }

  lemma NewNameIsAllowed(plan: Plan, i: nat, name: FileName)
    requires i < |plan.steps|
    requires name == StdoutLog(plan.steps[i].id) || name == StderrLog(plan.steps[i].id)
             || (name.DeclaredOutput? && name.path in plan.steps[i].outputs)
    ensures NameAllowed(plan, i + 1, i, name)
  {
  }

  lemma ProcessKeepsDocuments(files: Files, step: Step, b: StepBehaviour)
    ensures var files' := FilesAfterProcess(files, step, b);
            forall name | name in files && (name.PlanFile? || name.CheckpointFile?) ::
              name in files' && files'[name] == files[name]
  {
  }

  lemma CheckpointsStay(codec: Codec, plan: Plan, runId: string, started: Time,
                        files: Files, step: Step, b: StepBehaviour, steps: seq<StepResult>, result: StepResult)
    requires CheckpointsKept(codec, plan, runId, started, files, steps, |steps|)
    ensures CheckpointsKept(codec, plan, runId, started, FilesAfterProcess(files, step, b), steps + [result], |steps|)
  {
    ProcessKeepsDocuments(files, step, b);
    forall k: nat | k <= |steps| ensures (steps + [result])[..k] == steps[..k] {
    }
  }

  lemma EvidenceSnoc(codec: Codec, plan: Plan, files: Files, steps: seq<StepResult>, result: StepResult)
    requires |steps| < |plan.steps| && EvidenceKept(codec, plan, files, steps)
    requires ResultMatchesStep(result, plan.steps[|steps|]) && EvidenceMatches(codec, files, result)
    ensures EvidenceKept(codec, plan, files, steps + [result])
  {
    var steps' := steps + [result];
    forall j | 0 <= j < |steps'| ensures steps'[j] == if j < |steps| then steps[j] else result {
    }
  }

  lemma OldStepsStay(codec: Codec, plan: Plan, files: Files, b: StepBehaviour, steps: seq<StepResult>)
    requires FixedRegistry(plan.steps) && |steps| < 6
    requires Within(plan.steps[|steps|], b)
    requires EvidenceKept(codec, plan, files, steps)
    ensures EvidenceKept(codec, plan, FilesAfterProcess(files, plan.steps[|steps|], b), steps)
  {
    forall j | 0 <= j < |steps|
      ensures EvidenceMatches(codec, FilesAfterProcess(files, plan.steps[|steps|], b), steps[j])
    {
      OldEvidenceStays(codec, plan, files, b, |steps|, steps[j], j);
    }
  }

  lemma StepKeepsEvidence(codec: Codec, plan: Plan, files: Files, steps: seq<StepResult>, b: StepBehaviour, t0: Time,
                          t1: Time)
    requires FixedRegistry(plan.steps) && |steps| < 6
    requires Within(plan.steps[|steps|], b)
    requires EvidenceKept(codec, plan, files, steps)
    ensures var files' := FilesAfterProcess(files, plan.steps[|steps|], b);
            EvidenceKept(codec, plan, files', steps + [FinishedStep(codec, files', plan.steps[|steps|], b, t0, t1)])
  {
    var files' := FilesAfterProcess(files, plan.steps[|steps|], b);
    var result := FinishedStep(codec, files', plan.steps[|steps|], b, t0, t1);
    FixedOutputsDistinct(|steps|);
    StepIsRecorded(codec, files, plan.steps[|steps|], b, t0, t1);
    OldStepsStay(codec, plan, files, b, steps);
    EvidenceSnoc(codec, plan, files', steps, result);
  }

  /** One more step keeps the trail: its logs and outputs are new files, its result records them. */
  lemma StepKeepsTrail(codec: Codec, plan: Plan, runId: string, started: Time, files: Files, steps: seq<StepResult>,
                       b: StepBehaviour, files': Files, result: StepResult, t0: Time, t1: Time)
    requires FixedRegistry(plan.steps) && |steps| < 6
    requires Within(plan.steps[|steps|], b)
    requires Trail(codec, plan, runId, started, files, steps, |steps|)
    requires files' == FilesAfterProcess(files, plan.steps[|steps|], b)
    requires result == FinishedStep(codec, files', plan.steps[|steps|], b, t0, t1)
    ensures Trail(codec, plan, runId, started, files', steps + [result], |steps|)
  {
    ProcessKeepsDocuments(files, plan.steps[|steps|], b);
    CheckpointsStay(codec, plan, runId, started, files, plan.steps[|steps|], b, steps, result);
    StepNamesAllowed(plan, files, b, |steps|);
    StepKeepsEvidence(codec, plan, files, steps, b, t0, t1);
  }

  lemma StepWithNewLogs(codec: Codec, files: Files, step: Step, b: StepBehaviour, clock: Readings, taken: nat)
    requires StdoutLog(step.id) !in files && StderrLog(step.id) !in files
    ensures var files' := FilesAfterProcess(files, step, b);
            var result := FinishedStep(codec, files', step, b, clock(taken), clock(taken + 1));
            StepSpec(codec, files, step, b, clock, taken)
            == StepEnd(files', result, result.status == StepFailed, taken + 2)
  {
  }

  // ----- the end of a run -----

  /** The identity a report shares with its plan and with every checkpoint of its run. */
  predicate SameRun(codec: Codec, plan: Plan, runId: string, started: Time, report: Report) {
    && report.schemaVersion == REPORT_SCHEMA && report.runId == runId && report.planSha == plan.planSha
    && report.sealId == plan.sealId && report.sealSha == plan.sealSha
    && report.releaseId == plan.releaseId && report.gitSha == plan.gitSha
    && report.startedAt == started && report.guardrails == RUN_GUARDRAILS
    && Finalize(codec, report) == report
  }

  function LastRunning(report: Report): int {
    if report.status.Failed? then |report.steps| - 1 else |report.steps|
  }

  predicate FinalNameAllowed(plan: Plan, report: Report, name: FileName)
    requires |report.steps| <= |plan.steps| && 0 <= LastRunning(report)
  {
    || name == ResultFile
    || name == CheckpointFile(report.checkpoint)
    || NameAllowed(plan, |report.steps|, LastRunning(report), name)
  }

  /** What a run leaves, said of its final report. */
  ghost predicate LegalEnd(codec: Codec, plan: Plan, runId: string, started: Time, files: Files, report: Report) {
    && SameRun(codec, plan, runId, started, report)
    && |report.steps| <= |plan.steps| && 0 <= LastRunning(report) && report.checkpoint == |report.steps| + 1
    && PlanFile in files && files[PlanFile] == RegularFile(codec.indentPlan(plan))
    && ResultFile in files && files[ResultFile] == RegularFile(codec.indentReport(report))
    && CheckpointFile(report.checkpoint) in files && files[CheckpointFile(report.checkpoint)] == files[ResultFile]
    && CheckpointsKept(codec, plan, runId, started, files, report.steps, LastRunning(report))
    && (forall name | name in files :: files[name].RegularFile? && FinalNameAllowed(plan, report, name))
    && EvidenceKept(codec, plan, files, report.steps)
  }

  lemma FinalReportShape(codec: Codec, plan: Plan, runId: string, started: Time, finished: Time,
                         steps: seq<StepResult>, failedStep: Option<string>)
    ensures var report := FinalReport(codec, plan, runId, started, finished, steps, failedStep);
            && SameRun(codec, plan, runId, started, report)
            && report.steps == steps && report.checkpoint == |steps| + 1
            && (report.status.Failed? <==> failedStep.Some?)
  {
  }

  /** Writing the last two documents over a trail makes it a legal end. */
  lemma LastFilesMakeLegalEnd(codec: Codec, plan: Plan, runId: string, started: Time, files: Files, report: Report)
    requires SameRun(codec, plan, runId, started, report) && report.checkpoint == |report.steps| + 1
    requires 0 <= LastRunning(report)
    requires Trail(codec, plan, runId, started, files, report.steps, LastRunning(report))
    ensures CheckpointFile(report.checkpoint) !in files && ResultFile !in files
    ensures var document := RegularFile(codec.indentReport(report));
            LegalEnd(codec, plan, runId, started,
                     files[CheckpointFile(report.checkpoint) := document][ResultFile := document], report)
  {
    var document := RegularFile(codec.indentReport(report));
    var files' := files[CheckpointFile(report.checkpoint) := document][ResultFile := document];
    forall name | name in files' ensures FinalNameAllowed(plan, report, name) {
      assert name in files ==> NameAllowed(plan, |report.steps|, LastRunning(report), name);
    }
  }

  /** Finishing a trail writes both last files and changes nothing else. */
  lemma FinishIsLegal(codec: Codec, plan: Plan, runId: string, started: Time, files: Files, report: Report,
                      failedStep: Option<string>, taken: nat)
    requires SameRun(codec, plan, runId, started, report) && report.checkpoint == |report.steps| + 1
    requires 0 <= LastRunning(report)
    requires Trail(codec, plan, runId, started, files, report.steps, LastRunning(report))
    ensures var end := FinishSpec(codec, files, report, failedStep, taken);
            && LegalEnd(codec, plan, runId, started, end.files, report)
            && end.outcome == if ValidReport(codec, report) then Finished(report, failedStep) else InvalidReport
  {
    LastFilesMakeLegalEnd(codec, plan, runId, started, files, report);
  }

  /** Saving the running checkpoint after a step keeps the trail. */
  lemma CheckpointKeepsTrail(codec: Codec, plan: Plan, runId: string, started: Time, files: Files,
                             steps: seq<StepResult>)
    requires steps != [] && Trail(codec, plan, runId, started, files, steps, |steps| - 1)
    ensures CheckpointFile(|steps|) !in files
    ensures var document := RegularFile(codec.indentReport(RunningReport(codec, plan, runId, started, steps)));
            Trail(codec, plan, runId, started, files[CheckpointFile(|steps|) := document], steps, |steps|)
  {
    var document := RegularFile(codec.indentReport(RunningReport(codec, plan, runId, started, steps)));
    CheckpointKeepsNames(plan, files, |steps|, document);
    assert steps[..|steps|] == steps;
  }

  lemma CheckpointKeepsNames(plan: Plan, files: Files, k: nat, document: Entry)
    requires 0 < k <= |plan.steps| && NamesKept(plan, files, k, k - 1) && document.RegularFile?
    ensures CheckpointFile(k) !in files && NamesKept(plan, files[CheckpointFile(k) := document], k, k)
  {
    assert CheckpointFile(k) in files ==> NameAllowed(plan, k, k - 1, CheckpointFile(k));
    forall name | name in files ensures NameAllowed(plan, k, k, name) {
      assert NameAllowed(plan, k, k - 1, name);
    }
  }

  lemma LoopCompletes(codec: Codec, plan: Plan, runId: string, started: Time, behaviour: Behaviour, clock: Readings,
                      files: Files, steps: seq<StepResult>, taken: nat)
    requires |steps| == |plan.steps|
    ensures LoopSpec(codec, plan, runId, started, behaviour, clock, files, steps, taken)
         == FinishSpec(codec, files, FinalReport(codec, plan, runId, started, clock(taken), steps, None), None,
                       taken + 1)
  {
  }

  lemma LoopFails(codec: Codec, plan: Plan, runId: string, started: Time, behaviour: Behaviour, clock: Readings,
                  files: Files, steps: seq<StepResult>, taken: nat, end: StepEnd)
    requires |steps| < |plan.steps| && end.failed
    requires end == StepSpec(codec, files, plan.steps[|steps|], behaviour(|steps|), clock, taken)
    ensures var failed := Some(plan.steps[|steps|].id);
            LoopSpec(codec, plan, runId, started, behaviour, clock, files, steps, taken) ==
              FinishSpec(codec, end.files,
                         FinalReport(codec, plan, runId, started, clock(end.taken), steps + [end.result], failed),
                         failed, end.taken + 1)
  {
  }

  lemma LoopContinues(codec: Codec, plan: Plan, runId: string, started: Time, behaviour: Behaviour, clock: Readings,
                      files: Files, steps: seq<StepResult>, taken: nat, end: StepEnd)
    requires |steps| < |plan.steps| && !end.failed && CheckpointFile(|steps| + 1) !in end.files
    requires end == StepSpec(codec, files, plan.steps[|steps|], behaviour(|steps|), clock, taken)
    ensures var steps' := steps + [end.result];
            var document := RegularFile(codec.indentReport(RunningReport(codec, plan, runId, started, steps')));
            LoopSpec(codec, plan, runId, started, behaviour, clock, files, steps, taken) ==
              LoopSpec(codec, plan, runId, started, behaviour, clock, end.files[CheckpointFile(|steps'|) := document],
                       steps', end.taken)
  {
  }

  /** The next step of a legal trail: it runs to its end and leaves a trail one result longer. */
  lemma NextStep(codec: Codec, plan: Plan, runId: string, started: Time, behaviour: Behaviour, clock: Readings,
                 files: Files, steps: seq<StepResult>, taken: nat) returns (end: StepEnd)
    requires FixedRegistry(plan.steps) && Confined(plan, behaviour) && |steps| < 6
    requires Trail(codec, plan, runId, started, files, steps, |steps|)
    ensures end == StepSpec(codec, files, plan.steps[|steps|], behaviour(|steps|), clock, taken)
    ensures Trail(codec, plan, runId, started, end.files, steps + [end.result], |steps|)
  {
    var step, b := plan.steps[|steps|], behaviour(|steps|);
    LogsAreNew(codec, plan, runId, started, files, steps);
    StepWithNewLogs(codec, files, step, b, clock, taken);
    end := StepSpec(codec, files, step, b, clock, taken);
    StepKeepsTrail(codec, plan, runId, started, files, steps, b, end.files, end.result, clock(taken), clock(taken + 1));
  }

  /** Every run of the step loop from a legal trail ends legally, whichever step fails. */
  lemma {:induction false} LoopIsLegal(codec: Codec, plan: Plan, runId: string, started: Time, behaviour: Behaviour,
                                       clock: Readings, files: Files, steps: seq<StepResult>, taken: nat)
    returns (report: Report, failedStep: Option<string>)
    requires FixedRegistry(plan.steps) && Confined(plan, behaviour)
    requires Trail(codec, plan, runId, started, files, steps, |steps|)
    ensures var end := LoopSpec(codec, plan, runId, started, behaviour, clock, files, steps, taken);
            && LegalEnd(codec, plan, runId, started, end.files, report)
            && end.outcome == if ValidReport(codec, report) then Finished(report, failedStep) else InvalidReport
    decreases 6 - |steps|
  {
    if |steps| == 6 {
      LoopCompletes(codec, plan, runId, started, behaviour, clock, files, steps, taken);
      failedStep := None;
      report := FinalReport(codec, plan, runId, started, clock(taken), steps, failedStep);
      FinalReportShape(codec, plan, runId, started, clock(taken), steps, failedStep);
      FinishIsLegal(codec, plan, runId, started, files, report, failedStep, taken + 1);
      return;
    }
    var end := NextStep(codec, plan, runId, started, behaviour, clock, files, steps, taken);
    var steps' := steps + [end.result];
    if end.failed {
      LoopFails(codec, plan, runId, started, behaviour, clock, files, steps, taken, end);
      failedStep := Some(plan.steps[|steps|].id);
      report := FinalReport(codec, plan, runId, started, clock(end.taken), steps', failedStep);
      FinalReportShape(codec, plan, runId, started, clock(end.taken), steps', failedStep);
      FinishIsLegal(codec, plan, runId, started, end.files, report, failedStep, end.taken + 1);
    } else {
      CheckpointKeepsTrail(codec, plan, runId, started, end.files, steps');
      LoopContinues(codec, plan, runId, started, behaviour, clock, files, steps, taken, end);
      var document := RegularFile(codec.indentReport(RunningReport(codec, plan, runId, started, steps')));
      report, failedStep := LoopIsLegal(
        codec, plan, runId, started, behaviour, clock, end.files[CheckpointFile(|steps'|) := document], steps',
        end.taken);
    }
  }

  lemma InitialTrail(codec: Codec, plan: Plan, runId: string, started: Time)
    ensures Trail(codec, plan, runId, started, InitialFiles(codec, plan, runId, started), [], 0)
  {
    var none: seq<StepResult> := [];
    assert none[..0] == none;
  }

  // ----- what the validator makes of a legal end -----

  lemma ReportMatches(codec: Codec, plan: Plan, runId: string, started: Time, files: Files, report: Report)
    requires LegalEnd(codec, plan, runId, started, files, report)
    ensures ReportMatchesPlan(report, plan)
    ensures forall step | step in report.steps :: EvidenceMatches(codec, files, step)
  {
  }

  lemma LegalNamesExpected(codec: Codec, plan: Plan, runId: string, started: Time, files: Files, report: Report)
    requires LegalEnd(codec, plan, runId, started, files, report)
    ensures forall name | name in files :: files[name].RegularFile? && name in ExpectedNames(report, plan)
  {
    forall name | name in files ensures name in ExpectedNames(report, plan) {
      assert FinalNameAllowed(plan, report, name);
      if name.CheckpointFile? {
        var indexes := ExpectedCheckpointIndexes(report);
        assert indexes[|indexes| - 1] == report.checkpoint;
        if name.index != report.checkpoint {
          assert indexes[name.index] == name.index;
        }
        assert name.index in indexes;
      } else if name.StdoutLog? || name.StderrLog? || name.DeclaredOutput? {
        var j :| 0 <= j < |report.steps|
              && (name.StdoutLog? ==> plan.steps[j].id == name.stepId)
              && (name.StderrLog? ==> plan.steps[j].id == name.stepId)
              && (name.DeclaredOutput? ==> name.path in plan.steps[j].outputs);
        assert ResultMatchesStep(report.steps[j], plan.steps[j]);
        assert name in StepNames(report.steps[j], plan.steps[j]);
      }
    }
  }

  /** A running checkpoint read back is a valid prefix of the final report, unless it is too large to read. */
  lemma RunningCheckpointMatches(codec: Codec, plan: Plan, runId: string, started: Time, files: Files, report: Report,
                                 k: nat)
    requires codec.Good() && LegalEnd(codec, plan, runId, started, files, report) && k <= LastRunning(report)
    ensures CheckpointFile(k) in files && files[CheckpointFile(k)].RegularFile?
    ensures CheckpointMatches(codec, files, report, k) <==> |files[CheckpointFile(k)].content| <= MAX_REPORT_FILE
    ensures |files[CheckpointFile(k)].content| <= MAX_REPORT_FILE ==>
              ReadReport(codec, files, CheckpointFile(k))
              == Some(RunningReport(codec, plan, runId, started, report.steps[..k]))
  {
    var checkpoint := RunningReport(codec, plan, runId, started, report.steps[..k]);
    assert files[CheckpointFile(k)] == RegularFile(codec.indentReport(checkpoint));
    assert ValidCheckpoint(codec, checkpoint, report, k);
  }

  lemma LastCheckpointMatches(codec: Codec, plan: Plan, runId: string, started: Time, files: Files, report: Report)
    requires codec.Good() && LegalEnd(codec, plan, runId, started, files, report)
    ensures CheckpointMatches(codec, files, report, report.checkpoint)
            <==> |files[CheckpointFile(report.checkpoint)].content| <= MAX_REPORT_FILE
  {
    assert files[CheckpointFile(report.checkpoint)] == RegularFile(codec.indentReport(report));
  }

  predicate ReportsFit(files: Files) {
    forall name | name in files && files[name].RegularFile? && (name.ResultFile? || name.CheckpointFile?) ::
      |files[name].content| <= MAX_REPORT_FILE
  }

  lemma CheckpointsMatch(codec: Codec, plan: Plan, runId: string, started: Time, files: Files, report: Report)
    requires codec.Good() && LegalEnd(codec, plan, runId, started, files, report)
    ensures (forall index | index in ExpectedCheckpointIndexes(report) ::
               CheckpointMatches(codec, files, report, index))
            <==> ReportsFit(files)
  {
    var indexes := ExpectedCheckpointIndexes(report);
    assert indexes[|indexes| - 1] == report.checkpoint;
    LastCheckpointMatches(codec, plan, runId, started, files, report);
    forall k: nat | k <= LastRunning(report)
      ensures indexes[k] == k
      ensures CheckpointMatches(codec, files, report, k) <==> |files[CheckpointFile(k)].content| <= MAX_REPORT_FILE
    {
      RunningCheckpointMatches(codec, plan, runId, started, files, report, k);
    }
    if forall index | index in indexes :: CheckpointMatches(codec, files, report, index) {
      forall name | name in files && (name.ResultFile? || name.CheckpointFile?)
        ensures |files[name].content| <= MAX_REPORT_FILE
      {
        assert FinalNameAllowed(plan, report, name);
        assert report.checkpoint in indexes;
        if name.CheckpointFile? && name.index != report.checkpoint {
          assert indexes[name.index] in indexes;
        }
      }
    }
  }

  /** The plan's document is one the validator reads; a caller can tell before the run. */
  predicate PlanFits(codec: Codec, plan: Plan) {
    |codec.indentPlan(plan)| <= MAX_PLAN_FILE
  }

  predicate Flat(files: Files) {
    forall name | name in files :: TopLevel(name)
  }

  lemma LegalEndAccepted(codec: Codec, plan: Plan, runId: string, started: Time, files: Files, report: Report)
    requires codec.Good() && PlanIntegrity(codec, plan)
    requires LegalEnd(codec, plan, runId, started, files, report)
    ensures AcceptedReport(codec, runId, files)
         == if ValidReport(codec, report) && PlanFits(codec, plan) && ReportsFit(files) && Flat(files)
            then Some(report) else None
  {
    ReportMatches(codec, plan, runId, started, files, report);
    LegalNamesExpected(codec, plan, runId, started, files, report);
    CheckpointsMatch(codec, plan, runId, started, files, report);
    LegalReportReads(codec, plan, runId, started, files, report);
  }

  /** The result file and the plan file read back as what was written, if they fit. */
  lemma LegalReportReads(codec: Codec, plan: Plan, runId: string, started: Time, files: Files, report: Report)
    requires codec.Good() && PlanIntegrity(codec, plan)
    requires LegalEnd(codec, plan, runId, started, files, report)
    ensures ReadReport(codec, files, ResultFile)
         == if |codec.indentReport(report)| <= MAX_REPORT_FILE then Some(report) else None
    ensures ReadPlan(codec, files) == if PlanFits(codec, plan) then Some(plan) else None
    ensures ReportsFit(files) ==> |codec.indentReport(report)| <= MAX_REPORT_FILE
  {
  }

  /** The fixed steps leave nothing below a subdirectory. */
  lemma LegalEndIsFlat(codec: Codec, plan: Plan, runId: string, started: Time, files: Files, report: Report)
    requires FixedRegistry(plan.steps) && LegalEnd(codec, plan, runId, started, files, report)
    ensures Flat(files)
  {
    forall name | name in files ensures TopLevel(name) {
      assert FinalNameAllowed(plan, report, name);
      if name.DeclaredOutput? {
        var j :| 0 <= j < |report.steps| && name.path in plan.steps[j].outputs;
        FixedOutputFacts(j, name.path);
      }
    }
  }

  /** Producer and validator agree: whatever the confined processes and the clock do, the run reaches
      its result file, and the directory is accepted, with the very report Execute returned, exactly
      when Execute returned one and the plan and the reports fit the readers' limits. */
  lemma ProducerAndValidatorAgree(codec: Codec, plan: Plan, started: Time, behaviour: Behaviour, clock: Readings,
                                  taken: nat)
    requires codec.Good() && ValidPlan(codec, plan, true) && Confined(plan, behaviour)
    ensures var runId := RunId(codec, plan, started);
            var end := RunSpec(codec, plan, runId, started, behaviour, clock, taken);
            && (end.outcome.Finished? || end.outcome == InvalidReport)
            && AcceptedReport(codec, runId, end.files)
               == if end.outcome.Finished? && PlanFits(codec, plan) && ReportsFit(end.files)
                  then Some(end.outcome.report) else None
  {
    var runId := RunId(codec, plan, started);
    InitialTrail(codec, plan, runId, started);
    var report, _ := LoopIsLegal(
      codec, plan, runId, started, behaviour, clock, InitialFiles(codec, plan, runId, started), [], taken);
    var files := RunSpec(codec, plan, runId, started, behaviour, clock, taken).files;
    LegalEndIsFlat(codec, plan, runId, started, files, report);
    LegalEndAccepted(codec, plan, runId, started, files, report);
  }

  ghost predicate HoldsReport(codec: Codec, files: Files, name: FileName, report: Report) {
    name in files && files[name] == RegularFile(codec.indentReport(report))
  }

  /** Exactly the expected checkpoint files; running checkpoint k records the first k step results of
      the final report; the last checkpoint is the result; a failed step leaves a gap before it. */
  ghost predicate TrailOnDisk(codec: Codec, plan: Plan, runId: string, started: Time, files: Files, report: Report) {
    && 0 <= LastRunning(report)
    && (forall k :: CheckpointFile(k) in files <==> k in ExpectedCheckpointIndexes(report))
    && (forall k | 0 <= k <= LastRunning(report) ::
          HoldsReport(codec, files, CheckpointFile(k), RunningReport(codec, plan, runId, started, report.steps[..k])))
    && HoldsReport(codec, files, CheckpointFile(|report.steps| + 1), report)
    && HoldsReport(codec, files, ResultFile, report)
    && (CheckpointFile(|report.steps|) in files <==> !report.status.Failed?)
  }

  lemma LegalEndTrail(codec: Codec, plan: Plan, runId: string, started: Time, files: Files, report: Report)
    requires LegalEnd(codec, plan, runId, started, files, report)
    ensures TrailOnDisk(codec, plan, runId, started, files, report)
  {
    var indexes := ExpectedCheckpointIndexes(report);
    assert indexes[|indexes| - 1] == report.checkpoint;
    forall k ensures CheckpointFile(k) in files <==> k in indexes {
      if CheckpointFile(k) in files {
        assert FinalNameAllowed(plan, report, CheckpointFile(k));
      }
      if 0 <= k <= LastRunning(report) {
        assert indexes[k] == k;
      }
    }
    assert |report.steps| in indexes <==> !report.status.Failed?;
  }

  /** Every run that returns a report leaves the checkpoint trail of that report. */
  lemma CheckpointTrail(codec: Codec, plan: Plan, started: Time, behaviour: Behaviour, clock: Readings, taken: nat)
    requires ValidPlan(codec, plan, true) && Confined(plan, behaviour)
    ensures var runId := RunId(codec, plan, started);
            var end := RunSpec(codec, plan, runId, started, behaviour, clock, taken);
            end.outcome.Finished? ==> TrailOnDisk(codec, plan, runId, started, end.files, end.outcome.report)
  {
    var runId := RunId(codec, plan, started);
    InitialTrail(codec, plan, runId, started);
    var report, _ := LoopIsLegal(
      codec, plan, runId, started, behaviour, clock, InitialFiles(codec, plan, runId, started), [], taken);
    LegalEndTrail(codec, plan, runId, started,
                  RunSpec(codec, plan, runId, started, behaviour, clock, taken).files, report);
  }

  /** Execute returns only reports that pass ValidateReport and carry its own run id and plan. */
  lemma ReturnedReportIsValid(codec: Codec, plan: Plan, started: Time, behaviour: Behaviour, clock: Readings,
                              taken: nat)
    requires ValidPlan(codec, plan, true) && Confined(plan, behaviour)
    ensures var runId := RunId(codec, plan, started);
            var end := RunSpec(codec, plan, runId, started, behaviour, clock, taken);
            end.outcome.Finished? ==>
              ValidReport(codec, end.outcome.report) && SameRun(codec, plan, runId, started, end.outcome.report)
  {
    var runId := RunId(codec, plan, started);
    InitialTrail(codec, plan, runId, started);
    var report, _ := LoopIsLegal(
      codec, plan, runId, started, behaviour, clock, InitialFiles(codec, plan, runId, started), [], taken);
  }
}
