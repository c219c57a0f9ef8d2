/** With a clock that never runs backwards, every run returns a report its own validator accepts. */
module RerunCompletion {
  import opened Options
  import opened BoundedLog
  import opened Sequences
  import opened RerunEvidence
  import opened RerunEngine
  import opened RerunAgreement
  import Text

  /** Readings are real times (never the zero time) and never run backwards. */
  ghost predicate Monotone(clock: Readings) {
    && (forall i :: 0 < clock(i))
    && (forall i: nat, j: nat | i <= j :: clock(i) <= clock(j))
  }

  /** A step that opened its logs yields a result the validator accepts at its place. */
  lemma StepIsValid(codec: Codec, files: Files, steps: seq<Step>, i: nat, b: StepBehaviour, t0: Time, t1: Time)
    requires codec.Good() && FixedRegistry(steps) && i < 6 && 0 < t0 <= t1
    ensures var files' := FilesAfterProcess(files, steps[i], b);
            var result := FinishedStep(codec, files', steps[i], b, t0, t1);
            StepValid(result, i) && Distinct(PathsOf(result.outputs))
  {
    FixedOutputsDistinct(i);
    StepIsRecorded(codec, files, steps[i], b, t0, t1);
    var result := FinishedStep(codec, FilesAfterProcess(files, steps[i], b), steps[i], b, t0, t1);
    forall o | o in result.outputs ensures OutputValid(o) {
      FixedOutputsSafe(i, o.path);
    }
  }

  /** Outputs of different steps never share a path. */
  lemma {:induction false} PathsDistinct(plan: Plan, steps: seq<StepResult>)
    requires FixedRegistry(plan.steps) && |steps| <= 6
    requires forall j | 0 <= j < |steps| ::
               ResultMatchesStep(steps[j], plan.steps[j]) && Distinct(PathsOf(steps[j].outputs))
    ensures Distinct(AllPaths(steps))
    ensures forall path | path in AllPaths(steps) :: exists j | 0 <= j < |steps| :: path in FixedOutputs(j)
  {
    if steps != [] {
      var last := |steps| - 1;
      PathsDistinct(plan, steps[..last]);
      var paths := PathsOf(steps[last].outputs);
      forall path | path in paths ensures path in FixedOutputs(last) && path !in AllPaths(steps[..last]) {
        var k :| 0 <= k < |paths| && paths[k] == path;
        assert steps[last].outputs[k].path in plan.steps[last].outputs;
        if path in AllPaths(steps[..last]) {
          var j :| 0 <= j < last && path in FixedOutputs(j);
          FixedOutputOwner(j, last, path);
        }
      }
      DistinctConcat(AllPaths(steps[..last]), paths);
    }
  }

  /** Step results as a run accumulates them: valid, matched to the plan, and none failed before the last. */
  predicate Sound(plan: Plan, steps: seq<StepResult>, finished: nat) {
    && |steps| <= |plan.steps| && finished <= |steps|
    && (forall j | 0 <= j < |steps| ::
          StepValid(steps[j], j) && Distinct(PathsOf(steps[j].outputs)) && ResultMatchesStep(steps[j], plan.steps[j]))
    && (forall j | 0 <= j < finished :: steps[j].status != StepFailed)
  }

  lemma SoundSteps(plan: Plan, steps: seq<StepResult>, finished: nat)
    requires FixedRegistry(plan.steps) && Sound(plan, steps, finished)
    ensures StepsValid(steps)
  {
    PathsDistinct(plan, steps);
  }

  lemma RunIdNotBlank(codec: Codec, plan: Plan, started: Time)
    requires |plan.planSha| >= 8
    ensures !Text.Blank(RunId(codec, plan, started))
  {
    assert RunId(codec, plan, started)[0] == 'r';
    Text.NotBlank(RunId(codec, plan, started));
  }

  lemma FinalGateNotBlank(codec: Codec, plan: Plan, runId: string, started: Time, finished: Time,
                          steps: seq<StepResult>, failedStep: Option<string>)
    ensures !Text.Blank(FinalReport(codec, plan, runId, started, finished, steps, failedStep).nextRequiredGate)
  {
    var gate := FinalReport(codec, plan, runId, started, finished, steps, failedStep).nextRequiredGate;
    assert gate == GATE_STEP_FAILED || gate == GATE_TECHNICAL_FAILED || gate == GATE_TECHNICAL_PASSED;
    assert GATE_STEP_FAILED[0] == 'i' && GATE_TECHNICAL_FAILED[0] == 'a' && GATE_TECHNICAL_PASSED[0] == 'v';
    Text.NotBlank(gate);
  }

  lemma FinalTimes(codec: Codec, plan: Plan, runId: string, started: Time, finished: Time,
                   steps: seq<StepResult>, failedStep: Option<string>)
    ensures var report := FinalReport(codec, plan, runId, started, finished, steps, failedStep);
            report.finishedAt == Some(finished) && !report.promotionEligible
            && exists c :: report.reportSha == codec.sha(c)
  {
  }

  lemma FinalHeaderValid(codec: Codec, plan: Plan, started: Time, finished: Time, steps: seq<StepResult>,
                         failedStep: Option<string>)
    requires codec.Good() && PlanShape(plan) && 0 < started <= finished
    ensures HeaderValid(FinalReport(codec, plan, RunId(codec, plan, started), started, finished, steps, failedStep))
  {
    var runId := RunId(codec, plan, started);
    RunIdNotBlank(codec, plan, started);
    FinalGateNotBlank(codec, plan, runId, started, finished, steps, failedStep);
    FinalReportShape(codec, plan, runId, started, finished, steps, failedStep);
    FinalTimes(codec, plan, runId, started, finished, steps, failedStep);
  }

  /** The final report of sound steps passes ValidateReport. */
  lemma FinalReportValid(codec: Codec, plan: Plan, started: Time, finished: Time, steps: seq<StepResult>,
                         failedStep: Option<string>)
    requires codec.Good() && ValidPlan(codec, plan, true) && 0 < started <= finished
    requires failedStep.None? ==> |steps| == 6 && Sound(plan, steps, |steps|)
    requires failedStep.Some? ==>
               && steps != [] && Sound(plan, steps, |steps| - 1)
               && steps[|steps| - 1].status == StepFailed
               && failedStep.value == plan.steps[|steps| - 1].id
    ensures ValidReport(codec,
                        FinalReport(codec, plan, RunId(codec, plan, started), started, finished, steps, failedStep))
  {
    FinalHeaderValid(codec, plan, started, finished, steps, failedStep);
    SoundSteps(plan, steps, if failedStep.Some? then |steps| - 1 else |steps|);
    if failedStep.Some? {
      assert steps[|steps| - 1].id == failedStep.value != "";
    }
  }

  lemma NextStepIsSound(codec: Codec, plan: Plan, started: Time, behaviour: Behaviour, clock: Readings,
                        files: Files, steps: seq<StepResult>, taken: nat, end: StepEnd)
    requires codec.Good() && FixedRegistry(plan.steps) && |steps| < 6 && Monotone(clock)
    requires StdoutLog(plan.steps[|steps|].id) !in files && StderrLog(plan.steps[|steps|].id) !in files
    requires end == StepSpec(codec, files, plan.steps[|steps|], behaviour(|steps|), clock, taken)
    requires Sound(plan, steps, |steps|)
    ensures Sound(plan, steps + [end.result], if end.failed then |steps| else |steps| + 1)
    ensures end.failed <==> end.result.status == StepFailed
  {
    StepIsValid(codec, files, plan.steps, |steps|, behaviour(|steps|), clock(taken), clock(taken + 1));
    FixedOutputsDistinct(|steps|);
    StepIsRecorded(codec, files, plan.steps[|steps|], behaviour(|steps|), clock(taken), clock(taken + 1));
    var steps' := steps + [end.result];
    forall j | 0 <= j < |steps'| ensures steps'[j] == if j < |steps| then steps[j] else end.result {
    }
  }

  /** The next step of a sound trail, with everything the loop needs to know of it. */
  lemma NextSoundStep(codec: Codec, plan: Plan, started: Time, behaviour: Behaviour, clock: Readings,
                      files: Files, steps: seq<StepResult>, taken: nat) returns (end: StepEnd)
    requires codec.Good() && FixedRegistry(plan.steps) && Confined(plan, behaviour) && Monotone(clock)
    requires |plan.planSha| >= 8 && |steps| < 6 && Sound(plan, steps, |steps|)
    requires Trail(codec, plan, RunId(codec, plan, started), started, files, steps, |steps|)
    ensures end == StepSpec(codec, files, plan.steps[|steps|], behaviour(|steps|), clock, taken)
    ensures Trail(codec, plan, RunId(codec, plan, started), started, end.files, steps + [end.result], |steps|)
    ensures Sound(plan, steps + [end.result], if end.failed then |steps| else |steps| + 1)
    ensures (end.failed <==> end.result.status == StepFailed) && clock(taken) <= clock(end.taken)
  {
    var runId := RunId(codec, plan, started);
    LogsAreNew(codec, plan, runId, started, files, steps);
    end := NextStep(codec, plan, runId, started, behaviour, clock, files, steps, taken);
    NextStepIsSound(codec, plan, started, behaviour, clock, files, steps, taken, end);
    StepWithNewLogs(codec, files, plan.steps[|steps|], behaviour(|steps|), clock, taken);
  }

  /** Finishing sound steps over their trail returns the final report. */
  lemma FinishReturns(codec: Codec, plan: Plan, started: Time, finished: Time, files: Files,
                      steps: seq<StepResult>, failedStep: Option<string>, taken: nat)
    requires codec.Good() && ValidPlan(codec, plan, true) && 0 < started <= finished
    requires failedStep.None? ==> |steps| == 6 && Sound(plan, steps, |steps|)
    requires failedStep.Some? ==>
               && steps != [] && Sound(plan, steps, |steps| - 1)
               && steps[|steps| - 1].status == StepFailed
               && failedStep.value == plan.steps[|steps| - 1].id
    requires Trail(codec, plan, RunId(codec, plan, started), started, files, steps,
                   if failedStep.Some? then |steps| - 1 else |steps|)
    ensures FinishSpec(codec, files,
                       FinalReport(codec, plan, RunId(codec, plan, started), started, finished, steps, failedStep),
                       failedStep, taken).outcome.Finished?
  {
    var runId := RunId(codec, plan, started);
    FinalReportShape(codec, plan, runId, started, finished, steps, failedStep);
    FinalReportValid(codec, plan, started, finished, steps, failedStep);
    FinishIsLegal(codec, plan, runId, started, files,
                  FinalReport(codec, plan, runId, started, finished, steps, failedStep), failedStep, taken);
  }

  lemma {:induction false} LoopReturns(codec: Codec, plan: Plan, started: Time, behaviour: Behaviour, clock: Readings,
                                       files: Files, steps: seq<StepResult>, taken: nat)
    requires codec.Good() && ValidPlan(codec, plan, true) && Confined(plan, behaviour)
    requires Monotone(clock) && 0 < started <= clock(taken)
    requires Sound(plan, steps, |steps|)
    requires Trail(codec, plan, RunId(codec, plan, started), started, files, steps, |steps|)
    ensures var runId := RunId(codec, plan, started);
            LoopSpec(codec, plan, runId, started, behaviour, clock, files, steps, taken).outcome.Finished?
    decreases 6 - |steps|
  {
    var runId := RunId(codec, plan, started);
    if |steps| == 6 {
      LoopCompletes(codec, plan, runId, started, behaviour, clock, files, steps, taken);
      FinishReturns(codec, plan, started, clock(taken), files, steps, None, taken + 1);
      return;
    }
    var end := NextSoundStep(codec, plan, started, behaviour, clock, files, steps, taken);
    var steps' := steps + [end.result];
    if end.failed {
      LoopFails(codec, plan, runId, started, behaviour, clock, files, steps, taken, end);
      FinishReturns(codec, plan, started, clock(end.taken), end.files, steps', Some(plan.steps[|steps|].id),
                    end.taken + 1);
    } else {
      CheckpointKeepsTrail(codec, plan, runId, started, end.files, steps');
      LoopContinues(codec, plan, runId, started, behaviour, clock, files, steps, taken, end);
      var document := RegularFile(codec.indentReport(RunningReport(codec, plan, runId, started, steps')));
      LoopReturns(codec, plan, started, behaviour, clock, end.files[CheckpointFile(|steps'|) := document], steps',
                  end.taken);
    }
  }

  /** No confined run under a monotone clock gets stuck or is rejected by its own validator. */
  lemma EveryRunReturnsAReport(codec: Codec, plan: Plan, behaviour: Behaviour, clock: Readings, taken: nat)
    requires codec.Good() && ValidPlan(codec, plan, true) && Confined(plan, behaviour) && Monotone(clock)
    ensures var started := clock(taken);
            RunSpec(codec, plan, RunId(codec, plan, started), started, behaviour, clock, taken + 1).outcome.Finished?
  {
    var started := clock(taken);
    InitialTrail(codec, plan, RunId(codec, plan, started), started);
    LoopReturns(codec, plan, started, behaviour, clock,
                InitialFiles(codec, plan, RunId(codec, plan, started), started), [], taken + 1);
  }
}
