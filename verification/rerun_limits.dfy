/** When the documents of a run fit their readers: what a caller can tell before the run, and a plan that does not. */
module RerunLimits {
  import opened Options
  import opened Integers
  import opened BoundedLog
  import opened RerunEvidence
  import opened RerunEngine
  import opened RerunAgreement
  import opened RerunCompletion
  import opened RerunStatus

  /** loadReleaseManifest reads at most 64 KiB, so no release id is longer. */
  const MAX_RELEASE_ID: nat := 0x1_0000

  predicate SizedOutput(o: Output) {
    |o.path| <= 16 && |o.sha| <= 64 && 0 <= o.bytes <= MAX_INT64
  }

  predicate SizedStep(r: StepResult) {
    && |r.id| <= 16 && !r.status.OtherStepStatus? && MIN_INT64 <= r.exitCode <= MAX_INT64
    && Printable(r.startedAt) && (r.finishedAt == 0 || Printable(r.finishedAt))
    && MIN_INT64 <= r.durationMillis <= MAX_INT64
    && |r.stdoutSha| <= 64 && 0 <= r.stdoutBytes <= MAX_LOG_BYTES
    && |r.stderrSha| <= 64 && 0 <= r.stderrBytes <= MAX_LOG_BYTES
    && |r.outputs| <= 2 && forall i | 0 <= i < |r.outputs| :: SizedOutput(r.outputs[i])
  }

  predicate SizedHeader(r: Report) {
    && r.schemaVersion == REPORT_SCHEMA && |r.reportSha| <= 64 && |r.runId| <= 64 && |r.planSha| <= 64
    && |r.sealId| <= 64
    && |r.sealSha| <= 64 && |r.releaseId| <= MAX_RELEASE_ID && |r.gitSha| <= 64 && !r.status.OtherStatus?
    && 0 <= r.checkpoint <= 7 && Printable(r.startedAt) && (r.finishedAt.Some? ==> Printable(r.finishedAt.value))
    && |r.failureStep| <= 16 && |r.nextRequiredGate| <= 256 && r.guardrails == RUN_GUARDRAILS && |r.steps| <= 6
  }

  /** A report whose every part is bounded. */
  predicate Sized(r: Report) {
    SizedHeader(r) && forall i | 0 <= i < |r.steps| :: SizedStep(r.steps[i])
  }

  /** What indented JSON adds: at most six bytes for a character, and some kilobytes of fixed text. */
  ghost predicate Economical(codec: Codec) {
    && (forall r | Sized(r) :: |codec.indentReport(r)| <= 0x10_0000)
    && (forall t | Printable(t) :: |codec.stamp(t)| <= 32)
  }

  /** Exit codes and file sizes are machine integers. */
  ghost predicate Physical(behaviour: Behaviour) {
    forall i :: StepPhysical(behaviour(i))
  }

  predicate StepPhysical(b: StepBehaviour) {
    && MIN_INT64 <= b.exitCode <= MAX_INT64
    && forall name | name in b.writes :: |b.writes[name].content| <= MAX_INT64
  }

  ghost predicate PrintableClock(clock: Readings) {
    forall i :: Printable(clock(i))
  }

  /** Outputs on disk have machine sizes. */
  predicate OutputsSized(files: Files) {
    forall name | name in files && name.DeclaredOutput? && files[name].RegularFile? ::
      |files[name].content| <= MAX_INT64
  }

  lemma ProcessKeepsSizes(files: Files, step: Step, b: StepBehaviour)
    requires OutputsSized(files) && ReportsFit(files) && StepPhysical(b)
    ensures OutputsSized(FilesAfterProcess(files, step, b)) && ReportsFit(FilesAfterProcess(files, step, b))
  {
  }

  lemma FixedNamesAreShort(i: nat)
    requires i < 6
    ensures |FIXED_STEP_IDS[i]| <= 16 && |FixedOutputs(i)| <= 2
    ensures forall path | path in FixedOutputs(i) :: |path| <= 16
  {
  }

  lemma LogsAreSized(b: StepBehaviour)
    ensures |Written(Fresh(MAX_LOG_BYTES), b.stdout).stored| <= MAX_LOG_BYTES
    ensures |Written(Fresh(MAX_LOG_BYTES), b.stderr).stored| <= MAX_LOG_BYTES
  {
    KeepsExactlyThePrefix(MAX_LOG_BYTES, b.stdout);
    KeepsExactlyThePrefix(MAX_LOG_BYTES, b.stderr);
  }

  lemma CollectedAreSized(codec: Codec, files: Files, i: nat)
    requires codec.Good() && i < 6 && OutputsSized(files)
    ensures var outputs := Collected(codec, files, FixedOutputs(i)).0;
            |outputs| <= 2 && forall k | 0 <= k < |outputs| :: SizedOutput(outputs[k])
  {
    FixedNamesAreShort(i);
    FixedOutputsDistinct(i);
    CollectedFacts(codec, files, FixedOutputs(i));
    CollectedIsShort(codec, files, FixedOutputs(i));
    var outputs := Collected(codec, files, FixedOutputs(i)).0;
    forall k | 0 <= k < |outputs| ensures SizedOutput(outputs[k]) {
      assert outputs[k] in outputs;
    }
  }

  lemma CollectedIsShort(codec: Codec, files: Files, names: seq<string>)
    ensures |Collected(codec, files, names).0| <= |names|
  {
    CollectFromIsPrefix(codec, files, names);
    Text.SortBySorts(OutputPath, CollectFrom(codec, files, names).0);
  }

  lemma FinishedStepIsSized(codec: Codec, files: Files, steps: seq<Step>, i: nat, b: StepBehaviour, t0: Time, t1: Time)
    requires codec.Good() && FixedRegistry(steps) && i < 6 && StepPhysical(b) && OutputsSized(files)
    requires Printable(t0) && Printable(t1)
    ensures SizedStep(FinishedStep(codec, files, steps[i], b, t0, t1))
  {
    LogsAreSized(b);
    CollectedAreSized(codec, files, i);
    FixedNamesAreShort(i);
  }

  lemma StartedStepIsSized(steps: seq<Step>, i: nat, t0: Time)
    requires FixedRegistry(steps) && i < 6 && Printable(t0)
    ensures SizedStep(StartedStep(steps[i], t0))
  {
    FixedNamesAreShort(i);
  }

  lemma StepEndIsSized(codec: Codec, files: Files, steps: seq<Step>, i: nat, b: StepBehaviour, clock: Readings,
                       taken: nat)
    requires codec.Good() && FixedRegistry(steps) && i < 6 && StepPhysical(b) && PrintableClock(clock)
    requires OutputsSized(files) && ReportsFit(files)
    ensures var end := StepSpec(codec, files, steps[i], b, clock, taken);
            SizedStep(end.result) && OutputsSized(end.files) && ReportsFit(end.files)
  {
    StartedStepIsSized(steps, i, clock(taken));
    ProcessKeepsSizes(files, steps[i], b);
    FinishedStepIsSized(codec, FilesAfterProcess(files, steps[i], b), steps, i, b, clock(taken), clock(taken + 1));
  }

  /** What a plan contributes to the size of its reports. */
  predicate SizedPlan(codec: Codec, plan: Plan) {
    |plan.planSha| == 64 && |plan.sealId| <= 64 && |plan.sealSha| <= 64 && |plan.releaseId| <= MAX_RELEASE_ID
    && |plan.gitSha| <= 64
  }

  ghost predicate SizedRun(codec: Codec, plan: Plan, runId: string, started: Time) {
    codec.Good() && Economical(codec) && SizedPlan(codec, plan) && |runId| <= 64 && Printable(started)
  }

  predicate AllSized(steps: seq<StepResult>) {
    |steps| <= 6 && forall i | 0 <= i < |steps| :: SizedStep(steps[i])
  }

  lemma RunningReportFits(codec: Codec, plan: Plan, runId: string, started: Time, steps: seq<StepResult>)
    requires SizedRun(codec, plan, runId, started) && AllSized(steps)
    ensures |codec.indentReport(RunningReport(codec, plan, runId, started, steps))| <= MAX_REPORT_FILE
  {
    assert Sized(RunningReport(codec, plan, runId, started, steps));
  }

  lemma FinalReportFits(codec: Codec, plan: Plan, runId: string, started: Time, finished: Time, steps: seq<StepResult>,
                        failedStep: Option<string>)
    requires SizedRun(codec, plan, runId, started) && AllSized(steps) && Printable(finished)
    requires failedStep.Some? ==> |failedStep.value| <= 16
    ensures var report := FinalReport(codec, plan, runId, started, finished, steps, failedStep);
            |codec.indentReport(report)| <= MAX_REPORT_FILE
  {
    assert Sized(FinalReport(codec, plan, runId, started, finished, steps, failedStep));
  }

  lemma FinishFits(codec: Codec, files: Files, report: Report, failedStep: Option<string>, taken: nat)
    requires ReportsFit(files) && |codec.indentReport(report)| <= MAX_REPORT_FILE
    ensures ReportsFit(FinishSpec(codec, files, report, failedStep, taken).files)
  {
  }

  lemma CompletedFits(codec: Codec, plan: Plan, runId: string, started: Time, behaviour: Behaviour, clock: Readings,
                      files: Files, steps: seq<StepResult>, taken: nat)
    requires SizedRun(codec, plan, runId, started) && PrintableClock(clock) && |steps| == |plan.steps|
    requires AllSized(steps) && ReportsFit(files)
    ensures ReportsFit(LoopSpec(codec, plan, runId, started, behaviour, clock, files, steps, taken).files)
  {
    LoopCompletes(codec, plan, runId, started, behaviour, clock, files, steps, taken);
    FinalReportFits(codec, plan, runId, started, clock(taken), steps, None);
    FinishFits(codec, files, FinalReport(codec, plan, runId, started, clock(taken), steps, None), None, taken + 1);
  }

  lemma FailedFits(codec: Codec, plan: Plan, runId: string, started: Time, behaviour: Behaviour, clock: Readings,
                   files: Files, steps: seq<StepResult>, taken: nat, end: StepEnd)
    requires SizedRun(codec, plan, runId, started) && PrintableClock(clock) && |steps| < |plan.steps| && end.failed
    requires end == StepSpec(codec, files, plan.steps[|steps|], behaviour(|steps|), clock, taken)
    requires AllSized(steps + [end.result]) && ReportsFit(end.files) && |plan.steps[|steps|].id| <= 16
    ensures ReportsFit(LoopSpec(codec, plan, runId, started, behaviour, clock, files, steps, taken).files)
  {
    var steps', failed := steps + [end.result], Some(plan.steps[|steps|].id);
    LoopFails(codec, plan, runId, started, behaviour, clock, files, steps, taken, end);
    FinalReportFits(codec, plan, runId, started, clock(end.taken), steps', failed);
    FinishFits(codec, end.files, FinalReport(codec, plan, runId, started, clock(end.taken), steps', failed), failed,
               end.taken + 1);
  }

  lemma BlockedFits(codec: Codec, plan: Plan, runId: string, started: Time, behaviour: Behaviour, clock: Readings,
                    files: Files, steps: seq<StepResult>, taken: nat, end: StepEnd)
    requires |steps| < |plan.steps| && !end.failed && CheckpointFile(|steps| + 1) in end.files && ReportsFit(end.files)
    requires end == StepSpec(codec, files, plan.steps[|steps|], behaviour(|steps|), clock, taken)
    ensures ReportsFit(LoopSpec(codec, plan, runId, started, behaviour, clock, files, steps, taken).files)
  {
  }

  lemma CheckpointFits(codec: Codec, plan: Plan, runId: string, started: Time, files: Files, steps: seq<StepResult>,
                       k: int)
    requires SizedRun(codec, plan, runId, started) && AllSized(steps) && OutputsSized(files) && ReportsFit(files)
    ensures var document := RegularFile(codec.indentReport(RunningReport(codec, plan, runId, started, steps)));
            OutputsSized(files[CheckpointFile(k) := document]) && ReportsFit(files[CheckpointFile(k) := document])
  {
    RunningReportFits(codec, plan, runId, started, steps);
  }

  /** Whatever happens in a run, every report it stores is one the validator reads. */
  lemma {:induction false} LoopFits(codec: Codec, plan: Plan, runId: string, started: Time, behaviour: Behaviour,
                                    clock: Readings, files: Files, steps: seq<StepResult>, taken: nat)
    requires SizedRun(codec, plan, runId, started) && FixedRegistry(plan.steps) && Physical(behaviour)
             && PrintableClock(clock)
    requires AllSized(steps) && OutputsSized(files) && ReportsFit(files)
    ensures ReportsFit(LoopSpec(codec, plan, runId, started, behaviour, clock, files, steps, taken).files)
    decreases 6 - |steps|
  {
    if |steps| == 6 {
      CompletedFits(codec, plan, runId, started, behaviour, clock, files, steps, taken);
      return;
    }
    var stopped, files', steps', taken' := Advance(codec, plan, runId, started, behaviour, clock, files, steps, taken);
    if !stopped {
      LoopFits(codec, plan, runId, started, behaviour, clock, files', steps', taken');
    }
  }

  /** One turn of the loop: it stops with everything fitting, or goes on from files that fit. */
  lemma Advance(codec: Codec, plan: Plan, runId: string, started: Time, behaviour: Behaviour, clock: Readings,
                files: Files, steps: seq<StepResult>, taken: nat)
    returns (stopped: bool, files': Files, steps': seq<StepResult>, taken': nat)
    requires SizedRun(codec, plan, runId, started) && FixedRegistry(plan.steps) && Physical(behaviour)
             && PrintableClock(clock)
    requires |steps| < 6 && AllSized(steps) && OutputsSized(files) && ReportsFit(files)
    ensures var end := LoopSpec(codec, plan, runId, started, behaviour, clock, files, steps, taken);
            if stopped then ReportsFit(end.files)
            else end == LoopSpec(codec, plan, runId, started, behaviour, clock, files', steps', taken')
    ensures |steps'| == |steps| + 1 && AllSized(steps') && OutputsSized(files') && ReportsFit(files')
  {
    var end := NextStepIsSized(codec, plan, behaviour, clock, files, steps, taken);
    files', steps', taken' := end.files, steps + [end.result], end.taken;
    stopped := end.failed || CheckpointFile(|steps'|) in end.files;
    if end.failed {
      FailedFits(codec, plan, runId, started, behaviour, clock, files, steps, taken, end);
    } else if stopped {
      BlockedFits(codec, plan, runId, started, behaviour, clock, files, steps, taken, end);
    } else {
      LoopContinues(codec, plan, runId, started, behaviour, clock, files, steps, taken, end);
      CheckpointFits(codec, plan, runId, started, end.files, steps', |steps'|);
      var document := RegularFile(codec.indentReport(RunningReport(codec, plan, runId, started, steps')));
      files' := end.files[CheckpointFile(|steps'|) := document];
    }
  }

  lemma NextStepIsSized(codec: Codec, plan: Plan, behaviour: Behaviour, clock: Readings, files: Files,
                        steps: seq<StepResult>, taken: nat) returns (end: StepEnd)
    requires codec.Good() && FixedRegistry(plan.steps) && Physical(behaviour) && PrintableClock(clock)
    requires |steps| < 6 && AllSized(steps) && OutputsSized(files) && ReportsFit(files)
    ensures end == StepSpec(codec, files, plan.steps[|steps|], behaviour(|steps|), clock, taken)
    ensures AllSized(steps + [end.result]) && OutputsSized(end.files) && ReportsFit(end.files)
    ensures |plan.steps[|steps|].id| <= 16
  {
    end := StepSpec(codec, files, plan.steps[|steps|], behaviour(|steps|), clock, taken);
    StepEndIsSized(codec, files, plan.steps, |steps|, behaviour(|steps|), clock, taken);
    FixedNamesAreShort(|steps|);
  }

  lemma RunReportsFit(codec: Codec, plan: Plan, started: Time, behaviour: Behaviour, clock: Readings, taken: nat)
    requires codec.Good() && Economical(codec) && ValidPlan(codec, plan, true) && |plan.releaseId| <= MAX_RELEASE_ID
    requires Physical(behaviour) && PrintableClock(clock) && Printable(started)
    ensures ReportsFit(RunSpec(codec, plan, RunId(codec, plan, started), started, behaviour, clock, taken).files)
  {
    var runId := RunId(codec, plan, started);
    assert |runId| == 6 + |codec.stamp(started)| + 1 + 8;
    RunningReportFits(codec, plan, runId, started, []);
    LoopFits(codec, plan, runId, started, behaviour, clock, InitialFiles(codec, plan, runId, started), [], taken);
  }

  /** Known before the run: for every valid plan, confined executor and clock that never runs backwards, Execute
      returns a report, and the directory validator returns that same report if and only if the plan's own document
      is within two mebibytes. */
  lemma AgreementIsKnownBeforehand(codec: Codec, plan: Plan, behaviour: Behaviour, clock: Readings, taken: nat)
    requires codec.Good() && Economical(codec) && ValidPlan(codec, plan, true) && |plan.releaseId| <= MAX_RELEASE_ID
    requires Confined(plan, behaviour) && Physical(behaviour) && Monotone(clock) && PrintableClock(clock)
    ensures var started := clock(taken);
            var runId := RunId(codec, plan, started);
            var end := RunSpec(codec, plan, runId, started, behaviour, clock, taken + 1);
            && end.outcome.Finished?
            && AcceptedReport(codec, runId, end.files)
            == if PlanFits(codec, plan) then Some(end.outcome.report) else None
  {
    EveryRunReturnsAReport(codec, plan, behaviour, clock, taken);
    ProducerAndValidatorAgree(codec, plan, clock(taken), behaviour, clock, taken + 1);
    RunReportsFit(codec, plan, clock(taken), behaviour, clock, taken + 1);
  }

  /** A plan whose document is larger runs to its end and is then refused, whatever the run did. */
  lemma OversizedPlanIsRefused(codec: Codec, plan: Plan, behaviour: Behaviour, clock: Readings, taken: nat)
    requires codec.Good() && ValidPlan(codec, plan, true) && !PlanFits(codec, plan)
    requires Confined(plan, behaviour) && Monotone(clock)
    ensures var started := clock(taken);
            var runId := RunId(codec, plan, started);
            var end := RunSpec(codec, plan, runId, started, behaviour, clock, taken + 1);
            end.outcome.Finished? && AcceptedReport(codec, runId, end.files) == None
  {
    EveryRunReturnsAReport(codec, plan, behaviour, clock, taken);
    ProducerAndValidatorAgree(codec, plan, clock(taken), behaviour, clock, taken + 1);
  }

  /** A document is at least as long as each guardrail text in it. */
  ghost predicate KeepsGuardrails(codec: Codec) {
    forall p: Plan, i | 0 <= i < |p.guardrails| :: |p.guardrails[i]| <= |codec.indentPlan(p)|
  }

  /** A plan with one more guardrail, hashed again. */
  function WithGuardrail(codec: Codec, plan: Plan, text: string): Plan {
    FinalizePlan(codec, plan.(guardrails := plan.guardrails + [text]))
  }

  lemma GuardrailKeepsPlanValid(codec: Codec, plan: Plan, text: string)
    requires codec.Good() && ValidPlan(codec, plan, true)
    ensures ValidPlan(codec, WithGuardrail(codec, plan, text), true)
  {
    var longer := WithGuardrail(codec, plan, text);
    assert longer.(planSha := "") == plan.(guardrails := plan.guardrails + [text], planSha := "");
  }

  /** Such a plan: any valid one with a guardrail of more than two mebibytes, which nothing in ValidatePlan forbids. */
  lemma LongGuardrailIsRefused(codec: Codec, plan: Plan, text: string, behaviour: Behaviour, clock: Readings,
                               taken: nat)
    requires codec.Good() && KeepsGuardrails(codec) && ValidPlan(codec, plan, true) && |text| > MAX_PLAN_FILE
    requires Confined(plan, behaviour) && Monotone(clock)
    ensures var longer := WithGuardrail(codec, plan, text);
            var started := clock(taken);
            && ValidPlan(codec, longer, true)
            && var runId := RunId(codec, longer, started);
               var end := RunSpec(codec, longer, runId, started, behaviour, clock, taken + 1);
               end.outcome.Finished? && AcceptedReport(codec, runId, end.files) == None
  {
    var longer := WithGuardrail(codec, plan, text);
    GuardrailKeepsPlanValid(codec, plan, text);
    assert longer.guardrails[|plan.guardrails|] == text;
    OversizedPlanIsRefused(codec, longer, behaviour, clock, taken);
  }
}
