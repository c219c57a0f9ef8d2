/** The sealed re-run engine: one lock, one fresh directory, six fixed steps, create-only evidence. */
module RerunEngine {
  import opened Options
  import opened Integers
  import opened BoundedLog
  import opened RerunEvidence
  import Text

  /** Files a process leaves in the run directory, as outputs under paths of its own choice. */
  type Leftovers = files: Files | forall name | name in files :: name.DeclaredOutput? && files[name].RegularFile?

  /** What the process of one step does: pieces written to its two logs, files left in the
      run directory, its exit code, and whether the log files synced and closed. */
  datatype StepBehaviour = StepBehaviour(
    stdout: seq<Bytes>, stderr: seq<Bytes>, writes: Leftovers, exitCode: int, logsClosed: bool)

  type Behaviour = nat -> StepBehaviour
  type Readings = nat -> Time

  datatype Outcome =
    | InvalidPlan
    | Busy
    | RunExists
    | FileExists
    | InvalidReport
    | Finished(report: Report, failedStep: Option<string>)

  /** The gate texts shown to operators; only being non-blank matters to the validators. */
  const GATE_RUNNING := "finish all six steps"
  const GATE_STEP_FAILED := "inspect and start a new run"
  const GATE_TECHNICAL_FAILED := "analyse failure clusters"
  const GATE_TECHNICAL_PASSED := "verify and submit baseline"

  const RUN_GUARDRAILS: seq<string> := [
    "sealed_input_revalidated_before_execution", "runner_binary_hash_revalidated", "sequential_fixed_dag",
    "bounded_logs", "no_hidden_retry", "failed_run_preserved", "technical_pass_does_not_promote",
    "no_baseline_pointer_write", "no_policy_write"]

  /** ValidatePlan: `environmentOk` stands for the seal, release manifest and binaries on disk
      still matching the plan and the three roots being disjoint. */
  predicate ValidPlan(codec: Codec, plan: Plan, environmentOk: bool) {
    PlanIntegrity(codec, plan) && environmentOk && FixedRegistry(plan.steps)
  }

  function RunId(codec: Codec, plan: Plan, started: Time): string
    requires |plan.planSha| >= 8
  {
    "rerun-" + codec.stamp(started) + "-" + plan.planSha[..8]
  }

  /** The report as checkpointed after the given finished steps. */
  function RunningReport(codec: Codec, plan: Plan, runId: string, started: Time, steps: seq<StepResult>): Report {
    Finalize(codec, Report(
      REPORT_SCHEMA, "", runId, plan.planSha, plan.sealId, plan.sealSha, plan.releaseId, plan.gitSha,
      Running, |steps|, started, None, false, false, "", steps, GATE_RUNNING, RUN_GUARDRAILS))
  }

  /** The report as finished: failed at the last step, gate-failed, or passed. */
  function FinalReport(codec: Codec, plan: Plan, runId: string, started: Time, finished: Time,
                       steps: seq<StepResult>, failedStep: Option<string>): Report {
    var gateFailed := HasStatus(steps, GateFailed);
    var base := RunningReport(codec, plan, runId, started, steps).(
      finishedAt := Some(finished), checkpoint := |steps| + 1);
    Finalize(codec,
      if failedStep.Some? then
        base.(status := Failed, failureStep := failedStep.value, nextRequiredGate := GATE_STEP_FAILED)
      else if gateFailed then
        base.(status := CompletedGateFailed, nextRequiredGate := GATE_TECHNICAL_FAILED)
      else
        base.(status := CompletedPass, technicalGatePassed := true, nextRequiredGate := GATE_TECHNICAL_PASSED))
  }

  // ----- one step -----

  function OutputOf(codec: Codec, files: Files, name: string): Option<Output> {
    match HashFile(codec, files, DeclaredOutput(name))
    case Some((sha, size)) => if size > 0 then Some(Output(name, sha, size)) else None
    case None => None
  }

  /** The declared outputs found in order, up to the first that is missing or empty. */
  function CollectFrom(codec: Codec, files: Files, names: seq<string>): (seq<Output>, bool) {
    if names == [] then ([], true)
    else
      match OutputOf(codec, files, names[0])
      case None => ([], false)
      case Some(output) =>
        var (rest, ok) := CollectFrom(codec, files, names[1..]);
        ([output] + rest, ok)
  }

  function OutputPath(output: Output): string {
    output.path
  }

  function Collected(codec: Codec, files: Files, names: seq<string>): (seq<Output>, bool) {
    var (outputs, ok) := CollectFrom(codec, files, names);
    (if ok then Text.SortBy(OutputPath, outputs) else outputs, ok)
  }

  /** time.Duration.Milliseconds truncates toward zero. */
  function Millis(duration: int): int {
    if duration >= 0 then duration / 1_000_000 else -((-duration) / 1_000_000)
  }

  /** Files after a step's process has run. */
  function FilesAfterProcess(files: Files, step: Step, b: StepBehaviour): Files {
    files
    + map[StdoutLog(step.id) := RegularFile(Written(Fresh(MAX_LOG_BYTES), b.stdout).stored),
          StderrLog(step.id) := RegularFile(Written(Fresh(MAX_LOG_BYTES), b.stderr).stored)]
    + b.writes
  }

  /** Opening the two log files first leaves no trace once the process has run. */
  lemma OpeningLogsIsOverwritten(files: Files, step: Step, b: StepBehaviour)
    ensures FilesAfterProcess(files[StdoutLog(step.id) := RegularFile([])][StderrLog(step.id) := RegularFile([])],
                              step, b)
         == FilesAfterProcess(files, step, b)
  {
  }

  /** The result of a step from its two logs and the outputs found. */
  function StepOutcome(codec: Codec, step: Step, b: StepBehaviour, started: Time, finished: Time,
                       out: Log, err: Log, found: (seq<Output>, bool)): StepResult {
    StepResult(
      step.id,
      if !b.logsClosed || b.exitCode !in step.allowedExitCodes || !found.1 then StepFailed
      else if b.exitCode == 0 then Passed
      else GateFailed,
      b.exitCode, started, finished, Millis(Clamp64(finished - started)),
      codec.sha(out.stored), |out.stored|, out.truncated,
      codec.sha(err.stored), |err.stored|, err.truncated,
      if b.logsClosed then found.0 else [])
  }

  function FinishedStep(codec: Codec, files: Files, step: Step, b: StepBehaviour, started: Time, finished: Time)
    : StepResult
  {
    StepOutcome(codec, step, b, started, finished,
                Written(Fresh(MAX_LOG_BYTES), b.stdout), Written(Fresh(MAX_LOG_BYTES), b.stderr),
                Collected(codec, files, step.outputs))
  }

  /** The result of a step whose log files could not be created: it stays marked running. */
  function StartedStep(step: Step, started: Time): StepResult {
    StepResult(step.id, StepRunning, 0, started, 0, 0, "", 0, false, "", 0, false, [])
  }

  datatype StepEnd = StepEnd(files: Files, result: StepResult, failed: bool, taken: nat)

  function StepSpec(codec: Codec, files: Files, step: Step, b: StepBehaviour, clock: Readings, taken: nat): StepEnd {
    if StdoutLog(step.id) in files then
      StepEnd(files, StartedStep(step, clock(taken)), true, taken + 1)
    else if StderrLog(step.id) in files then
      StepEnd(files[StdoutLog(step.id) := RegularFile([])], StartedStep(step, clock(taken)), true, taken + 1)
    else
      var files' := FilesAfterProcess(files, step, b);
      var result := FinishedStep(codec, files', step, b, clock(taken), clock(taken + 1));
      StepEnd(files', result, result.status == StepFailed, taken + 2)
  }

  // ----- one run -----

  datatype RunEnd = RunEnd(files: Files, outcome: Outcome, taken: nat)

  /** finishReport: last checkpoint, result file, validation. */
  function FinishSpec(codec: Codec, files: Files, report: Report, failedStep: Option<string>, taken: nat): RunEnd {
    var document := RegularFile(codec.indentReport(report));
    if CheckpointFile(report.checkpoint) in files then RunEnd(files, FileExists, taken)
    else
      var files' := files[CheckpointFile(report.checkpoint) := document];
      if ResultFile in files' then RunEnd(files', FileExists, taken)
      else RunEnd(files'[ResultFile := document],
                  if ValidReport(codec, report) then Finished(report, failedStep) else InvalidReport,
                  taken)
  }

  /** The step loop of Execute from step i on, given the evidence of the steps before it. */
  function LoopSpec(codec: Codec, plan: Plan, runId: string, started: Time, behaviour: Behaviour, clock: Readings,
                    files: Files, steps: seq<StepResult>, taken: nat): RunEnd
    decreases |plan.steps| - |steps|
  {
    if |steps| >= |plan.steps| then
      FinishSpec(codec, files, FinalReport(codec, plan, runId, started, clock(taken), steps, None), None, taken + 1)
    else
      var step := plan.steps[|steps|];
      var end := StepSpec(codec, files, step, behaviour(|steps|), clock, taken);
      var steps' := steps + [end.result];
      if end.failed then
        FinishSpec(codec, end.files,
                   FinalReport(codec, plan, runId, started, clock(end.taken), steps', Some(step.id)),
                   Some(step.id), end.taken + 1)
      else if CheckpointFile(|steps'|) in end.files then
        RunEnd(end.files, FileExists, end.taken)
      else
        var document := RegularFile(codec.indentReport(RunningReport(codec, plan, runId, started, steps')));
        LoopSpec(codec, plan, runId, started, behaviour, clock, end.files[CheckpointFile(|steps'|) := document],
                 steps', end.taken)
  }

  /** The files of a run directory just before its first step. */
  function InitialFiles(codec: Codec, plan: Plan, runId: string, started: Time): Files {
    map[PlanFile := RegularFile(codec.indentPlan(plan)),
        CheckpointFile(0) := RegularFile(codec.indentReport(RunningReport(codec, plan, runId, started, [])))]
  }

  /** A whole run in a fresh directory; reading `taken - 1` of the clock started it. */
  function RunSpec(codec: Codec, plan: Plan, runId: string, started: Time, behaviour: Behaviour, clock: Readings,
                   taken: nat): RunEnd
  {
    LoopSpec(codec, plan, runId, started, behaviour, clock, InitialFiles(codec, plan, runId, started), [], taken)
  }

  class Clock {
    const readings: Readings
    var taken: nat

    constructor (readings: Readings)
      ensures this.readings == readings && taken == 0
    {
      this.readings := readings;
      taken := 0;
    }

    method Now() returns (t: Time)
      modifies this
      ensures t == readings(old(taken)) && taken == old(taken) + 1
    {
      t := readings(taken);
      taken := taken + 1;
    }
  }

  /** One run directory and the work done in it. */
  class RunDirectory {
    var files: Files

    constructor ()
      ensures files == map[]
    {
      files := map[];
    }

    /** writeExclusive: creates a file or reports that it exists; never rewrites one. */
    method Create(name: FileName, content: Bytes) returns (ok: bool)
      modifies this
      ensures ok <==> name !in old(files)
      ensures files == if ok then old(files)[name := RegularFile(content)] else old(files)
    {
      if name in files {
        return false;
      }
      files := files[name := RegularFile(content)];
      return true;
    }

    /** hashFile over each declared output, stopping at the first that is missing or empty. */
    method CollectOutputs(codec: Codec, names: seq<string>) returns (outputs: seq<Output>, ok: bool)
      ensures (outputs, ok) == Collected(codec, files, names)
    {
      outputs := [];
      assert names[0..] == names;
      for i := 0 to |names|
        invariant outputs + CollectFrom(codec, files, names[i..]).0 == CollectFrom(codec, files, names).0
        invariant CollectFrom(codec, files, names[i..]).1 == CollectFrom(codec, files, names).1
      {
        assert names[i..][1..] == names[i + 1..];
        var output := OutputOf(codec, files, names[i]);
        if output.None? {
          assert outputs + [] == outputs;
          return outputs, false;
        }
        assert outputs + ([output.value] + CollectFrom(codec, files, names[i + 1..]).0)
            == outputs + [output.value] + CollectFrom(codec, files, names[i + 1..]).0;
        outputs := outputs + [output.value];
      }
      assert names[|names|..] == [] && outputs + [] == outputs;
      return Text.SortBy(OutputPath, outputs), true;
    }

    /** The process of one step: both logs through bounded writers, then whatever files it left. */
    method RunProcess(step: Step, b: StepBehaviour) returns (stdout: Log, stderr: Log)
      modifies this
      ensures stdout == Written(Fresh(MAX_LOG_BYTES), b.stdout) && stderr == Written(Fresh(MAX_LOG_BYTES), b.stderr)
      ensures files == FilesAfterProcess(old(files), step, b)
    {
      var out := new BoundedWriter(MAX_LOG_BYTES);
      var err := new BoundedWriter(MAX_LOG_BYTES);
      out.WriteAll(b.stdout);
      err.WriteAll(b.stderr);
      stdout, stderr := out.State(), err.State();
      files := files
        + map[StdoutLog(step.id) := RegularFile(stdout.stored), StderrLog(step.id) := RegularFile(stderr.stored)]
        + b.writes;
    }

    method RunStep(codec: Codec, step: Step, b: StepBehaviour, clock: Clock) returns (result: StepResult, failed: bool)
      modifies this, clock
      ensures StepEnd(files, result, failed, clock.taken)
           == StepSpec(codec, old(files), step, b, clock.readings, old(clock.taken))
    {
      var started := clock.Now();
      result, failed := StartedStep(step, started), true;
      var created := Create(StdoutLog(step.id), []);
      if !created {
        return;
      }
      created := Create(StderrLog(step.id), []);
      if !created {
        return;
      }
      OpeningLogsIsOverwritten(old(files), step, b);
      result := RunWithLogs(codec, step, b, started, clock);
      failed := result.status == StepFailed;
    }

    /** The step once its log files are open: the process, the second reading of the clock, and the outputs. */
    method RunWithLogs(codec: Codec, step: Step, b: StepBehaviour, started: Time, clock: Clock)
      returns (result: StepResult)
      modifies this, clock
      ensures files == FilesAfterProcess(old(files), step, b) && clock.taken == old(clock.taken) + 1
      ensures result == FinishedStep(codec, files, step, b, started, clock.readings(old(clock.taken)))
    {
      var stdout, stderr := RunProcess(step, b);
      var finished := clock.Now();
      result := CompleteStep(codec, step, b, started, finished, stdout, stderr);
    }

    /** The tail of runStep: collect the outputs only when both logs closed cleanly. */
    method CompleteStep(codec: Codec, step: Step, b: StepBehaviour, started: Time, finished: Time, stdout: Log,
                        stderr: Log)
      returns (result: StepResult)
      ensures result == StepOutcome(codec, step, b, started, finished, stdout, stderr,
                                    Collected(codec, files, step.outputs))
    {
      var outputs, collected := [], false;
      if b.logsClosed {
        outputs, collected := CollectOutputs(codec, step.outputs);
      }
      result := StepOutcome(codec, step, b, started, finished, stdout, stderr, (outputs, collected));
    }

    method FinishReport(codec: Codec, report: Report, failedStep: Option<string>, ghost taken: nat)
      returns (outcome: Outcome)
      modifies this
      ensures RunEnd(files, outcome, taken) == FinishSpec(codec, old(files), report, failedStep, taken)
    {
      var document := codec.indentReport(report);
      var created := Create(CheckpointFile(report.checkpoint), document);
      if !created {
        return FileExists;
      }
      created := Create(ResultFile, document);
      if !created {
        return FileExists;
      }
      var valid := ValidateReport(codec, report);
      return if valid then Finished(report, failedStep) else InvalidReport;
    }

    /** Execute inside the directory it has just made, from the plan file to the result file. */
    method ExecuteIn(codec: Codec, plan: Plan, runId: string, started: Time, behaviour: Behaviour, clock: Clock)
      returns (outcome: Outcome)
      requires files == map[]
      modifies this, clock
      ensures RunEnd(files, outcome, clock.taken)
           == RunSpec(codec, plan, runId, started, behaviour, clock.readings, old(clock.taken))
    {
      ghost var end := RunSpec(codec, plan, runId, started, behaviour, clock.readings, clock.taken);
      var _ := Create(PlanFile, codec.indentPlan(plan));
      var report := RunningReport(codec, plan, runId, started, []);
      var _ := Create(CheckpointFile(0), codec.indentReport(report));
      while |report.steps| < |plan.steps|
        invariant report == RunningReport(codec, plan, runId, started, report.steps)
        invariant end
               == LoopSpec(codec, plan, runId, started, behaviour, clock.readings, files, report.steps, clock.taken)
        decreases |plan.steps| - |report.steps|
      {
        var step := plan.steps[|report.steps|];
        var result, failed := RunStep(codec, step, behaviour(|report.steps|), clock);
        var steps := report.steps + [result];
        if failed {
          var finished := clock.Now();
          report := FinalReport(codec, plan, runId, started, finished, steps, Some(step.id));
          outcome := FinishReport(codec, report, Some(step.id), clock.taken);
          return;
        }
        report := RunningReport(codec, plan, runId, started, steps);
        var created := Create(CheckpointFile(|steps|), codec.indentReport(report));
        if !created {
          return FileExists;
        }
      }
      var finished := clock.Now();
      report := FinalReport(codec, plan, runId, started, finished, report.steps, None);
      outcome := FinishReport(codec, report, None, clock.taken);
    }
  }

  /** The directory of one seal: the active lock and the run directories beside it. */
  class SealDirectory {
    var lock: Option<string>
    var runs: map<string, RunDirectory>

    constructor ()
      ensures lock == None && runs == map[]
    {
      lock, runs := None, map[];
    }

    /** Earlier run directories are not in the frame: no run can touch another's evidence. */
    method Execute(codec: Codec, plan: Plan, environmentOk: bool, behaviour: Behaviour, clock: Clock)
      returns (outcome: Outcome)
      modifies this, clock
      ensures !ValidPlan(codec, plan, environmentOk) ==>
                outcome == InvalidPlan && lock == old(lock) && runs == old(runs)
      ensures ValidPlan(codec, plan, environmentOk) && old(lock).Some? ==>
                outcome == Busy && lock == old(lock) && runs == old(runs)
      ensures ValidPlan(codec, plan, environmentOk) && old(lock).None? ==>
                && lock == None
                && var started := clock.readings(old(clock.taken));
                   var runId := RunId(codec, plan, started);
                   if runId in old(runs) then outcome == RunExists && runs == old(runs)
                   else
                     && runId in runs && fresh(runs[runId]) && runs == old(runs)[runId := runs[runId]]
                     && RunEnd(runs[runId].files, outcome, clock.taken)
                        == RunSpec(codec, plan, runId, started, behaviour, clock.readings, old(clock.taken) + 1)
    {
      if !ValidPlan(codec, plan, environmentOk) {
        return InvalidPlan;
      }
      if lock.Some? {
        return Busy;
      }
      var started := clock.Now();
      var runId := RunId(codec, plan, started);
      lock := Some(runId + "\n");
      if runId in runs {
        lock := None;
        return RunExists;
      }
      var directory := new RunDirectory();
      runs := runs[runId := directory];
      outcome := directory.ExecuteIn(codec, plan, runId, started, behaviour, clock);
      lock := None;
    }
  }
}
