/** What the report of a run says, in terms of what the processes of its steps did. */
module RerunOutcome {
  import opened Options
  import opened Integers
  import opened BoundedLog
  import opened Sequences
  import opened RerunEvidence
  import opened RerunEngine
  import opened RerunAgreement
  import opened RerunCompletion
  import Text

  // ----- one step -----

  /** What the process left under a path: nothing, or the bytes of a file. */
  function Content(b: StepBehaviour, path: string): Bytes {
    if DeclaredOutput(path) in b.writes then b.writes[DeclaredOutput(path)].content else []
  }

  predicate Delivered(b: StepBehaviour, path: string) {
    Content(b, path) != []
  }

  /** Its logs closed, its exit code is allowed, and every declared output is there and not empty. */
  predicate Succeeds(step: Step, b: StepBehaviour) {
    && b.logsClosed && b.exitCode in step.allowedExitCodes
    && forall i | 0 <= i < |step.outputs| :: Delivered(b, step.outputs[i])
  }

  /** The verdict on a step and the times it ran. */
  predicate VerdictTold(step: Step, b: StepBehaviour, t0: Time, t1: Time, r: StepResult) {
    && r.id == step.id && r.exitCode == b.exitCode && r.startedAt == t0 && r.finishedAt == t1
    && (r.status == StepFailed <==> !Succeeds(step, b))
    && (r.status == Passed <==> Succeeds(step, b) && b.exitCode == 0)
    && (r.status == GateFailed <==> Succeeds(step, b) && b.exitCode != 0)
  }

  /** The recorded outputs: what was delivered up to the first gap, all of it when there is none, nothing when a log
      did not close. */
  ghost predicate OutputsTold(codec: Codec, step: Step, b: StepBehaviour, outputs: seq<Output>) {
    && (forall o | o in outputs ::
          o.path in step.outputs && Delivered(b, o.path) && o.sha == codec.sha(Content(b, o.path))
          && o.bytes == |Content(b, o.path)|)
    && (!b.logsClosed ==> outputs == [])
    && (b.logsClosed && (forall i | 0 <= i < |step.outputs| :: Delivered(b, step.outputs[i])) ==>
          |outputs| == |step.outputs| && Distinct(PathsOf(outputs)))
    && (b.logsClosed && (exists i | 0 <= i < |step.outputs| :: !Delivered(b, step.outputs[i])) ==>
          && |outputs| < |step.outputs| && !Delivered(b, step.outputs[|outputs|])
          && PathsOf(outputs) == step.outputs[..|outputs|])
  }

  /** A file of its own step is what its process left, and is missing if the process left none. */
  lemma OwnOutput(codec: Codec, plan: Plan, files: Files, i: nat, b: StepBehaviour, path: string)
    requires FixedRegistry(plan.steps) && i < 6 && NamesKept(plan, files, i, i) && path in plan.steps[i].outputs
    ensures OutputOf(codec, FilesAfterProcess(files, plan.steps[i], b), path)
         == if Delivered(b, path) then Some(Output(path, codec.sha(Content(b, path)), |Content(b, path)|)) else None
  {
    if DeclaredOutput(path) in files {
      assert NameAllowed(plan, i, i, DeclaredOutput(path));
      var j :| 0 <= j < i && path in plan.steps[j].outputs;
      FixedOutputOwner(i, j, path);
    }
  }

  lemma {:induction false} CollectedIffDelivered(codec: Codec, files: Files, names: seq<string>, b: StepBehaviour)
    requires forall path | path in names :: (OutputOf(codec, files, path).Some? <==> Delivered(b, path))
    ensures var (outputs, ok) := CollectFrom(codec, files, names);
            && (ok <==> forall i | 0 <= i < |names| :: Delivered(b, names[i]))
            && (!ok ==> |outputs| < |names| && !Delivered(b, names[|outputs|]))
  {
    if names != [] {
      CollectedIffDelivered(codec, files, names[1..], b);
      assert names == [names[0]] + names[1..];
    }
  }

  lemma StepIsTold(codec: Codec, plan: Plan, files: Files, i: nat, b: StepBehaviour, t0: Time, t1: Time)
    requires FixedRegistry(plan.steps) && i < 6 && NamesKept(plan, files, i, i)
    ensures var result := FinishedStep(codec, FilesAfterProcess(files, plan.steps[i], b), plan.steps[i], b, t0, t1);
            VerdictTold(plan.steps[i], b, t0, t1, result) && OutputsTold(codec, plan.steps[i], b, result.outputs)
  {
    var step, files' := plan.steps[i], FilesAfterProcess(files, plan.steps[i], b);
    forall path | path in step.outputs
      ensures OutputOf(codec, files', path)
           == if Delivered(b, path) then Some(Output(path, codec.sha(Content(b, path)), |Content(b, path)|)) else None
    {
      OwnOutput(codec, plan, files, i, b, path);
    }
    CollectedIffDelivered(codec, files', step.outputs, b);
    OutputsAreTold(codec, files', plan, i, b);
  }

  lemma OutputsAreTold(codec: Codec, files: Files, plan: Plan, i: nat, b: StepBehaviour)
    requires FixedRegistry(plan.steps) && i < 6
    requires forall path | path in plan.steps[i].outputs ::
               OutputOf(codec, files, path)
               == if Delivered(b, path) then Some(Output(path, codec.sha(Content(b, path)), |Content(b, path)|))
                  else None
    ensures OutputsTold(codec, plan.steps[i], b,
                        if b.logsClosed then Collected(codec, files, plan.steps[i].outputs).0 else [])
  {
    var names := plan.steps[i].outputs;
    FixedOutputsDistinct(i);
    CollectedFacts(codec, files, names);
    CollectFromIsPrefix(codec, files, names);
    CollectedIffDelivered(codec, files, names, b);
    var (found, ok) := CollectFrom(codec, files, names);
    if !ok {
      assert PathsOf(found) == names[..|found|];
    }
  }

  // ----- the whole run -----

  /** Step k of the run as its report tells it; its process began and ended at the clock's readings 2k and 2k + 1. */
  ghost predicate StepTold(codec: Codec, plan: Plan, behaviour: Behaviour, clock: Readings, taken: nat, k: nat,
                           r: StepResult)
    requires k < |plan.steps|
  {
    && VerdictTold(plan.steps[k], behaviour(k), clock(taken + 2 * k), clock(taken + 2 * k + 1), r)
    && OutputsTold(codec, plan.steps[k], behaviour(k), r.outputs)
  }

  ghost predicate AllTold(codec: Codec, plan: Plan, behaviour: Behaviour, clock: Readings, taken: nat,
                          steps: seq<StepResult>) {
    && |steps| <= |plan.steps|
    && forall k | 0 <= k < |steps| :: StepTold(codec, plan, behaviour, clock, taken, k, steps[k])
  }

  /** The first n steps all succeed. */
  ghost predicate SucceedUpTo(plan: Plan, behaviour: Behaviour, n: nat) {
    n <= |plan.steps| && forall k | 0 <= k < n :: Succeeds(plan.steps[k], behaviour(k))
  }

  /** The run stops right after its first step that does not succeed, or after the sixth. */
  ghost predicate StopsAtFirstFailure(plan: Plan, behaviour: Behaviour, n: nat) {
    && 1 <= n <= 6 == |plan.steps| && SucceedUpTo(plan, behaviour, n - 1)
    && (n < 6 ==> !Succeeds(plan.steps[n - 1], behaviour(n - 1)))
  }

  /** The verdict on the run: failed at the last step, gate-failed by some exit code, or passed. */
  ghost predicate RunVerdict(plan: Plan, behaviour: Behaviour, report: Report)
    requires 1 <= |report.steps| <= |plan.steps|
  {
    var last := |report.steps| - 1;
    && (report.status == Failed <==> !Succeeds(plan.steps[last], behaviour(last)))
    && report.failureStep == (if report.status == Failed then plan.steps[last].id else "")
    && (report.status == CompletedGateFailed <==>
          SucceedUpTo(plan, behaviour, 6) && exists k: nat :: k < 6 && behaviour(k).exitCode != 0)
    && (report.status == CompletedPass <==>
          SucceedUpTo(plan, behaviour, 6) && forall k: nat | k < 6 :: behaviour(k).exitCode == 0)
    && (report.technicalGatePassed <==> report.status == CompletedPass) && !report.promotionEligible
    && report.nextRequiredGate == (if report.status == Failed then GATE_STEP_FAILED
                                   else if report.status == CompletedGateFailed then GATE_TECHNICAL_FAILED
                                   else GATE_TECHNICAL_PASSED)
  }

  ghost predicate Tells(codec: Codec, plan: Plan, behaviour: Behaviour, clock: Readings, taken: nat, report: Report) {
    && AllTold(codec, plan, behaviour, clock, taken, report.steps)
    && StopsAtFirstFailure(plan, behaviour, |report.steps|)
    && RunVerdict(plan, behaviour, report)
    && report.checkpoint == |report.steps| + 1 && report.finishedAt == Some(clock(taken + 2 * |report.steps|))
  }

  lemma FailedVerdict(codec: Codec, plan: Plan, runId: string, started: Time, behaviour: Behaviour, clock: Readings,
                      taken: nat, steps: seq<StepResult>)
    requires FixedRegistry(plan.steps) && steps != [] && AllTold(codec, plan, behaviour, clock, taken, steps)
    requires SucceedUpTo(plan, behaviour, |steps| - 1) && !Succeeds(plan.steps[|steps| - 1], behaviour(|steps| - 1))
    ensures Tells(codec, plan, behaviour, clock, taken,
                  FinalReport(codec, plan, runId, started, clock(taken + 2 * |steps|), steps,
                              Some(plan.steps[|steps| - 1].id)))
  {
  }

  lemma CompletedVerdict(codec: Codec, plan: Plan, runId: string, started: Time, behaviour: Behaviour, clock: Readings,
                         taken: nat, steps: seq<StepResult>)
    requires FixedRegistry(plan.steps) && |steps| == 6 && AllTold(codec, plan, behaviour, clock, taken, steps)
    requires SucceedUpTo(plan, behaviour, 6)
    ensures Tells(codec, plan, behaviour, clock, taken,
                  FinalReport(codec, plan, runId, started, clock(taken + 2 * |steps|), steps, None))
  {
    GateFailuresTold(codec, plan, behaviour, clock, taken, steps);
    assert Succeeds(plan.steps[5], behaviour(5));
  }

  lemma GateFailuresTold(codec: Codec, plan: Plan, behaviour: Behaviour, clock: Readings, taken: nat,
                         steps: seq<StepResult>)
    requires |plan.steps| == 6 && |steps| == 6 && AllTold(codec, plan, behaviour, clock, taken, steps)
    requires SucceedUpTo(plan, behaviour, 6)
    ensures HasStatus(steps, GateFailed) <==> exists k: nat :: k < 6 && behaviour(k).exitCode != 0
  {
    forall k: nat | k < 6 ensures steps[k].status == GateFailed <==> behaviour(k).exitCode != 0 {
      assert StepTold(codec, plan, behaviour, clock, taken, k, steps[k]);
      assert Succeeds(plan.steps[k], behaviour(k));
    }
    if exists k: nat :: k < 6 && behaviour(k).exitCode != 0 {
      var k: nat :| k < 6 && behaviour(k).exitCode != 0;
      assert steps[k].status == GateFailed;
    }
  }

  lemma TrailLeavesRoom(codec: Codec, plan: Plan, runId: string, started: Time, files: Files, steps: seq<StepResult>)
    requires FixedRegistry(plan.steps) && |steps| < 6 && Trail(codec, plan, runId, started, files, steps, |steps|)
    ensures StdoutLog(plan.steps[|steps|].id) !in files && StderrLog(plan.steps[|steps|].id) !in files
    ensures NamesKept(plan, files, |steps|, |steps|)
  {
    LogsAreNew(codec, plan, runId, started, files, steps);
  }

  lemma EndIsTold(codec: Codec, plan: Plan, files: Files, i: nat, b: StepBehaviour, clock: Readings, now: nat,
                  end: StepEnd)
    requires FixedRegistry(plan.steps) && i < 6 && NamesKept(plan, files, i, i)
    requires StdoutLog(plan.steps[i].id) !in files && StderrLog(plan.steps[i].id) !in files
    requires end == StepSpec(codec, files, plan.steps[i], b, clock, now)
    ensures VerdictTold(plan.steps[i], b, clock(now), clock(now + 1), end.result)
    ensures OutputsTold(codec, plan.steps[i], b, end.result.outputs)
    ensures (end.failed <==> !Succeeds(plan.steps[i], b)) && end.taken == now + 2
  {
    StepWithNewLogs(codec, files, plan.steps[i], b, clock, now);
    StepIsTold(codec, plan, files, i, b, clock(now), clock(now + 1));
  }

  // The loop is followed with the meaning of its steps held apart: `told` is what a step result tells, `ok` which
  // steps succeed, and `good` what the report tells.

  type Teller = (nat, StepResult) -> bool
  type Verdict = nat -> bool

  ghost predicate Tellable(codec: Codec, plan: Plan, behaviour: Behaviour, clock: Readings, taken: nat, told: Teller,
                           ok: Verdict) {
    && FixedRegistry(plan.steps) && Confined(plan, behaviour)
    && (forall k: nat, r | k < 6 && StepTold(codec, plan, behaviour, clock, taken, k, r) :: told(k, r))
    && (forall k: nat {:trigger Succeeds(plan.steps[k], behaviour(k))} | k < 6 ::
          ok(k) == Succeeds(plan.steps[k], behaviour(k)))
  }

  ghost predicate Recorded(told: Teller, ok: Verdict, steps: seq<StepResult>, succeeded: nat) {
    && succeeded <= |steps| <= 6
    && (forall k: nat | k < |steps| :: told(k, steps[k]))
    && (forall k: nat | k < succeeded :: ok(k))
  }

  lemma OneMoreRecorded(told: Teller, ok: Verdict, steps: seq<StepResult>, result: StepResult)
    requires Recorded(told, ok, steps, |steps|) && |steps| < 6 && told(|steps|, result)
    ensures Recorded(told, ok, steps + [result], |steps|)
  {
  }

  lemma OneMoreSucceeded(told: Teller, ok: Verdict, steps: seq<StepResult>, result: StepResult)
    requires Recorded(told, ok, steps, |steps|) && |steps| < 6 && told(|steps|, result) && ok(|steps|)
    ensures Recorded(told, ok, steps + [result], |steps| + 1)
  {
  }

  lemma StepIsTellable(codec: Codec, plan: Plan, behaviour: Behaviour, clock: Readings, taken: nat, told: Teller,
                       ok: Verdict,
                       i: nat, now: nat, result: StepResult)
    requires Tellable(codec, plan, behaviour, clock, taken, told, ok) && i < 6 && now == taken + 2 * i
    requires VerdictTold(plan.steps[i], behaviour(i), clock(now), clock(now + 1), result)
    requires OutputsTold(codec, plan.steps[i], behaviour(i), result.outputs)
    ensures told(i, result) && ok(i) == Succeeds(plan.steps[i], behaviour(i))
  {
    assert StepTold(codec, plan, behaviour, clock, taken, i, result);
  }

  lemma NextIsTold(codec: Codec, plan: Plan, behaviour: Behaviour, clock: Readings, taken: nat, told: Teller,
                   ok: Verdict,
                   files: Files, i: nat, now: nat, end: StepEnd)
    requires Tellable(codec, plan, behaviour, clock, taken, told, ok) && i < 6 && NamesKept(plan, files, i, i)
    requires StdoutLog(plan.steps[i].id) !in files && StderrLog(plan.steps[i].id) !in files
    requires now == taken + 2 * i && end == StepSpec(codec, files, plan.steps[i], behaviour(i), clock, now)
    ensures told(i, end.result) && end.failed == !ok(i) && end.taken == now + 2
  {
    EndIsTold(codec, plan, files, i, behaviour(i), clock, now, end);
    StepIsTellable(codec, plan, behaviour, clock, taken, told, ok, i, now, end.result);
  }

  /** The next step of a trail, told. */
  lemma NextTold(codec: Codec, plan: Plan, runId: string, started: Time, behaviour: Behaviour, clock: Readings,
                 files: Files, steps: seq<StepResult>, taken: nat, told: Teller, ok: Verdict, now: nat, end: StepEnd)
    requires Tellable(codec, plan, behaviour, clock, taken, told, ok) && now == taken + 2 * |steps|
    requires |steps| < 6 && Trail(codec, plan, runId, started, files, steps, |steps|)
    requires end == StepSpec(codec, files, plan.steps[|steps|], behaviour(|steps|), clock, now)
    ensures told(|steps|, end.result) && end.failed == !ok(|steps|) && end.taken == now + 2
  {
    TrailLeavesRoom(codec, plan, runId, started, files, steps);
    NextIsTold(codec, plan, behaviour, clock, taken, told, ok, files, |steps|, now, end);
  }

  /** The loop gets past a step that succeeds. */
  lemma Passes(codec: Codec, plan: Plan, runId: string, started: Time, behaviour: Behaviour, clock: Readings,
               files: Files, steps: seq<StepResult>, now: nat, end: StepEnd) returns (files': Files)
    requires FixedRegistry(plan.steps) && |steps| < 6
    requires end == StepSpec(codec, files, plan.steps[|steps|], behaviour(|steps|), clock, now)
    requires Trail(codec, plan, runId, started, end.files, steps + [end.result], |steps|) && !end.failed
    ensures LoopSpec(codec, plan, runId, started, behaviour, clock, files, steps, now)
         == LoopSpec(codec, plan, runId, started, behaviour, clock, files', steps + [end.result], end.taken)
    ensures Trail(codec, plan, runId, started, files', steps + [end.result], |steps| + 1)
  {
    var steps' := steps + [end.result];
    CheckpointKeepsTrail(codec, plan, runId, started, end.files, steps');
    LoopContinues(codec, plan, runId, started, behaviour, clock, files, steps, now, end);
    files' := end.files[CheckpointFile(|steps'|) :=
                RegularFile(codec.indentReport(RunningReport(codec, plan, runId, started, steps')))];
  }

  lemma OneTurn(codec: Codec, plan: Plan, runId: string, started: Time, behaviour: Behaviour, clock: Readings,
                taken: nat,
                told: Teller, ok: Verdict, files: Files, steps: seq<StepResult>, now: nat)
    returns (files': Files, result: StepResult)
    requires Tellable(codec, plan, behaviour, clock, taken, told, ok) && now == taken + 2 * |steps|
    requires |steps| < 6 && Trail(codec, plan, runId, started, files, steps, |steps|) && ok(|steps|)
    ensures LoopSpec(codec, plan, runId, started, behaviour, clock, files, steps, now)
         == LoopSpec(codec, plan, runId, started, behaviour, clock, files', steps + [result], now + 2)
    ensures Trail(codec, plan, runId, started, files', steps + [result], |steps| + 1)
    ensures told(|steps|, result)
  {
    var end := NextStep(codec, plan, runId, started, behaviour, clock, files, steps, now);
    NextTold(codec, plan, runId, started, behaviour, clock, files, steps, taken, told, ok, now, end);
    files' := Passes(codec, plan, runId, started, behaviour, clock, files, steps, now, end);
    result := end.result;
  }

  predicate Reports(run: RunEnd, report: Report) {
    run.outcome.Finished? ==> run.outcome.report == report
  }

  lemma FinishReports(codec: Codec, files: Files, report: Report, failed: Option<string>, taken: nat)
    ensures Reports(FinishSpec(codec, files, report, failed, taken), report)
  {
  }

  lemma StopsHere(codec: Codec, plan: Plan, runId: string, started: Time, behaviour: Behaviour, clock: Readings,
                  files: Files, steps: seq<StepResult>, now: nat, end: StepEnd)
    requires |steps| < |plan.steps| && end.failed && end.taken == now + 2
    requires end == StepSpec(codec, files, plan.steps[|steps|], behaviour(|steps|), clock, now)
    ensures Reports(LoopSpec(codec, plan, runId, started, behaviour, clock, files, steps, now),
                    FinalReport(codec, plan, runId, started, clock(now + 2), steps + [end.result],
                                Some(plan.steps[|steps|].id)))
  {
    LoopFails(codec, plan, runId, started, behaviour, clock, files, steps, now, end);
    var failed := Some(plan.steps[|steps|].id);
    FinishReports(codec, end.files,
                  FinalReport(codec, plan, runId, started, clock(now + 2), steps + [end.result], failed),
                  failed, now + 3);
  }

  lemma CompletesHere(codec: Codec, plan: Plan, runId: string, started: Time, behaviour: Behaviour, clock: Readings,
                      files: Files, steps: seq<StepResult>, now: nat)
    requires |steps| == |plan.steps|
    ensures Reports(LoopSpec(codec, plan, runId, started, behaviour, clock, files, steps, now),
                    FinalReport(codec, plan, runId, started, clock(now), steps, None))
  {
    LoopCompletes(codec, plan, runId, started, behaviour, clock, files, steps, now);
    FinishReports(codec, files, FinalReport(codec, plan, runId, started, clock(now), steps, None), None, now + 1);
  }

  /** Where the loop stands when every step so far has succeeded. */
  ghost predicate Stands(codec: Codec, plan: Plan, runId: string, started: Time, taken: nat, told: Teller, ok: Verdict,
                         files: Files, steps: seq<StepResult>, now: nat) {
    && |steps| <= 6 && now == taken + 2 * |steps| && Recorded(told, ok, steps, |steps|)
    && Trail(codec, plan, runId, started, files, steps, |steps|)
  }

  lemma StandsAgain(codec: Codec, plan: Plan, runId: string, started: Time, taken: nat, told: Teller, ok: Verdict,
                    files: Files, steps: seq<StepResult>, result: StepResult, now: nat)
    requires Recorded(told, ok, steps, |steps|) && |steps| < 6 && told(|steps|, result) && ok(|steps|)
    requires now == taken + 2 * |steps| && Trail(codec, plan, runId, started, files, steps + [result], |steps| + 1)
    ensures Stands(codec, plan, runId, started, taken, told, ok, files, steps + [result], now + 2)
  {
    OneMoreSucceeded(told, ok, steps, result);
  }

  lemma NextStand(codec: Codec, plan: Plan, runId: string, started: Time, behaviour: Behaviour, clock: Readings,
                  taken: nat,
                  told: Teller, ok: Verdict, files: Files, steps: seq<StepResult>, now: nat)
    returns (files': Files, steps': seq<StepResult>)
    requires Tellable(codec, plan, behaviour, clock, taken, told, ok)
    requires |steps| < 6 && Stands(codec, plan, runId, started, taken, told, ok, files, steps, now) && ok(|steps|)
    ensures LoopSpec(codec, plan, runId, started, behaviour, clock, files, steps, now)
         == LoopSpec(codec, plan, runId, started, behaviour, clock, files', steps', now + 2)
    ensures |steps'| == |steps| + 1 && Stands(codec, plan, runId, started, taken, told, ok, files', steps', now + 2)
  {
    var next, result := OneTurn(codec, plan, runId, started, behaviour, clock, taken, told, ok, files, steps, now);
    StandsAgain(codec, plan, runId, started, taken, told, ok, next, steps, result, now);
    files', steps' := next, steps + [result];
  }

  /** The loop gets past every step before the first that does not succeed. */
  lemma {:induction false} Reaches(codec: Codec, plan: Plan, runId: string, started: Time, behaviour: Behaviour,
                                   clock: Readings, taken: nat, told: Teller, ok: Verdict, files: Files,
                                   steps: seq<StepResult>, now: nat, k: nat)
    returns (files': Files, steps': seq<StepResult>, now': nat)
    requires Tellable(codec, plan, behaviour, clock, taken, told, ok)
    requires Stands(codec, plan, runId, started, taken, told, ok, files, steps, now)
    requires |steps| <= k <= 6 && forall i: nat | i < k :: ok(i)
    ensures LoopSpec(codec, plan, runId, started, behaviour, clock, files, steps, now)
         == LoopSpec(codec, plan, runId, started, behaviour, clock, files', steps', now')
    ensures |steps'| == k && Stands(codec, plan, runId, started, taken, told, ok, files', steps', now')
    decreases k - |steps|
  {
    files', steps', now' := files, steps, now;
    if |steps| < k {
      files', steps' := NextStand(codec, plan, runId, started, behaviour, clock, taken, told, ok, files, steps, now);
      files', steps', now' :=
        Reaches(codec, plan, runId, started, behaviour, clock, taken, told, ok, files', steps', now + 2, k);
    }
  }

  lemma StopsAt(codec: Codec, plan: Plan, runId: string, started: Time, behaviour: Behaviour, clock: Readings,
                taken: nat,
                told: Teller, ok: Verdict, files: Files, steps: seq<StepResult>, now: nat)
    returns (steps': seq<StepResult>)
    requires Tellable(codec, plan, behaviour, clock, taken, told, ok)
    requires |steps| < 6 && Stands(codec, plan, runId, started, taken, told, ok, files, steps, now) && !ok(|steps|)
    ensures |steps'| == |steps| + 1 && Recorded(told, ok, steps', |steps|)
    ensures Reports(LoopSpec(codec, plan, runId, started, behaviour, clock, files, steps, now),
                    FinalReport(codec, plan, runId, started, clock(now + 2), steps', Some(plan.steps[|steps|].id)))
  {
    var end := StepSpec(codec, files, plan.steps[|steps|], behaviour(|steps|), clock, now);
    NextTold(codec, plan, runId, started, behaviour, clock, files, steps, taken, told, ok, now, end);
    OneMoreRecorded(told, ok, steps, end.result);
    StopsHere(codec, plan, runId, started, behaviour, clock, files, steps, now, end);
    steps' := steps + [end.result];
  }

  /** Where the loop ends from a stand just before the first step that does not succeed, or after the sixth. */
  lemma EndsFrom(codec: Codec, plan: Plan, runId: string, started: Time, behaviour: Behaviour, clock: Readings,
                 taken: nat,
                 told: Teller, ok: Verdict, files: Files, steps: seq<StepResult>, now: nat)
    returns (steps': seq<StepResult>, report: Report)
    requires Tellable(codec, plan, behaviour, clock, taken, told, ok)
    requires Stands(codec, plan, runId, started, taken, told, ok, files, steps, now) && (|steps| < 6 ==> !ok(|steps|))
    ensures Reports(LoopSpec(codec, plan, runId, started, behaviour, clock, files, steps, now), report)
    ensures Recorded(told, ok, steps', |steps|)
    ensures if |steps| == 6 then
              steps' == steps && report == FinalReport(codec, plan, runId, started, clock(now), steps', None)
            else
              && |steps'| == |steps| + 1
              && report == FinalReport(codec, plan, runId, started, clock(now + 2), steps',
                                       Some(plan.steps[|steps|].id))
  {
    if |steps| == 6 {
      CompletesHere(codec, plan, runId, started, behaviour, clock, files, steps, now);
      steps', report := steps, FinalReport(codec, plan, runId, started, clock(now), steps, None);
    } else {
      steps' := StopsAt(codec, plan, runId, started, behaviour, clock, taken, told, ok, files, steps, now);
      report := FinalReport(codec, plan, runId, started, clock(now + 2), steps', Some(plan.steps[|steps|].id));
    }
  }

  lemma LoopReports(codec: Codec, plan: Plan, runId: string, started: Time, behaviour: Behaviour, clock: Readings,
                    taken: nat, told: Teller, ok: Verdict, files: Files, first: seq<StepResult>, k: nat)
    returns (steps: seq<StepResult>, report: Report, now: nat)
    requires Tellable(codec, plan, behaviour, clock, taken, told, ok)
    requires first == [] && Stands(codec, plan, runId, started, taken, told, ok, files, first, taken)
    requires k <= 6 && (forall i: nat | i < k :: ok(i)) && (k < 6 ==> !ok(k))
    ensures Reports(LoopSpec(codec, plan, runId, started, behaviour, clock, files, first, taken), report)
    ensures Recorded(told, ok, steps, k) && |steps| == (if k == 6 then 6 else k + 1) && now == taken + 2 * |steps|
    ensures report == FinalReport(codec, plan, runId, started, clock(now), steps,
                                  if k == 6 then None else Some(plan.steps[k].id))
  {
    var files', steps', now' :=
      Reaches(codec, plan, runId, started, behaviour, clock, taken, told, ok, files, first, taken, k);
    steps, report := EndsFrom(codec, plan, runId, started, behaviour, clock, taken, told, ok, files', steps', now');
    now := if k == 6 then now' else now' + 2;
  }

  lemma RunReports(codec: Codec, plan: Plan, runId: string, started: Time, behaviour: Behaviour, clock: Readings,
                   taken: nat,
                   told: Teller, ok: Verdict)
    returns (steps: seq<StepResult>, report: Report, now: nat, k: nat)
    requires Tellable(codec, plan, behaviour, clock, taken, told, ok)
    ensures Reports(RunSpec(codec, plan, runId, started, behaviour, clock, taken), report)
    ensures k <= 6 && (k < 6 ==> !ok(k))
    ensures Recorded(told, ok, steps, k) && |steps| == (if k == 6 then 6 else k + 1) && now == taken + 2 * |steps|
    ensures report == FinalReport(codec, plan, runId, started, clock(now), steps,
                                  if k == 6 then None else Some(plan.steps[k].id))
  {
    InitialTrail(codec, plan, runId, started);
    k := FirstFailure(ok, 6);
    steps, report, now := LoopReports(codec, plan, runId, started, behaviour, clock, taken, told, ok,
                                      InitialFiles(codec, plan, runId, started), [], k);
  }

  lemma {:induction false} FirstFailure(ok: Verdict, n: nat) returns (k: nat)
    ensures k <= n && (forall i: nat | i < k :: ok(i)) && (k < n ==> !ok(k))
  {
    if n == 0 {
      return 0;
    }
    k := FirstFailure(ok, n - 1);
    if k == n - 1 && ok(k) {
      k := n;
    }
  }

  ghost function TellerOf(codec: Codec, plan: Plan, behaviour: Behaviour, clock: Readings, taken: nat): Teller {
    (k: nat, r: StepResult) => k < |plan.steps| && StepTold(codec, plan, behaviour, clock, taken, k, r)
  }

  ghost function VerdictOf(plan: Plan, behaviour: Behaviour): Verdict {
    (k: nat) => k < |plan.steps| && Succeeds(plan.steps[k], behaviour(k))
  }

  /** What the loop recorded, with its meaning put back. */
  lemma RecordedTells(codec: Codec, plan: Plan, runId: string, started: Time, behaviour: Behaviour, clock: Readings,
                      taken: nat, steps: seq<StepResult>, k: nat, now: nat)
    requires FixedRegistry(plan.steps) && now == taken + 2 * |steps|
    requires Recorded(TellerOf(codec, plan, behaviour, clock, taken), VerdictOf(plan, behaviour), steps, k)
    requires k <= 6 && if k == 6 then |steps| == 6 else |steps| == k + 1 && !VerdictOf(plan, behaviour)(k)
    ensures Tells(codec, plan, behaviour, clock, taken,
                  FinalReport(codec, plan, runId, started, clock(now), steps,
                              if k == 6 then None else Some(plan.steps[k].id)))
  {
    RecordedMeans(codec, plan, behaviour, clock, taken, steps, k);
    if k == 6 {
      CompletedVerdict(codec, plan, runId, started, behaviour, clock, taken, steps);
    } else {
      FailedVerdict(codec, plan, runId, started, behaviour, clock, taken, steps);
    }
  }

  lemma RecordedMeans(codec: Codec, plan: Plan, behaviour: Behaviour, clock: Readings, taken: nat,
                      steps: seq<StepResult>,
                      k: nat)
    requires |steps| <= |plan.steps| == 6
    requires Recorded(TellerOf(codec, plan, behaviour, clock, taken), VerdictOf(plan, behaviour), steps, k)
    ensures AllTold(codec, plan, behaviour, clock, taken, steps) && SucceedUpTo(plan, behaviour, k)
    ensures k < 6 && !VerdictOf(plan, behaviour)(k) ==> !Succeeds(plan.steps[k], behaviour(k))
  {
    var told, ok := TellerOf(codec, plan, behaviour, clock, taken), VerdictOf(plan, behaviour);
    forall i | 0 <= i < |steps| ensures StepTold(codec, plan, behaviour, clock, taken, i, steps[i]) {
      assert told(i, steps[i]);
    }
    forall i | 0 <= i < k ensures Succeeds(plan.steps[i], behaviour(i)) {
      assert ok(i);
    }
  }

  lemma AreTellable(codec: Codec, plan: Plan, behaviour: Behaviour, clock: Readings, taken: nat)
    requires FixedRegistry(plan.steps) && Confined(plan, behaviour)
    ensures Tellable(codec, plan, behaviour, clock, taken, TellerOf(codec, plan, behaviour, clock, taken),
                     VerdictOf(plan, behaviour))
  {
  }

  /** The report a run returns tells exactly what happened: which steps ran, that the run stopped at the first one
      whose logs did not close, whose exit code is not allowed or whose output is missing, how each step and the run
      ended, what each step left, and when. */
  lemma ReportTellsTheRun(codec: Codec, plan: Plan, started: Time, behaviour: Behaviour, clock: Readings, taken: nat)
    requires ValidPlan(codec, plan, true) && Confined(plan, behaviour)
    ensures var end := RunSpec(codec, plan, RunId(codec, plan, started), started, behaviour, clock, taken);
            end.outcome.Finished? ==> Tells(codec, plan, behaviour, clock, taken, end.outcome.report)
  {
    var runId := RunId(codec, plan, started);
    AreTellable(codec, plan, behaviour, clock, taken);
    var steps, report, now, k := RunReports(codec, plan, runId, started, behaviour, clock, taken,
                                            TellerOf(codec, plan, behaviour, clock, taken), VerdictOf(plan, behaviour));
    RecordedTells(codec, plan, runId, started, behaviour, clock, taken, steps, k, now);
  }

  /** A run is only started for six fixed steps, in order, under a plan unaltered since it was hashed, with its seal,
      release and binaries still in place; each step may exit with 0, and two of them with one code more. */
  lemma PlansRunSpelled(codec: Codec, plan: Plan, environmentOk: bool)
    requires ValidPlan(codec, plan, environmentOk)
    ensures environmentOk && plan.planSha == codec.sha(codec.marshalPlan(plan.(planSha := "")))
    ensures |plan.steps| == 6
    ensures forall i | 0 <= i < 6 :: plan.steps[i].id == ["intent", "rag", "diagnosis", "tool", "memory", "unified"][i]
    ensures forall i, code | 0 <= i < 6 ::
              code in plan.steps[i].allowedExitCodes <==> code == 0 || (i, code) == (1, 1) || (i, code) == (5, 2)
  {
    assert FinalizePlan(codec, plan).planSha == plan.planSha;
    forall i, code | 0 <= i < 6
      ensures code in plan.steps[i].allowedExitCodes <==> code == 0 || (i, code) == (1, 1) || (i, code) == (5, 2)
    {
      assert plan.steps[i].allowedExitCodes == FixedExitCodes(i);
    }
  }

  /** With a clock that never runs backwards there always is such a report; in particular a step that exits with a
      code it is not allowed ends the run there, as failed. */
  lemma DisallowedExitStopsTheRun(codec: Codec, plan: Plan, behaviour: Behaviour, clock: Readings, taken: nat, k: nat)
    requires codec.Good() && ValidPlan(codec, plan, true) && Confined(plan, behaviour) && Monotone(clock)
    requires k < 6 && SucceedUpTo(plan, behaviour, k) && behaviour(k).exitCode !in plan.steps[k].allowedExitCodes
    ensures var started := clock(taken);
            var end := RunSpec(codec, plan, RunId(codec, plan, started), started, behaviour, clock, taken + 1);
            && end.outcome.Finished? && end.outcome.report.status == Failed
            && |end.outcome.report.steps| == k + 1 && end.outcome.report.steps[k].status == StepFailed
            && end.outcome.report.failureStep == plan.steps[k].id
  {
    EveryRunReturnsAReport(codec, plan, behaviour, clock, taken);
    ReportTellsTheRun(codec, plan, clock(taken), behaviour, clock, taken + 1);
    var end := RunSpec(codec, plan, RunId(codec, plan, clock(taken)), clock(taken), behaviour, clock, taken + 1);
    FailureIsTold(codec, plan, behaviour, clock, taken + 1, end.outcome.report, k);
  }

  lemma FailureIsTold(codec: Codec, plan: Plan, behaviour: Behaviour, clock: Readings, taken: nat, report: Report,
                      k: nat)
    requires Tells(codec, plan, behaviour, clock, taken, report)
    requires k < 6 && SucceedUpTo(plan, behaviour, k) && !Succeeds(plan.steps[k], behaviour(k))
    ensures report.status == Failed && |report.steps| == k + 1 && report.steps[k].status == StepFailed
    ensures report.failureStep == plan.steps[k].id
  {
    StopIsUnique(plan, behaviour, |report.steps|, k);
    assert StepTold(codec, plan, behaviour, clock, taken, k, report.steps[k]);
  }

  lemma StopIsUnique(plan: Plan, behaviour: Behaviour, n: nat, k: nat)
    requires StopsAtFirstFailure(plan, behaviour, n) && k < 6
    requires SucceedUpTo(plan, behaviour, k) && !Succeeds(plan.steps[k], behaviour(k))
    ensures n == k + 1
  {
  }

  /** Only two steps may fail their gate, each with one exit code: rag with 1 and unified with 2. */
  lemma GateFailuresAreForeseen(codec: Codec, plan: Plan, behaviour: Behaviour, clock: Readings, taken: nat,
                                report: Report,
                                k: nat)
    requires FixedRegistry(plan.steps) && Tells(codec, plan, behaviour, clock, taken, report) && k < |report.steps|
    ensures report.steps[k].status == GateFailed ==>
              (report.steps[k].id, report.steps[k].exitCode) in {("rag", 1), ("unified", 2)}
    ensures report.steps[k].status == Passed ==> report.steps[k].exitCode == 0
  {
    assert StepTold(codec, plan, behaviour, clock, taken, k, report.steps[k]);
  }
}
