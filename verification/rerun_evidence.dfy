/** The evidence of one sealed re-run: its plan, its report, its directory, and the
    validators that judge them independently of the engine that produced them. */
module RerunEvidence {
  import opened Options
  import opened BoundedLog
  import opened Sequences
  import Text

  /** Nanoseconds since the zero time; 0 is the time for which IsZero holds. */
  type Time = int

  datatype Step = Step(
    id: string, binary: string, binarySha: string, arguments: seq<string>,
    timeoutSeconds: int, allowedExitCodes: seq<int>, outputs: seq<string>)

  datatype Plan = Plan(
    schemaVersion: string, planSha: string, sealId: string, sealSha: string,
    artifactRoot: string, outputRoot: string, workingDirectory: string,
    releaseManifestPath: string, releaseManifestSha: string, releaseId: string, gitSha: string,
    steps: seq<Step>, guardrails: seq<string>)

  datatype Output = Output(path: string, sha: string, bytes: int)

  datatype StepStatus = StepRunning | Passed | GateFailed | StepFailed | OtherStepStatus(text: string)

  datatype StepResult = StepResult(
    id: string, status: StepStatus, exitCode: int, startedAt: Time, finishedAt: Time, durationMillis: int,
    stdoutSha: string, stdoutBytes: int, stdoutTruncated: bool,
    stderrSha: string, stderrBytes: int, stderrTruncated: bool, outputs: seq<Output>)

  datatype RunStatus = Running | Failed | CompletedGateFailed | CompletedPass | OtherStatus(text: string)

  datatype Report = Report(
    schemaVersion: string, reportSha: string, runId: string, planSha: string,
    sealId: string, sealSha: string, releaseId: string, gitSha: string,
    status: RunStatus, checkpoint: int, startedAt: Time, finishedAt: Option<Time>,
    technicalGatePassed: bool, promotionEligible: bool, failureStep: string,
    steps: seq<StepResult>, nextRequiredGate: string, guardrails: seq<string>)

  /** SHA-256, the two JSON encodings (compact for hashing, indented for files),
      the strict decoder, and the run-id time stamp. */
  datatype Codec = Codec(
    sha: Bytes -> string,
    marshalPlan: Plan -> Bytes, indentPlan: Plan -> Bytes, parsePlan: Bytes -> Option<Plan>,
    marshalReport: Report -> Bytes, indentReport: Report -> Bytes, parseReport: Bytes -> Option<Report>,
    stamp: Time -> string)
  {
    ghost predicate Good() {
      && (forall b :: |sha(b)| == 64)
      && (forall p :: parsePlan(indentPlan(p)) == Some(p) && indentPlan(p) != [])
      && (forall r :: parseReport(indentReport(r)) == Some(r) && indentReport(r) != [])
    }
  }

  /** The files a run directory can hold, by what the engine calls them. */
  datatype FileName =
    | PlanFile
    | ResultFile
    | CheckpointFile(index: int)
    | StdoutLog(stepId: string)
    | StderrLog(stepId: string)
    | DeclaredOutput(path: string)

  datatype Entry = RegularFile(content: Bytes) | Irregular

  type Files = map<FileName, Entry>

  const PLAN_SCHEMA := "evaluation-catalog-rerun-plan-v1"
  const REPORT_SCHEMA := "evaluation-catalog-rerun-report-v1"
  const SEAL_ID_LENGTH: nat := 13 + 32
  const MAX_LOG_BYTES: nat := 8 * 1024 * 1024
  const MAX_PLAN_FILE: nat := 2 * 1024 * 1024
  const MAX_REPORT_FILE: nat := 4 * 1024 * 1024

  const FIXED_STEP_IDS: seq<string> := ["intent", "rag", "diagnosis", "tool", "memory", "unified"]

  function FixedExitCodes(i: nat): seq<int> {
    if i == 1 then [0, 1] else if i == 5 then [0, 2] else [0]
  }

  function FixedOutputs(i: nat): seq<string> {
    if i == 0 then ["intent.json", "intent.md"]
    else if i == 1 then ["rag.json", "rag.md"]
    else if i == 2 then ["diagnosis.json"]
    else if i == 3 then ["tool.json"]
    else if i == 4 then ["memory.json"]
    else ["unified.json", "unified.md"]
  }

  function FixedTimeout(i: nat): int {
    if i == 0 then 600 else if i == 1 then 2700 else 120
  }

  /** What buildSteps fixes about the six steps, whatever the release. */
  predicate FixedRegistry(steps: seq<Step>) {
    && |steps| == 6
    && forall i | 0 <= i < 6 ::
         && steps[i].id == FIXED_STEP_IDS[i]
         && steps[i].timeoutSeconds == FixedTimeout(i)
         && steps[i].allowedExitCodes == FixedExitCodes(i)
         && steps[i].outputs == FixedOutputs(i)
  }

  /** Path components; a path that path.Clean leaves alone has no empty, `.` or `..` component. */
  function Components(path: string): (r: seq<string>)
    ensures r != []
  {
    if path == "" then [""]
    else
      var rest := Components(path[1..]);
      if path[0] == '/' then [""] + rest else [[path[0]] + rest[0]] + rest[1..]
  }

  predicate SafeRelativePath(path: string) {
    && path != ""
    && '\\' !in path
    && forall c | c in Components(path) :: c != "" && c != "." && c != ".."
  }

  // ----- plan integrity -----

  predicate PlanShape(plan: Plan) {
    && plan.schemaVersion == PLAN_SCHEMA
    && |plan.planSha| == 64 && |plan.sealId| == SEAL_ID_LENGTH && |plan.sealSha| == 64
    && !Text.Blank(plan.artifactRoot) && !Text.Blank(plan.outputRoot) && !Text.Blank(plan.workingDirectory)
    && !Text.Blank(plan.releaseManifestPath) && |plan.releaseManifestSha| == 64
    && !Text.Blank(plan.releaseId) && |plan.gitSha| == 40
    && |plan.steps| == 6 && plan.guardrails != []
    && Distinct(seq(|plan.steps|, i requires 0 <= i < |plan.steps| => plan.steps[i].id))
    && forall step | step in plan.steps ::
         && step.id != "" && !Text.Blank(step.binary) && |step.binarySha| == 64 && step.arguments != []
         && step.timeoutSeconds > 0 && step.allowedExitCodes != [] && step.outputs != []
         && forall output | output in step.outputs :: SafeRelativePath(output)
  }

  function FinalizePlan(codec: Codec, plan: Plan): Plan {
    plan.(planSha := codec.sha(codec.marshalPlan(plan.(planSha := ""))))
  }

  predicate PlanIntegrity(codec: Codec, plan: Plan) {
    PlanShape(plan) && FinalizePlan(codec, plan) == plan
  }

  // ----- the report and its validator -----

  function Finalize(codec: Codec, report: Report): Report {
    report.(reportSha := codec.sha(codec.marshalReport(report.(reportSha := ""))))
  }

  predicate HeaderValid(report: Report) {
    && report.schemaVersion == REPORT_SCHEMA && |report.reportSha| == 64 && !Text.Blank(report.runId)
    && |report.planSha| == 64 && |report.sealId| == SEAL_ID_LENGTH && |report.sealSha| == 64
    && !Text.Blank(report.releaseId) && |report.gitSha| == 40
    && report.startedAt != 0 && report.finishedAt.Some? && report.finishedAt.value >= report.startedAt
    && report.checkpoint == |report.steps| + 1 && !report.promotionEligible
    && !Text.Blank(report.nextRequiredGate) && report.guardrails != []
  }

  predicate StatusShape(report: Report) {
    match report.status
    case Failed => report.failureStep != "" && !report.technicalGatePassed && report.steps != []
    case CompletedGateFailed => report.failureStep == "" && !report.technicalGatePassed && |report.steps| == 6
    case CompletedPass => report.failureStep == "" && report.technicalGatePassed && |report.steps| == 6
    case _ => false
  }

  predicate OutputValid(output: Output) {
    SafeRelativePath(output.path) && |output.sha| == 64 && output.bytes > 0
  }

  predicate StepFieldsValid(step: StepResult, index: nat) {
    && index < 6 && step.id == FIXED_STEP_IDS[index]
    && step.startedAt != 0 && step.finishedAt >= step.startedAt
    && step.durationMillis >= 0 && step.stdoutBytes >= 0 && step.stderrBytes >= 0
    && |step.stdoutSha| == 64 && |step.stderrSha| == 64
    && match step.status {
         case Passed => step.exitCode == 0 && step.outputs != []
         case GateFailed => step.exitCode != 0 && step.outputs != []
         case StepFailed => true
         case _ => false
       }
  }

  predicate StepValid(step: StepResult, index: nat) {
    StepFieldsValid(step, index) && forall output | output in step.outputs :: OutputValid(output)
  }

  predicate StepsValid(steps: seq<StepResult>) {
    && |steps| <= 6
    && (forall i | 0 <= i < |steps| :: StepValid(steps[i], i))
    && Distinct(AllPaths(steps))
  }

  function PathsOf(outputs: seq<Output>): seq<string> {
    seq(|outputs|, i requires 0 <= i < |outputs| => outputs[i].path)
  }

  /** All output paths of a list of step results, in order. */
  function AllPaths(steps: seq<StepResult>): seq<string> {
    if steps == [] then [] else AllPaths(steps[..|steps| - 1]) + PathsOf(steps[|steps| - 1].outputs)
  }

  predicate HasStatus(steps: seq<StepResult>, status: StepStatus) {
    exists i | 0 <= i < |steps| :: steps[i].status == status
  }

  predicate StatusAgreesWithSteps(report: Report) {
    && (report.status.Failed? ==>
          && HasStatus(report.steps, StepFailed)
          && report.steps != []
          && report.steps[|report.steps| - 1].id == report.failureStep
          && report.steps[|report.steps| - 1].status == StepFailed)
    && (report.status.CompletedGateFailed? ==>
          HasStatus(report.steps, GateFailed) && !HasStatus(report.steps, StepFailed))
    && (report.status.CompletedPass? ==>
          !HasStatus(report.steps, GateFailed) && !HasStatus(report.steps, StepFailed))
  }

  predicate ValidReport(codec: Codec, report: Report) {
    && HeaderValid(report)
    && StatusShape(report)
    && StepsValid(report.steps)
    && StatusAgreesWithSteps(report)
    && Finalize(codec, report) == report
  }

  /** The output loop of ValidateReport: every output is well formed and its path new. */
  method CheckOutputs(outputs: seq<Output>, seen: set<string>) returns (ok: bool, seen': set<string>)
    ensures ok <==>
            && (forall output | output in outputs :: OutputValid(output))
            && Distinct(PathsOf(outputs))
            && (forall path | path in PathsOf(outputs) :: path !in seen)
    ensures ok ==> seen' == seen + (set path | path in PathsOf(outputs))
  {
    seen' := seen;
    for i := 0 to |outputs|
      invariant forall output | output in outputs[..i] :: OutputValid(output)
      invariant Distinct(PathsOf(outputs[..i]))
      invariant forall path | path in PathsOf(outputs[..i]) :: path !in seen
      invariant seen' == seen + (set path | path in PathsOf(outputs[..i]))
    {
      var output := outputs[i];
      assert outputs[..i + 1] == outputs[..i] + [output];
      assert PathsOf(outputs[..i + 1]) == PathsOf(outputs[..i]) + [output.path];
      DistinctSnoc(PathsOf(outputs[..i]), output.path);
      assert PathsOf(outputs)[i] == output.path;
      if !OutputValid(output) {
        return false, seen';
      }
      if output.path in seen' {
        if output.path !in seen {
          var j :| 0 <= j < i && PathsOf(outputs[..i])[j] == output.path;
          assert PathsOf(outputs)[j] == PathsOf(outputs)[i];
        }
        return false, seen';
      }
      seen' := seen' + {output.path};
    }
    assert outputs[..|outputs|] == outputs;
    return true, seen';
  }

  lemma HasStatusSnoc(steps: seq<StepResult>, i: nat)
    requires i < |steps|
    ensures forall status :: HasStatus(steps[..i + 1], status) <==>
              HasStatus(steps[..i], status) || steps[i].status == status
  {
    forall status | HasStatus(steps[..i], status) || steps[i].status == status
      ensures HasStatus(steps[..i + 1], status)
    {
      assert steps[..i + 1][i] == steps[i];
      if HasStatus(steps[..i], status) {
        var j :| 0 <= j < i && steps[..i][j].status == status;
        assert steps[..i + 1][j] == steps[..i][j];
      }
    }
  }

  /** The step loop of ValidateReport, with its two running flags. */
  method CheckSteps(steps: seq<StepResult>) returns (ok: bool, gateFailure: bool, executionFailure: bool)
    requires |steps| <= 6
    ensures ok <==> StepsValid(steps)
    ensures ok ==> (gateFailure <==> HasStatus(steps, GateFailed))
    ensures ok ==> (executionFailure <==> HasStatus(steps, StepFailed))
  {
    var seen: set<string> := {};
    gateFailure, executionFailure := false, false;
    for i := 0 to |steps|
      invariant forall j | 0 <= j < i :: StepValid(steps[j], j)
      invariant Distinct(AllPaths(steps[..i]))
      invariant seen == (set path | path in AllPaths(steps[..i]))
      invariant gateFailure <==> HasStatus(steps[..i], GateFailed)
      invariant executionFailure <==> HasStatus(steps[..i], StepFailed)
    {
      HasStatusSnoc(steps, i);
      if !StepFieldsValid(steps[i], i) {
        return false, gateFailure, executionFailure;
      }
      gateFailure := gateFailure || steps[i].status == GateFailed;
      executionFailure := executionFailure || steps[i].status == StepFailed;
      var isNew, seen' := CheckOutputs(steps[i].outputs, seen);
      AllPathsSnoc(steps, i);
      if !isNew {
        AllPathsPrefixDistinct(steps, i + 1);
        return false, gateFailure, executionFailure;
      }
      seen := seen';
    }
    assert steps[..|steps|] == steps;
    return true, gateFailure, executionFailure;
  }

  method ValidateReport(codec: Codec, report: Report) returns (ok: bool)
    ensures ok <==> ValidReport(codec, report)
  {
    if !HeaderValid(report) || !StatusShape(report) || |report.steps| > 6 {
      return false;
    }
    var stepsOk, gateFailure, executionFailure := CheckSteps(report.steps);
    if !stepsOk {
      return false;
    }
    var last := |report.steps| - 1;
    if report.status.Failed?
       && (!executionFailure || report.steps[last].id != report.failureStep
           || report.steps[last].status != StepFailed)
    {
      return false;
    }
    if report.status.CompletedGateFailed? && (!gateFailure || executionFailure) {
      return false;
    }
    if report.status.CompletedPass? && (gateFailure || executionFailure) {
      return false;
    }
    return Finalize(codec, report).reportSha == report.reportSha;
  }

  lemma AllPathsSnoc(steps: seq<StepResult>, i: nat)
    requires i < |steps|
    ensures AllPaths(steps[..i + 1]) == AllPaths(steps[..i]) + PathsOf(steps[i].outputs)
    ensures Distinct(AllPaths(steps[..i + 1])) <==>
            && Distinct(AllPaths(steps[..i])) && Distinct(PathsOf(steps[i].outputs))
            && forall path | path in PathsOf(steps[i].outputs) :: path !in AllPaths(steps[..i])
  {
    assert steps[..i + 1][..i] == steps[..i];
    DistinctConcat(AllPaths(steps[..i]), PathsOf(steps[i].outputs));
  }

  lemma {:induction false} AllPathsPrefixDistinct(steps: seq<StepResult>, i: nat)
    requires i <= |steps|
    ensures Distinct(AllPaths(steps)) ==> Distinct(AllPaths(steps[..i]))
    decreases |steps| - i
  {
    if i < |steps| {
      AllPathsPrefixDistinct(steps, i + 1);
      AllPathsSnoc(steps, i);
    } else {
      assert steps[..i] == steps;
    }
  }

  // ----- the directory and its validator -----

  function ReadReport(codec: Codec, files: Files, name: FileName): Option<Report> {
    if name in files && files[name].RegularFile? && 0 < |files[name].content| <= MAX_REPORT_FILE
    then codec.parseReport(files[name].content)
    else None
  }

  function ReadPlan(codec: Codec, files: Files): Option<Plan> {
    if PlanFile in files && files[PlanFile].RegularFile? && 0 < |files[PlanFile].content| <= MAX_PLAN_FILE
    then codec.parsePlan(files[PlanFile].content)
    else None
  }

  /** hashFile: the digest and size of a regular file. */
  function HashFile(codec: Codec, files: Files, name: FileName): Option<(string, int)> {
    if name in files && files[name].RegularFile?
    then Some((codec.sha(files[name].content), |files[name].content|))
    else None
  }

  predicate FileMatches(codec: Codec, files: Files, name: FileName, sha: string, size: int) {
    HashFile(codec, files, name) == Some((sha, size))
  }

  predicate ResultMatchesStep(result: StepResult, step: Step) {
    result.id == step.id && forall output | output in result.outputs :: output.path in step.outputs
  }

  predicate ReportMatchesPlan(report: Report, plan: Plan) {
    && report.planSha == plan.planSha && report.sealId == plan.sealId && report.sealSha == plan.sealSha
    && report.releaseId == plan.releaseId && report.gitSha == plan.gitSha
    && |report.steps| <= |plan.steps|
    && forall i | 0 <= i < |report.steps| :: ResultMatchesStep(report.steps[i], plan.steps[i])
  }

  /** The checkpoints a legal run leaves: one per finished step and one for the report itself.
      A failed step has none of its own, so a failed trail has a gap before its last file. */
  function ExpectedCheckpointIndexes(report: Report): seq<int> {
    var lastRunning := if report.status.Failed? then |report.steps| - 1 else |report.steps|;
    seq(lastRunning + 1, i => i) + [report.checkpoint]
  }

  predicate ValidCheckpoint(codec: Codec, checkpoint: Report, final: Report, index: int) {
    && Finalize(codec, checkpoint) == checkpoint
    && if index == final.checkpoint then checkpoint == final
       else
         && checkpoint.schemaVersion == final.schemaVersion && checkpoint.runId == final.runId
         && checkpoint.planSha == final.planSha && checkpoint.sealId == final.sealId
         && checkpoint.sealSha == final.sealSha && checkpoint.releaseId == final.releaseId
         && checkpoint.gitSha == final.gitSha && checkpoint.startedAt == final.startedAt
         && checkpoint.checkpoint == index && checkpoint.status == Running && checkpoint.finishedAt == None
         && !checkpoint.technicalGatePassed && !checkpoint.promotionEligible && checkpoint.failureStep == ""
         && checkpoint.nextRequiredGate != "" && checkpoint.guardrails == final.guardrails
         && |checkpoint.steps| == index
         && index <= |final.steps| && checkpoint.steps == final.steps[..index]
  }

  predicate EvidenceMatches(codec: Codec, files: Files, step: StepResult) {
    && FileMatches(codec, files, StdoutLog(step.id), step.stdoutSha, step.stdoutBytes)
    && FileMatches(codec, files, StderrLog(step.id), step.stderrSha, step.stderrBytes)
    && forall output | output in step.outputs ::
         FileMatches(codec, files, DeclaredOutput(output.path), output.sha, output.bytes)
  }

  predicate CheckpointMatches(codec: Codec, files: Files, report: Report, index: int) {
    var checkpoint := ReadReport(codec, files, CheckpointFile(index));
    checkpoint.Some? && ValidCheckpoint(codec, checkpoint.value, report, index)
  }

  function StepNames(result: StepResult, step: Step): set<FileName> {
    {StdoutLog(result.id), StderrLog(result.id)}
    + (set output | output in result.outputs :: DeclaredOutput(output.path))
    + (set path | path in step.outputs :: DeclaredOutput(path))
  }

  function StepsNames(results: seq<StepResult>, steps: seq<Step>): set<FileName>
    requires |results| <= |steps|
  {
    set i, name | 0 <= i < |results| && name in StepNames(results[i], steps[i]) :: name
  }

  /** The only names a legal run directory may hold. */
  function ExpectedNames(report: Report, plan: Plan): set<FileName>
    requires |report.steps| <= |plan.steps|
  {
    {PlanFile, ResultFile}
    + StepsNames(report.steps, plan.steps)
    + (set index | index in ExpectedCheckpointIndexes(report) :: CheckpointFile(index))
  }

  /** A name that is an entry of the run directory itself; below a path with a '/' the entry is a directory. */
  predicate TopLevel(name: FileName) {
    name.DeclaredOutput? ==> '/' !in name.path
  }

  /** Everything ValidateRunDirectory demands of a directory once its report and plan are read. */
  predicate DirectoryAgrees(codec: Codec, files: Files, report: Report, plan: Plan) {
    && PlanIntegrity(codec, plan)
    && ReportMatchesPlan(report, plan)
    && (forall step | step in report.steps :: EvidenceMatches(codec, files, step))
    && (forall index | index in ExpectedCheckpointIndexes(report) :: CheckpointMatches(codec, files, report, index))
    && (forall name | name in files ::
          files[name].RegularFile? && TopLevel(name) && name in ExpectedNames(report, plan))
  }

  /** The report a directory proves, if it proves one. */
  function AcceptedReport(codec: Codec, directoryName: string, files: Files): Option<Report> {
    match ReadReport(codec, files, ResultFile)
    case None => None
    case Some(report) =>
      if !ValidReport(codec, report) || directoryName != report.runId then None
      else
        match ReadPlan(codec, files)
        case None => None
        case Some(plan) => if DirectoryAgrees(codec, files, report, plan) then Some(report) else None
  }

  /** The re-hashing loop of ValidateRunDirectory, collecting the names it has accounted for. */
  method CheckEvidence(codec: Codec, files: Files, report: Report, plan: Plan) returns (ok: bool, names: set<FileName>)
    requires |report.steps| <= |plan.steps|
    ensures ok <==> forall step | step in report.steps :: EvidenceMatches(codec, files, step)
    ensures ok ==> names == StepsNames(report.steps, plan.steps)
  {
    names := {};
    for i := 0 to |report.steps|
      invariant forall j | 0 <= j < i :: EvidenceMatches(codec, files, report.steps[j])
      invariant names == set j, name | 0 <= j < i && name in StepNames(report.steps[j], plan.steps[j]) :: name
    {
      var step := report.steps[i];
      if !EvidenceMatches(codec, files, step) {
        return false, names;
      }
      names := names + StepNames(step, plan.steps[i]);
    }
    return true, names;
  }

  method CheckCheckpoints(codec: Codec, files: Files, report: Report) returns (ok: bool, names: set<FileName>)
    ensures ok <==> forall index | index in ExpectedCheckpointIndexes(report) ::
              CheckpointMatches(codec, files, report, index)
    ensures ok ==> names == set index | index in ExpectedCheckpointIndexes(report) :: CheckpointFile(index)
  {
    var indexes := ExpectedCheckpointIndexes(report);
    names := {};
    for i := 0 to |indexes|
      invariant forall j | 0 <= j < i :: CheckpointMatches(codec, files, report, indexes[j])
      invariant names == set index | index in indexes[..i] :: CheckpointFile(index)
    {
      if !CheckpointMatches(codec, files, report, indexes[i]) {
        return false, names;
      }
      names := names + {CheckpointFile(indexes[i])};
    }
    return true, names;
  }

  /** The entry loop of ValidateRunDirectory: no link, no directory and nothing unaccounted for. */
  method CheckEntries(files: Files, expected: set<FileName>) returns (ok: bool)
    ensures ok <==> forall name | name in files :: files[name].RegularFile? && TopLevel(name) && name in expected
  {
    var pending := files.Keys;
    while pending != {}
      invariant pending <= files.Keys
      invariant forall name | name in files && name !in pending ::
                  files[name].RegularFile? && TopLevel(name) && name in expected
      decreases |pending|
    {
      var name :| name in pending;
      if !files[name].RegularFile? || !TopLevel(name) || name !in expected {
        return false;
      }
      pending := pending - {name};
    }
    return true;
  }

  method ValidateRunDirectory(codec: Codec, directoryName: string, files: Files) returns (accepted: Option<Report>)
    ensures accepted == AcceptedReport(codec, directoryName, files)
  {
    var stored := ReadReport(codec, files, ResultFile);
    if stored.None? {
      return None;
    }
    var report := stored.value;
    var reportOk := ValidateReport(codec, report);
    if !reportOk || directoryName != report.runId {
      return None;
    }
    var storedPlan := ReadPlan(codec, files);
    if storedPlan.None? {
      return None;
    }
    var plan := storedPlan.value;
    if !PlanIntegrity(codec, plan) || !ReportMatchesPlan(report, plan) {
      return None;
    }
    var evidenceOk, stepNames := CheckEvidence(codec, files, report, plan);
    if !evidenceOk {
      return None;
    }
    var checkpointsOk, checkpointNames := CheckCheckpoints(codec, files, report);
    if !checkpointsOk {
      return None;
    }
    var entriesOk := CheckEntries(files, {PlanFile, ResultFile} + stepNames + checkpointNames);
    return if entriesOk then Some(report) else None;
  }
}
