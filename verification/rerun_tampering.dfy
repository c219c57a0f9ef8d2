/** What an accepted run directory proves, and what no longer passes once a byte of it is changed. */
module RerunTampering {
  import opened Options
  import opened BoundedLog
  import opened Sequences
  import opened RerunEvidence
  import Text

  // ----- what acceptance means -----

  /** A regular file of the recorded length and digest. */
  predicate HoldsBytes(codec: Codec, files: Files, name: FileName, sha: string, size: int) {
    && name in files && files[name].RegularFile?
    && |files[name].content| == size && codec.sha(files[name].content) == sha
  }

  /** What the report says of a log or an output. */
  datatype Record = Record(name: FileName, sha: string, size: int)

  function RecordsOf(step: StepResult): set<Record> {
    {Record(StdoutLog(step.id), step.stdoutSha, step.stdoutBytes),
     Record(StderrLog(step.id), step.stderrSha, step.stderrBytes)}
    + set o | o in step.outputs :: Record(DeclaredOutput(o.path), o.sha, o.bytes)
  }

  /** A file small enough to be read, which decodes to the report. */
  predicate HoldsDocument(codec: Codec, files: Files, name: FileName, report: Report) {
    && name in files && files[name].RegularFile? && 0 < |files[name].content| <= MAX_REPORT_FILE
    && codec.parseReport(files[name].content) == Some(report)
  }

  /** The report as it stood after k steps: the same run, still running, with the same first k results. */
  predicate Earlier(codec: Codec, report: Report, k: nat, earlier: Report)
    requires k <= |report.steps|
  {
    && earlier.runId == report.runId && earlier.planSha == report.planSha && earlier.sealId == report.sealId
    && earlier.sealSha == report.sealSha && earlier.releaseId == report.releaseId && earlier.gitSha == report.gitSha
    && earlier.startedAt == report.startedAt && earlier.guardrails == report.guardrails
    && earlier.status == Running && earlier.checkpoint == k && earlier.steps == report.steps[..k]
    && earlier.finishedAt == None && earlier.failureStep == ""
    && !earlier.technicalGatePassed && !earlier.promotionEligible
    && earlier.reportSha == codec.sha(codec.marshalReport(earlier.(reportSha := "")))
  }

  /** The last step after which a checkpoint was written while the run went on. */
  function Finished(report: Report): int {
    if report.status == Failed then |report.steps| - 1 else |report.steps|
  }

  /** A plan of six different steps, each with a program, outputs that stay inside the directory and codes it may exit
      with, unaltered since it was hashed. */
  predicate SoundPlan(codec: Codec, plan: Plan) {
    && plan.schemaVersion == "evaluation-catalog-rerun-plan-v1" && plan.guardrails != []
    && |plan.planSha| == |plan.sealSha| == |plan.releaseManifestSha| == 64 && |plan.sealId| == 45 && |plan.gitSha| == 40
    && Text.Trim(plan.artifactRoot) != "" && Text.Trim(plan.outputRoot) != "" && Text.Trim(plan.workingDirectory) != ""
    && Text.Trim(plan.releaseManifestPath) != "" && Text.Trim(plan.releaseId) != ""
    && |plan.steps| == 6 && (forall i, j | 0 <= i < j < 6 :: plan.steps[i].id != plan.steps[j].id)
    && (forall step | step in plan.steps :: StepSound(step))
    && plan.planSha == codec.sha(codec.marshalPlan(plan.(planSha := "")))
  }

  predicate StepSound(step: Step) {
    && step.id != "" && Text.Trim(step.binary) != "" && |step.binarySha| == 64 && step.arguments != []
    && step.timeoutSeconds > 0 && step.allowedExitCodes != [] && step.outputs != []
    && forall path | path in step.outputs :: path != "" && '\\' !in path && ".." !in Components(path)
  }

  lemma IntegrityIsSound(codec: Codec, plan: Plan)
    requires PlanIntegrity(codec, plan)
    ensures SoundPlan(codec, plan)
  {
    assert FinalizePlan(codec, plan).planSha == plan.planSha;
    var ids := seq(|plan.steps|, i requires 0 <= i < |plan.steps| => plan.steps[i].id);
    forall i, j | 0 <= i < j < 6 ensures plan.steps[i].id != plan.steps[j].id {
      assert ids[i] == plan.steps[i].id && ids[j] == plan.steps[j].id;
    }
  }

  /** The plan file decodes to a plan of six steps, unaltered since it was hashed, which the report is about: each
      reported step is the planned one and its outputs are among those planned. */
  predicate PlanProved(codec: Codec, files: Files, report: Report, plan: Plan) {
    && PlanFile in files && files[PlanFile].RegularFile? && 0 < |files[PlanFile].content| <= MAX_PLAN_FILE
    && codec.parsePlan(files[PlanFile].content) == Some(plan)
    && SoundPlan(codec, plan)
    && report.planSha == plan.planSha && report.sealId == plan.sealId && report.sealSha == plan.sealSha
    && report.releaseId == plan.releaseId && report.gitSha == plan.gitSha
    && |report.steps| <= |plan.steps| == 6
    && (forall i | 0 <= i < |report.steps| ::
          && report.steps[i].id == plan.steps[i].id
          && forall o | o in report.steps[i].outputs :: o.path in plan.steps[i].outputs)
  }

  /** A file with a place in the directory of this report. */
  predicate HasPlace(report: Report, plan: Plan, name: FileName)
    requires |report.steps| <= |plan.steps|
  {
    match name
    case PlanFile => true
    case ResultFile => true
    case CheckpointFile(k) => 0 <= k <= Finished(report) || k == report.checkpoint
    case StdoutLog(id) => exists i | 0 <= i < |report.steps| :: report.steps[i].id == id
    case StderrLog(id) => exists i | 0 <= i < |report.steps| :: report.steps[i].id == id
    case DeclaredOutput(path) =>
      '/' !in path && exists i | 0 <= i < |report.steps| ::
        path in plan.steps[i].outputs || exists o | o in report.steps[i].outputs :: o.path == path
  }

  /** What a report says of itself: how its steps ended and what its verdict is. */
  predicate Coherent(codec: Codec, report: Report) {
    && report.schemaVersion == "evaluation-catalog-rerun-report-v1" && report.guardrails != []
    && |report.planSha| == |report.sealSha| == |report.reportSha| == 64 && |report.sealId| == 45
    && |report.gitSha| == 40 && Text.Trim(report.runId) != "" && Text.Trim(report.releaseId) != ""
    && Text.Trim(report.nextRequiredGate) != ""
    && |report.steps| <= 6 && report.checkpoint == |report.steps| + 1 && !report.promotionEligible
    && report.startedAt != 0 && report.finishedAt.Some? && report.startedAt <= report.finishedAt.value
    && (forall i | 0 <= i < |report.steps| :: StepCoherent(report.steps[i], i))
    && (forall i, j, o, p |
          && 0 <= i < |report.steps| && 0 <= j < |report.steps| && i != j
          && o in report.steps[i].outputs && p in report.steps[j].outputs :: o.path != p.path)
    && (report.technicalGatePassed <==> report.status == CompletedPass)
    && (report.failureStep != "" <==> report.status == Failed)
    && report.reportSha == codec.sha(codec.marshalReport(report.(reportSha := "")))
    && match report.status
       case Failed =>
         && report.steps != [] && report.steps[|report.steps| - 1].status == StepFailed
         && report.steps[|report.steps| - 1].id == report.failureStep
       case CompletedGateFailed =>
         && |report.steps| == 6 && (forall step | step in report.steps :: step.status != StepFailed)
         && exists i | 0 <= i < 6 :: report.steps[i].status == GateFailed
       case CompletedPass => |report.steps| == 6 && forall step | step in report.steps :: step.status == Passed
       case _ => false
  }

  predicate StepCoherent(step: StepResult, i: nat) {
    && i < 6 && step.id == ["intent", "rag", "diagnosis", "tool", "memory", "unified"][i]
    && step.startedAt != 0 && step.startedAt <= step.finishedAt
    && (step.status == Passed ==> step.exitCode == 0 && step.outputs != [])
    && (step.status == GateFailed ==> step.exitCode != 0 && step.outputs != [])
    && step.status in {Passed, GateFailed, StepFailed}
    && (forall o | o in step.outputs :: o.bytes > 0 && |o.sha| == 64 && o.path != "" && '\\' !in o.path
                                      && ".." !in Components(o.path))
    && |step.stdoutSha| == |step.stderrSha| == 64
    && step.stdoutBytes >= 0 && step.stderrBytes >= 0 && step.durationMillis >= 0
  }

  /** Checkpoint k holds the report as it stood after k steps. */
  ghost predicate EarlierHeld(codec: Codec, files: Files, report: Report, k: nat)
    requires k <= |report.steps|
  {
    exists earlier :: HoldsDocument(codec, files, CheckpointFile(k), earlier) && Earlier(codec, report, k, earlier)
  }

  ghost predicate CheckpointsHeld(codec: Codec, files: Files, report: Report)
    requires Finished(report) <= |report.steps|
  {
    && HoldsDocument(codec, files, CheckpointFile(report.checkpoint), report)
    && forall k: nat | k <= Finished(report) :: EarlierHeld(codec, files, report, k)
  }

  predicate RecordsHeld(codec: Codec, files: Files, report: Report) {
    forall step, record | step in report.steps && record in RecordsOf(step) ::
      HoldsBytes(codec, files, record.name, record.sha, record.size)
  }

  /** Every file is a regular one and has its place under the plan. */
  predicate Placed(codec: Codec, files: Files, report: Report, plan: Plan) {
    && PlanProved(codec, files, report, plan)
    && forall name | name in files :: files[name].RegularFile? && HasPlace(report, plan, name)
  }

  /** Everything a directory of this name proves of the report in it. */
  ghost predicate Proves(codec: Codec, name: string, files: Files, report: Report) {
    && name == report.runId && Coherent(codec, report)
    && HoldsDocument(codec, files, ResultFile, report)
    && CheckpointsHeld(codec, files, report)
    && RecordsHeld(codec, files, report)
    && exists plan :: Placed(codec, files, report, plan)
  }

  // ----- acceptance proves all of it -----

  lemma ValidIsCoherent(codec: Codec, report: Report)
    requires ValidReport(codec, report)
    ensures Coherent(codec, report)
  {
    var steps := report.steps;
    forall i | 0 <= i < |steps| ensures StepCoherent(steps[i], i) {
      assert StepValid(steps[i], i);
    }
    OutputsOfStepsDiffer(steps);
    forall step | step in steps ensures step.status in {Passed, GateFailed, StepFailed} {
      var i :| 0 <= i < |steps| && steps[i] == step;
      assert StepCoherent(steps[i], i);
    }
    forall step | step in steps ensures HasStatus(steps, step.status) {
      var i :| 0 <= i < |steps| && steps[i] == step;
      assert steps[i].status == step.status;
    }
  }

  lemma {:induction false} OutputsOfStepsDiffer(steps: seq<StepResult>)
    requires Distinct(AllPaths(steps))
    ensures forall i, j, o, p |
              && 0 <= i < |steps| && 0 <= j < |steps| && i != j
              && o in steps[i].outputs && p in steps[j].outputs :: o.path != p.path
  {
    if steps != [] {
      var n := |steps| - 1;
      AllPathsSnoc(steps, n);
      assert steps[..n + 1] == steps;
      OutputsOfStepsDiffer(steps[..n]);
      forall i, o | 0 <= i < n && o in steps[i].outputs ensures o.path in AllPaths(steps[..n]) {
        PathIsListed(steps[..n], i, o);
      }
      forall p | p in steps[n].outputs ensures p.path in PathsOf(steps[n].outputs) {
        PathIsThere(steps[n].outputs, p);
      }
      forall i, j, o, p |
        && 0 <= i < |steps| && 0 <= j < |steps| && i != j
        && o in steps[i].outputs && p in steps[j].outputs
        ensures o.path != p.path
      {
        if i < n && j < n {
          assert steps[..n][i] == steps[i] && steps[..n][j] == steps[j];
        }
      }
    }
  }

  lemma PathIsThere(outputs: seq<Output>, o: Output)
    requires o in outputs
    ensures o.path in PathsOf(outputs)
  {
    var k :| 0 <= k < |outputs| && outputs[k] == o;
    assert PathsOf(outputs)[k] == o.path;
  }

  lemma {:induction false} PathIsListed(steps: seq<StepResult>, i: nat, o: Output)
    requires i < |steps| && o in steps[i].outputs
    ensures o.path in AllPaths(steps)
  {
    var n := |steps| - 1;
    if i < n {
      PathIsListed(steps[..n], i, o);
    } else {
      PathIsThere(steps[n].outputs, o);
    }
  }

  lemma MatchedIsHeld(codec: Codec, files: Files, step: StepResult, record: Record)
    requires EvidenceMatches(codec, files, step) && record in RecordsOf(step)
    ensures HoldsBytes(codec, files, record.name, record.sha, record.size)
  {
  }

  lemma CheckpointIsEarlier(codec: Codec, files: Files, report: Report, k: int) returns (held: Report)
    requires CheckpointMatches(codec, files, report, k) && |report.steps| < report.checkpoint
    ensures HoldsDocument(codec, files, CheckpointFile(k), held)
    ensures if k == report.checkpoint then held == report
            else 0 <= k <= |report.steps| && Earlier(codec, report, k, held)
  {
    held := codec.parseReport(files[CheckpointFile(k)].content).value;
  }

  lemma ExpectedHasPlace(report: Report, plan: Plan, name: FileName)
    requires |report.steps| <= |plan.steps| && name in ExpectedNames(report, plan) && TopLevel(name)
    requires report.status == Failed ==> report.steps != []
    ensures HasPlace(report, plan, name)
  {
    if name in StepsNames(report.steps, plan.steps) {
      var i :| 0 <= i < |report.steps| && name in StepNames(report.steps[i], plan.steps[i]);
    }
  }

  lemma AgreedNamesHavePlaces(codec: Codec, files: Files, report: Report, plan: Plan)
    requires DirectoryAgrees(codec, files, report, plan) && (report.status == Failed ==> report.steps != [])
    ensures forall name | name in files :: files[name].RegularFile? && HasPlace(report, plan, name)
  {
    forall name | name in files ensures files[name].RegularFile? && HasPlace(report, plan, name) {
      ExpectedHasPlace(report, plan, name);
    }
  }

  lemma AgreedPlanIsProved(codec: Codec, files: Files, report: Report, plan: Plan)
    requires ReadPlan(codec, files) == Some(plan) && PlanIntegrity(codec, plan) && ReportMatchesPlan(report, plan)
    ensures PlanProved(codec, files, report, plan)
  {
    IntegrityIsSound(codec, plan);
  }

  lemma AgreedCheckpoints(codec: Codec, files: Files, report: Report)
    requires forall k | k in ExpectedCheckpointIndexes(report) :: CheckpointMatches(codec, files, report, k)
    requires report.checkpoint == |report.steps| + 1 && (report.status == Failed ==> report.steps != [])
    ensures CheckpointsHeld(codec, files, report)
  {
    var indexes := ExpectedCheckpointIndexes(report);
    assert indexes[|indexes| - 1] == report.checkpoint;
    var _ := CheckpointIsEarlier(codec, files, report, report.checkpoint);
    forall k: nat | k <= Finished(report) ensures EarlierHeld(codec, files, report, k) {
      assert indexes[k] == k;
      assert k in indexes && k != report.checkpoint;
      var earlier := CheckpointIsEarlier(codec, files, report, k);
    }
  }

  lemma AgreedRecords(codec: Codec, files: Files, report: Report)
    requires forall step | step in report.steps :: EvidenceMatches(codec, files, step)
    ensures RecordsHeld(codec, files, report)
  {
    forall step, record | step in report.steps && record in RecordsOf(step)
      ensures HoldsBytes(codec, files, record.name, record.sha, record.size)
    {
      MatchedIsHeld(codec, files, step, record);
    }
  }

  lemma AgreedIsPlaced(codec: Codec, files: Files, report: Report, plan: Plan)
    requires DirectoryAgrees(codec, files, report, plan) && (report.status == Failed ==> report.steps != [])
    requires ReadPlan(codec, files) == Some(plan)
    ensures Placed(codec, files, report, plan)
  {
    AgreedPlanIsProved(codec, files, report, plan);
    AgreedNamesHavePlaces(codec, files, report, plan);
  }

  lemma AcceptedReads(codec: Codec, name: string, files: Files) returns (report: Report, plan: Plan)
    requires AcceptedReport(codec, name, files).Some?
    ensures AcceptedReport(codec, name, files) == Some(report)
    ensures ReadReport(codec, files, ResultFile) == Some(report) && ReadPlan(codec, files) == Some(plan)
    ensures name == report.runId && ValidReport(codec, report) && DirectoryAgrees(codec, files, report, plan)
  {
    report, plan := AcceptedReport(codec, name, files).value, ReadPlan(codec, files).value;
  }

  lemma AgreedProves(codec: Codec, name: string, files: Files, report: Report, plan: Plan)
    requires ReadReport(codec, files, ResultFile) == Some(report) && ReadPlan(codec, files) == Some(plan)
    requires name == report.runId && Coherent(codec, report) && DirectoryAgrees(codec, files, report, plan)
    ensures Proves(codec, name, files, report)
  {
    AgreedIsPlaced(codec, files, report, plan);
    AgreedCheckpoints(codec, files, report);
    AgreedRecords(codec, files, report);
  }

  /** Soundness of the validator: whatever a directory holds, if it is accepted then its name, its report, its plan,
      every checkpoint, every log, every recorded output and the list of its files are as the report says. */
  lemma AcceptanceProves(codec: Codec, name: string, files: Files)
    ensures var accepted := AcceptedReport(codec, name, files);
            accepted.Some? ==> Proves(codec, name, files, accepted.value)
  {
    if AcceptedReport(codec, name, files).Some? {
      var report, plan := AcceptedReads(codec, name, files);
      ValidIsCoherent(codec, report);
      AgreedProves(codec, name, files, report, plan);
    }
  }

  // ----- tampering -----

  /** Two directories with one result file prove one report. */
  lemma OneResultOneReport(codec: Codec, name: string, files: Files, report: Report, files': Files, report': Report)
    requires Proves(codec, name, files, report) && Proves(codec, name, files', report')
    requires files[ResultFile] == files'[ResultFile]
    ensures report' == report
  {
  }

  lemma RecordIsHeld(codec: Codec, name: string, files: Files, report: Report, step: StepResult, record: Record)
    requires Proves(codec, name, files, report) && step in report.steps && record in RecordsOf(step)
    ensures HoldsBytes(codec, files, record.name, record.sha, record.size)
  {
  }

  lemma ReplacedIsTheSame(codec: Codec, files: Files, report: Report, step: StepResult, record: Record, content: Bytes,
                          replaced: Files, other: Report)
    requires HoldsDocument(codec, files, ResultFile, report) && step in report.steps && record in RecordsOf(step)
    requires replaced == files[record.name := RegularFile(content)]
    requires HoldsDocument(codec, replaced, ResultFile, other) && RecordsHeld(codec, replaced, other)
    ensures |content| == record.size && codec.sha(content) == record.sha
  {
    assert record.name != ResultFile && other == report;
    assert HoldsBytes(codec, replaced, record.name, record.sha, record.size);
  }

  /** Other bytes in place of a log or an output are refused, unless they have its length and digest. */
  lemma TamperedFileIsRefused(codec: Codec, name: string, files: Files, report: Report, step: StepResult,
                              record: Record,
                              content: Bytes)
    requires AcceptedReport(codec, name, files) == Some(report) && step in report.steps && record in RecordsOf(step)
    ensures |content| != record.size || codec.sha(content) != record.sha ==>
              AcceptedReport(codec, name, files[record.name := RegularFile(content)]) == None
  {
    var replaced := files[record.name := RegularFile(content)];
    AcceptanceProves(codec, name, files);
    AcceptanceProves(codec, name, replaced);
    var accepted := AcceptedReport(codec, name, replaced);
    if accepted.Some? {
      ReplacedIsTheSame(codec, files, report, step, record, content, replaced, accepted.value);
    }
  }

  /** A file the report needs. */
  predicate Needed(report: Report, name: FileName) {
    || name == PlanFile || name == ResultFile || name == CheckpointFile(report.checkpoint)
    || (name.CheckpointFile? && 0 <= name.index <= Finished(report))
    || exists step, record | step in report.steps && record in RecordsOf(step) :: record.name == name
  }

  lemma NeededIsHeld(codec: Codec, name: string, files: Files, report: Report, needed: FileName)
    requires Proves(codec, name, files, report) && Needed(report, needed)
    ensures needed in files && files[needed].RegularFile?
  {
    if step, record :| step in report.steps && record in RecordsOf(step) && record.name == needed {
      RecordIsHeld(codec, name, files, report, step, record);
    } else if needed.CheckpointFile? && 0 <= needed.index <= Finished(report) {
      assert EarlierHeld(codec, files, report, needed.index);
    }
  }

  lemma NeededStays(codec: Codec, name: string, files: Files, rest: Files, report: Report, needed: FileName,
                    other: Report)
    requires Proves(codec, name, files, report) && Needed(report, needed) && Proves(codec, name, rest, other)
    requires needed != ResultFile ==> rest[ResultFile] == files[ResultFile]
    ensures needed in rest && rest[needed].RegularFile?
  {
    if needed != ResultFile {
      OneResultOneReport(codec, name, files, report, rest, other);
      NeededIsHeld(codec, name, rest, report, needed);
    }
  }

  /** A directory where one of them is missing, or is not a regular file, is refused. */
  lemma MissingFileIsRefused(codec: Codec, name: string, files: Files, rest: Files, report: Report, missing: FileName)
    requires AcceptedReport(codec, name, files) == Some(report) && Needed(report, missing)
    requires rest == files - {missing} || rest == files[missing := Irregular]
    ensures AcceptedReport(codec, name, rest) == None
  {
    AcceptanceProves(codec, name, files);
    AcceptanceProves(codec, name, rest);
    var accepted := AcceptedReport(codec, name, rest);
    if accepted.Some? {
      NeededStays(codec, name, files, rest, report, missing, accepted.value);
    }
  }

  lemma OnePlan(codec: Codec, files: Files, files': Files, report: Report, plan: Plan, plan': Plan)
    requires PlanProved(codec, files, report, plan) && PlanProved(codec, files', report, plan')
    requires files[PlanFile] == files'[PlanFile]
    ensures plan' == plan
  {
  }

  lemma AddedHasPlace(codec: Codec, name: string, files: Files, report: Report, plan: Plan, added: FileName,
                      entry: Entry,
                      other: Report)
    requires Proves(codec, name, files, report) && PlanProved(codec, files, report, plan)
    requires added !in {PlanFile, ResultFile} && Proves(codec, name, files[added := entry], other)
    ensures entry.RegularFile? && HasPlace(report, plan, added)
  {
    var tampered := files[added := entry];
    OneResultOneReport(codec, name, files, report, tampered, other);
    var plan' :| Placed(codec, tampered, report, plan');
    OnePlan(codec, files, tampered, report, plan, plan');
    assert added in tampered;
  }

  /** A directory with a file that has no place in it, or with anything but files, is refused. */
  lemma ForeignFileIsRefused(codec: Codec, name: string, files: Files, report: Report, plan: Plan, foreign: FileName,
                             entry: Entry)
    requires AcceptedReport(codec, name, files) == Some(report) && PlanProved(codec, files, report, plan)
    requires foreign !in {PlanFile, ResultFile}
    ensures entry.Irregular? || !HasPlace(report, plan, foreign) ==>
              AcceptedReport(codec, name, files[foreign := entry]) == None
  {
    AcceptanceProves(codec, name, files);
    AcceptanceProves(codec, name, files[foreign := entry]);
    var accepted := AcceptedReport(codec, name, files[foreign := entry]);
    if accepted.Some? {
      AddedHasPlace(codec, name, files, report, plan, foreign, entry, accepted.value);
    }
  }

  /** Every checkpoint of the run but the last holds a report of a run still going on. */
  lemma OneFinalCheckpoint(codec: Codec, name: string, files: Files, report: Report, k: int, other: Report)
    requires Proves(codec, name, files, report) && HoldsDocument(codec, files, CheckpointFile(k), other)
    ensures other == report || other.status == Running
  {
    var plan :| Placed(codec, files, report, plan);
    assert HasPlace(report, plan, CheckpointFile(k));
    if k != report.checkpoint {
      assert EarlierHeld(codec, files, report, k);
      var earlier :| HoldsDocument(codec, files, CheckpointFile(k), earlier) && Earlier(codec, report, k, earlier);
    }
  }

  lemma RewrittenIsTheSame(codec: Codec, name: string, files: Files, report: Report, content: Bytes, other: Report)
    requires Proves(codec, name, files, report)
    requires Proves(codec, name, files[ResultFile := RegularFile(content)], other)
    ensures codec.parseReport(content) == Some(report)
  {
    var rewritten := files[ResultFile := RegularFile(content)];
    assert HoldsDocument(codec, rewritten, CheckpointFile(other.checkpoint), other);
    assert HoldsDocument(codec, files, CheckpointFile(other.checkpoint), other);
    OneFinalCheckpoint(codec, name, files, report, other.checkpoint, other);
  }

  /** A result file that holds any other report is refused, however it was made: it disagrees with the last
      checkpoint. */
  lemma RewrittenResultIsRefused(codec: Codec, name: string, files: Files, report: Report, content: Bytes)
    requires AcceptedReport(codec, name, files) == Some(report)
    ensures codec.parseReport(content) != Some(report) ==>
              AcceptedReport(codec, name, files[ResultFile := RegularFile(content)]) == None
  {
    AcceptanceProves(codec, name, files);
    AcceptanceProves(codec, name, files[ResultFile := RegularFile(content)]);
    var accepted := AcceptedReport(codec, name, files[ResultFile := RegularFile(content)]);
    if accepted.Some? {
      RewrittenIsTheSame(codec, name, files, report, content, accepted.value);
    }
  }
}
