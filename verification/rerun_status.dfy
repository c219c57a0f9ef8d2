/** Reading the state of a seal's re-runs from disk, and the release review that consumes it. */
module RerunStatus {
  import opened Options
  import opened BoundedLog
  import opened RerunEvidence
  import opened RerunEngine
  import opened RerunAgreement
  import Text

  const STATUS_SCHEMA := "evaluation-catalog-rerun-status-v1"
  const SEAL_PREFIX := "catalog-seal-"
  const RUN_PREFIX := "rerun-"
  const LOCK_NAME := "active.lock"
  const MAX_LOCK_BYTES: nat := 256

  datatype State =
    | NotApplicable
    | NotStarted
    | RunActive
    | ExecutionFailed
    | TechnicalGateFailed
    | TechnicalPassed
    | OtherState(text: string)

  datatype Status = Status(
    schemaVersion: string, sealId: string, state: State, activeRunId: string,
    latestRun: Option<Report>, evidenceIntegrityVerified: bool, nextGate: string)

  /** One entry of the seal's directory. */
  datatype EntryKind = Folder(files: Files) | PlainFile(text: string) | SymbolicLink
  datatype DirEntry = DirEntry(name: string, kind: EntryKind)
  datatype BaseView = Absent | Present(entries: seq<DirEntry>)

  // Abbreviations of the texts shown to operators.
  const GATE_NOT_STARTED := "build a read-only plan"
  const GATE_ACTIVE := "wait for the active run"
  const GATE_NO_RESULT := "keep the scene and check logs"
  const GATE_FAILED := "check the failed step"
  const GATE_GATE_FAILED := "analyse failure clusters"
  const GATE_PASSED := "calibrate the judge"

  predicate HexLower(c: char) {
    '0' <= c <= '9' || 'a' <= c <= 'f'
  }

  predicate Hex(c: char) {
    HexLower(c) || 'A' <= c <= 'F'
  }

  predicate ValidSealId(value: string) {
    && |value| == SEAL_ID_LENGTH
    && SEAL_PREFIX <= value
    && forall c | c in value[|SEAL_PREFIX|..] :: HexLower(c)
  }

  predicate RunIdChar(c: char) {
    HexLower(c) || c == 'T' || c == 'Z' || c == '.' || c == '-'
  }

  predicate ValidRunId(value: string) {
    && |value| >= |RUN_PREFIX| + 8
    && RUN_PREFIX <= value
    && '/' !in value && '\\' !in value
    && forall c | c in value[|RUN_PREFIX|..] :: RunIdChar(c)
  }

  function FindEntry(entries: seq<DirEntry>, name: string): Option<EntryKind> {
    if entries == [] then None
    else if entries[0].name == name then Some(entries[0].kind)
    else FindEntry(entries[1..], name)
  }

  datatype ActiveRun = NoActiveRun | ActiveRunId(runId: string) | BrokenLock

  function ReadActiveRun(entries: seq<DirEntry>): ActiveRun {
    match FindEntry(entries, LOCK_NAME)
    case None => NoActiveRun
    case Some(PlainFile(text)) =>
      if text == "" || |text| > MAX_LOCK_BYTES || !ValidRunId(Text.Trim(text)) then BrokenLock
      else ActiveRunId(Text.Trim(text))
    case Some(_) => BrokenLock
  }

  predicate IsLock(entry: DirEntry) {
    entry.name == LOCK_NAME && entry.kind.PlainFile?
  }

  predicate IsRun(entry: DirEntry) {
    entry.kind.Folder? && ValidRunId(entry.name)
  }

  predicate EntriesLegal(entries: seq<DirEntry>) {
    forall entry | entry in entries :: IsLock(entry) || IsRun(entry)
  }

  function RunNames(entries: seq<DirEntry>): seq<string> {
    if entries == [] then []
    else
      var last := entries[|entries| - 1];
      RunNames(entries[..|entries| - 1]) + if IsLock(last) then [] else [last.name]
  }

  function InitialStatus(sealId: string): Status {
    Status(STATUS_SCHEMA, sealId, NotStarted, "", None, false, GATE_NOT_STARTED)
  }

  function StateOf(report: Report): Option<(State, string)> {
    match report.status
    case Failed => Some((ExecutionFailed, GATE_FAILED))
    case CompletedGateFailed => Some((TechnicalGateFailed, GATE_GATE_FAILED))
    case CompletedPass => Some((TechnicalPassed, GATE_PASSED))
    case _ => None
  }

  /** The status read from the latest run directory. */
  function LatestStatus(codec: Codec, sealId: string, name: string, files: Files): Option<Status> {
    var status := InitialStatus(sealId);
    if ResultFile !in files then
      Some(status.(state := ExecutionFailed, activeRunId := name, nextGate := GATE_NO_RESULT))
    else
      match AcceptedReport(codec, name, files)
      case None => None
      case Some(report) =>
        if report.sealId != sealId || StateOf(report).None? then None
        else
          var (state, gate) := StateOf(report).value;
          Some(status.(latestRun := Some(report), evidenceIntegrityVerified := true, state := state, nextGate := gate))
  }

  /** Inspector.Status; None stands for every error it can return. */
  function StatusOf(codec: Codec, sealId: string, base: BaseView): Option<Status> {
    if !ValidSealId(sealId) then None
    else if base.Absent? then Some(InitialStatus(sealId))
    else
      var active := ReadActiveRun(base.entries);
      if active.BrokenLock? || !EntriesLegal(base.entries) then None
      else if active.ActiveRunId? then
        Some(InitialStatus(sealId).(state := RunActive, activeRunId := active.runId, nextGate := GATE_ACTIVE))
      else
        var names := Text.SortStrings(RunNames(base.entries));
        if names == [] then Some(InitialStatus(sealId))
        else
          var latest := names[|names| - 1];
          match FindEntry(base.entries, latest)
          case Some(Folder(files)) => LatestStatus(codec, sealId, latest, files)
          case _ => None
  }

  class Inspector {
    const codec: Codec

    constructor (codec: Codec)
      ensures this.codec == codec
    {
      this.codec := codec;
    }

    method CollectRunNames(entries: seq<DirEntry>) returns (names: Option<seq<string>>)
      ensures names == if EntriesLegal(entries) then Some(RunNames(entries)) else None
    {
      var found: seq<string> := [];
      for i := 0 to |entries|
        invariant EntriesLegal(entries[..i]) && found == RunNames(entries[..i])
      {
        assert entries[..i + 1][..i] == entries[..i] && entries[..i + 1] == entries[..i] + [entries[i]];
        if !IsLock(entries[i]) {
          if !IsRun(entries[i]) {
            return None;
          }
          found := found + [entries[i].name];
        }
      }
      assert entries[..|entries|] == entries;
      return Some(found);
    }

    method Status(sealId: string, base: BaseView) returns (result: Option<Status>)
      ensures result == StatusOf(codec, sealId, base)
    {
      if !ValidSealId(sealId) {
        return None;
      }
      var status := InitialStatus(sealId);
      if base.Absent? {
        return Some(status);
      }
      var active := ReadActiveRun(base.entries);
      if active.BrokenLock? {
        return None;
      }
      var runNames := CollectRunNames(base.entries);
      if runNames.None? {
        return None;
      }
      var names := Text.SortStrings(runNames.value);
      if active.ActiveRunId? {
        return Some(status.(state := RunActive, activeRunId := active.runId, nextGate := GATE_ACTIVE));
      }
      if names == [] {
        return Some(status);
      }
      var latest := names[|names| - 1];
      var folder := FindEntry(base.entries, latest);
      if folder.None? || !folder.value.Folder? {
        return None;
      }
      var files := folder.value.files;
      if ResultFile !in files {
        return Some(status.(state := ExecutionFailed, activeRunId := latest, nextGate := GATE_NO_RESULT));
      }
      var accepted := ValidateRunDirectory(codec, latest, files);
      if accepted.None? || accepted.value.sealId != sealId {
        return None;
      }
      var report := accepted.value;
      status := status.(latestRun := Some(report), evidenceIntegrityVerified := true);
      match report.status {
        case Failed =>
          status := status.(state := ExecutionFailed, nextGate := GATE_FAILED);
        case CompletedGateFailed =>
          status := status.(state := TechnicalGateFailed, nextGate := GATE_GATE_FAILED);
        case CompletedPass =>
          status := status.(state := TechnicalPassed, nextGate := GATE_PASSED);
        case _ =>
          return None;
      }
      return Some(status);
    }
  }

  // ----- the release review's reading of a status -----

  datatype G10Progress = G10Progress(
    state: State, runId: string, planSha: string, reportSha: string, releaseId: string, gitSha: string,
    completedSteps: int, failureStep: string, technicalGatePassed: bool,
    evidenceIntegrityVerified: bool, promotionEligible: bool, nextGate: string)

  predicate G10RunId(value: string) {
    |value| >= |RUN_PREFIX| + 8 && RUN_PREFIX <= value && '/' !in value && '\\' !in value
  }

  predicate ValidLatest(codec: Codec, status: Status, expected: RunStatus) {
    && status.latestRun.Some? && status.activeRunId == "" && status.evidenceIntegrityVerified
    && ValidReport(codec, status.latestRun.value)
    && status.latestRun.value.sealId == status.sealId
    && status.latestRun.value.status == expected && !status.latestRun.value.promotionEligible
  }

  /** validateG10RerunStatus. */
  predicate G10Accepts(codec: Codec, status: Status) {
    && status.schemaVersion == STATUS_SCHEMA
    && |status.sealId| == SEAL_ID_LENGTH && SEAL_PREFIX <= status.sealId
    && !Text.Blank(status.nextGate)
    && |status.sealId[|SEAL_PREFIX|..]| % 2 == 0
    && (forall c | c in status.sealId[|SEAL_PREFIX|..] :: Hex(c))
    && match status.state {
         case NotStarted => status.activeRunId == "" && status.latestRun.None? && !status.evidenceIntegrityVerified
         case RunActive => G10RunId(status.activeRunId) && status.latestRun.None? && !status.evidenceIntegrityVerified
         case ExecutionFailed =>
           if status.latestRun.Some? then ValidLatest(codec, status, Failed)
           else G10RunId(status.activeRunId) && !status.evidenceIntegrityVerified
         case TechnicalGateFailed => ValidLatest(codec, status, CompletedGateFailed)
         case TechnicalPassed => ValidLatest(codec, status, CompletedPass)
         case _ => false
       }
  }

  /** buildG10RerunProgress. */
  function BuildProgress(status: Status): G10Progress {
    match status.latestRun
    case None =>
      G10Progress(status.state, status.activeRunId, "", "", "", "", 0, "", false,
                  status.evidenceIntegrityVerified, false, status.nextGate)
    case Some(report) =>
      G10Progress(status.state, report.runId, report.planSha, report.reportSha, report.releaseId, report.gitSha,
                  |report.steps|, report.failureStep, report.technicalGatePassed,
                  status.evidenceIntegrityVerified, report.promotionEligible, status.nextGate)
  }

  predicate NoRunIdentity(p: G10Progress) {
    && p.planSha == "" && p.reportSha == "" && p.completedSteps == 0 && p.failureStep == ""
    && !p.technicalGatePassed && !p.evidenceIntegrityVerified
  }

  /** The re-run block of finalizeG10ReleaseReview. */
  predicate ReviewAccepts(candidateReady: bool, p: G10Progress) {
    && !(p.state.OtherState? && Text.Blank(p.state.text)) && !Text.Blank(p.nextGate) && !p.promotionEligible
    && 0 <= p.completedSteps <= 6
    && if !candidateReady then
         p.state == NotApplicable && p.runId == "" && p.releaseId == "" && p.gitSha == "" && NoRunIdentity(p)
       else
         match p.state {
           case NotStarted => p.runId == "" && p.releaseId == "" && p.gitSha == "" && NoRunIdentity(p)
           case RunActive => p.runId != "" && NoRunIdentity(p)
           case ExecutionFailed =>
             && p.runId != "" && !p.technicalGatePassed
             && (p.evidenceIntegrityVerified ==>
                   |p.planSha| == 64 && |p.reportSha| == 64 && |p.gitSha| == 40 && p.releaseId != ""
                   && p.failureStep != "")
           case TechnicalGateFailed => CompletedProgress(p) && !p.technicalGatePassed
           case TechnicalPassed => CompletedProgress(p) && p.technicalGatePassed
           case _ => false
         }
  }

  predicate CompletedProgress(p: G10Progress) {
    && p.runId != "" && |p.planSha| == 64 && |p.reportSha| == 64 && p.releaseId != "" && |p.gitSha| == 40
    && p.completedSteps == 6 && p.failureStep == "" && p.evidenceIntegrityVerified
  }

  /** The sealed-baseline guard of the review. */
  predicate BaselineBound(p: G10Progress) {
    p.state == TechnicalPassed && p.technicalGatePassed && p.evidenceIntegrityVerified
  }

  lemma GateTextsNotBlank(gate: string)
    requires gate in {GATE_NOT_STARTED, GATE_ACTIVE, GATE_NO_RESULT, GATE_FAILED, GATE_GATE_FAILED, GATE_PASSED}
    ensures !Text.Blank(gate)
  {
    assert gate[0] in "bwkca";
    Text.NotBlank(gate);
  }

  lemma NotBlankNotEmpty(s: string)
    requires !Text.Blank(s)
    ensures s != ""
  {
  }

  /** The review accepts the status and the progress it builds from it. */
  ghost predicate Agreed(codec: Codec, status: Option<Status>) {
    status.Some? ==> G10Accepts(codec, status.value) && ReviewAccepts(true, BuildProgress(status.value))
  }

  function AcceptedStatus(sealId: string, report: Report): Status
    requires StateOf(report).Some?
  {
    var (state, gate) := StateOf(report).value;
    Status(STATUS_SCHEMA, sealId, state, "", Some(report), true, gate)
  }

  lemma AcceptedProgress(codec: Codec, sealId: string, report: Report)
    requires ValidReport(codec, report) && StateOf(report).Some?
    ensures ReviewAccepts(true, BuildProgress(AcceptedStatus(sealId, report)))
  {
    GateTextsNotBlank(StateOf(report).value.1);
    NotBlankNotEmpty(report.runId);
    NotBlankNotEmpty(report.releaseId);
  }

  lemma SealIdDecodes(sealId: string)
    requires ValidSealId(sealId)
    ensures var digits := sealId[|SEAL_PREFIX|..];
            |digits| % 2 == 0 && forall c | c in digits :: Hex(c)
  {
  }

  lemma AcceptedStatusValid(codec: Codec, sealId: string, report: Report)
    requires ValidSealId(sealId) && ValidReport(codec, report) && report.sealId == sealId && StateOf(report).Some?
    ensures G10Accepts(codec, AcceptedStatus(sealId, report))
  {
    GateTextsNotBlank(StateOf(report).value.1);
    SealIdDecodes(sealId);
  }

  lemma LatestStatusShape(codec: Codec, sealId: string, name: string, files: Files)
    requires ValidSealId(sealId) && ValidRunId(name)
    ensures Agreed(codec, LatestStatus(codec, sealId, name, files))
  {
    var status := LatestStatus(codec, sealId, name, files);
    if status.Some? {
      if ResultFile !in files {
        GateTextsNotBlank(GATE_NO_RESULT);
      } else {
        var report := AcceptedReport(codec, name, files).value;
        assert status.value == AcceptedStatus(sealId, report);
        AcceptedStatusValid(codec, sealId, report);
        AcceptedProgress(codec, sealId, report);
      }
    }
  }

  lemma {:induction false} RunNamesAreRuns(entries: seq<DirEntry>, name: string)
    requires name in RunNames(entries)
    ensures exists entry :: entry in entries && !IsLock(entry) && entry.name == name
  {
    if entries != [] {
      var last := entries[|entries| - 1];
      if name in RunNames(entries[..|entries| - 1]) {
        RunNamesAreRuns(entries[..|entries| - 1], name);
      } else {
        assert last in entries;
      }
    }
  }

  lemma QuietStatusAgreed(codec: Codec, sealId: string, runId: string)
    requires ValidSealId(sealId)
    ensures Agreed(codec, Some(InitialStatus(sealId)))
    ensures ValidRunId(runId) ==>
              Agreed(codec, Some(InitialStatus(sealId).(state := RunActive, activeRunId := runId,
                                                        nextGate := GATE_ACTIVE)))
  {
    GateTextsNotBlank(GATE_NOT_STARTED);
    GateTextsNotBlank(GATE_ACTIVE);
  }

  /** Every status comes from one of three readings. */
  lemma StatusReading(codec: Codec, sealId: string, base: BaseView) returns (name: string, files: Files)
    requires StatusOf(codec, sealId, base).Some?
    ensures ValidSealId(sealId)
    ensures var status := StatusOf(codec, sealId, base).value;
            || status == InitialStatus(sealId)
            || (ValidRunId(name)
                && status == InitialStatus(sealId).(state := RunActive, activeRunId := name, nextGate := GATE_ACTIVE))
            || (ValidRunId(name) && Some(status) == LatestStatus(codec, sealId, name, files))
  {
    name, files := "", map[];
    if base.Present? {
      var active := ReadActiveRun(base.entries);
      var names := Text.SortStrings(RunNames(base.entries));
      if active.ActiveRunId? {
        name := active.runId;
      } else if names != [] {
        LatestIsARun(base.entries);
        name := names[|names| - 1];
        RunNamesAreRuns(base.entries, name);
        files := FindEntry(base.entries, name).value.files;
      }
    }
  }

  /** The three status machines agree: every status the inspector returns is accepted by the review,
      and the progress built from it passes the review's own re-run checks. */
  lemma InspectorSatisfiesReview(codec: Codec, sealId: string, base: BaseView)
    ensures Agreed(codec, StatusOf(codec, sealId, base))
  {
    if StatusOf(codec, sealId, base).Some? {
      var name, files := StatusReading(codec, sealId, base);
      QuietStatusAgreed(codec, sealId, name);
      if ValidRunId(name) {
        LatestStatusShape(codec, sealId, name, files);
      }
    }
  }

  /** The run reported is the greatest run name of the directory. */
  lemma LatestIsARun(entries: seq<DirEntry>)
    requires Text.SortStrings(RunNames(entries)) != []
    ensures var names := Text.SortStrings(RunNames(entries));
            && names[|names| - 1] in RunNames(entries)
            && forall name | name in RunNames(entries) :: Text.LessEq(name, names[|names| - 1])
  {
    var names := Text.SortStrings(RunNames(entries));
    var last := names[|names| - 1];
    Text.SortBySorts(Text.Itself, RunNames(entries));
    Text.SameMembers(names, RunNames(entries), last);
    Text.LessEqReflexive(last);
    forall name | name in RunNames(entries) ensures Text.LessEq(name, last) {
      Text.SameMembers(RunNames(entries), names, name);
      var i :| 0 <= i < |names| && names[i] == name;
      if i < |names| - 1 {
        assert Text.LessEq(Text.Itself(names[i]), Text.Itself(last));
      }
    }
  }

  /** technical_passed is reported only for a run of the six fixed steps in order, every one passed
      with exit code 0 and with outputs, bound to the seal asked for. */
  lemma TechnicalPassedMeansSixPasses(codec: Codec, sealId: string, base: BaseView)
    ensures var status := StatusOf(codec, sealId, base);
            status.Some? && status.value.state == TechnicalPassed ==>
              && status.value.latestRun.Some?
              && var report := status.value.latestRun.value;
                 && report.sealId == sealId && |report.steps| == 6
                 && (forall i | 0 <= i < 6 ::
                       && report.steps[i].id == FIXED_STEP_IDS[i] && report.steps[i].status == Passed
                       && report.steps[i].exitCode == 0 && report.steps[i].outputs != [])
                 && BaselineBound(BuildProgress(status.value))
  {
    var status := StatusOf(codec, sealId, base);
    if status.Some? && status.value.state == TechnicalPassed {
      var report := status.value.latestRun.value;
      assert ValidReport(codec, report) && report.status == CompletedPass;
      forall i | 0 <= i < 6 ensures StepValid(report.steps[i], i) && report.steps[i].status == Passed {
        assert StepValid(report.steps[i], i);
      }
    }
  }

  // ----- run names in time order -----

  /** From the zero time up to the year 10000: the times a stamp prints with a four-digit year. */
  predicate Printable(t: Time) {
    0 <= t < 315_537_897_600_000_000_000
  }

  /** Stamps have the run-id alphabet and, for printable times, one length and the order of time; digests are
      lower-case hex. */
  ghost predicate WellPrinted(codec: Codec) {
    && (forall t :: |codec.stamp(t)| >= 8 && forall c | c in codec.stamp(t) :: RunIdChar(c))
    && (forall b :: forall c | c in codec.sha(b) :: HexLower(c))
    && (forall t, u | Printable(t) && Printable(u) :: |codec.stamp(t)| == |codec.stamp(u)|)
    && (forall t, u | Printable(t) && Printable(u) && t < u :: Text.Less(codec.stamp(t), codec.stamp(u)))
  }

  lemma RunIdIsValid(codec: Codec, plan: Plan, started: Time)
    requires WellPrinted(codec) && PlanIntegrity(codec, plan)
    ensures ValidRunId(RunId(codec, plan, started))
  {
    var runId := RunId(codec, plan, started);
    var hash := plan.planSha[..8];
    assert runId[|RUN_PREFIX|..] == codec.stamp(started) + "-" + hash;
    assert forall c | c in hash :: c in plan.planSha;
    assert plan.planSha == codec.sha(codec.marshalPlan(plan.(planSha := "")));
    assert forall c | c in runId :: c in RUN_PREFIX || RunIdChar(c);
  }

  /** Run names sort by start time; runs started in the same instant sort by plan hash. */
  lemma RunIdOrder(codec: Codec, p: Plan, t: Time, q: Plan, u: Time)
    requires WellPrinted(codec) && |p.planSha| >= 8 && |q.planSha| >= 8 && Printable(t) && Printable(u)
    ensures Text.Less(RunId(codec, p, t), RunId(codec, q, u))
            <==> t < u || (t == u && Text.Less(p.planSha[..8], q.planSha[..8]))
  {
    var a, b := RunId(codec, p, t), RunId(codec, q, u);
    var x, y := p.planSha[..8], q.planSha[..8];
    assert a == RUN_PREFIX + codec.stamp(t) + ("-" + x) && b == RUN_PREFIX + codec.stamp(u) + ("-" + y);
    if t < u {
      Text.LessInContext(RUN_PREFIX, codec.stamp(t), codec.stamp(u), "-" + x, "-" + y);
    } else if u < t {
      Text.LessInContext(RUN_PREFIX, codec.stamp(u), codec.stamp(t), "-" + y, "-" + x);
      Text.LessAsymmetric(b, a);
    } else {
      var prefix := RUN_PREFIX + codec.stamp(t) + "-";
      assert a == prefix + x + "" && b == prefix + y + "";
      if Text.Less(x, y) {
        Text.LessInContext(prefix, x, y, "", "");
      } else if x != y {
        Text.LessEqTotal(x, y);
        Text.LessInContext(prefix, y, x, "", "");
        Text.LessAsymmetric(b, a);
      }
    }
  }

  // ----- from Execute to the status read back -----

  lemma {:induction false} FindIn(entries: seq<DirEntry>, entry: DirEntry)
    requires entry in entries
    requires forall a, b | a in entries && b in entries && a.name == b.name :: a == b
    ensures FindEntry(entries, entry.name) == Some(entry.kind)
  {
    if entries[0] != entry {
      assert entry in entries[1..];
      FindIn(entries[1..], entry);
    }
  }

  lemma {:induction false} FindAbsent(entries: seq<DirEntry>, name: string)
    requires forall entry | entry in entries :: entry.name != name
    ensures FindEntry(entries, name) == None
  {
    if entries != [] {
      FindAbsent(entries[1..], name);
    }
  }

  lemma {:induction false} RunsAreNamed(entries: seq<DirEntry>, entry: DirEntry)
    requires entry in entries && !IsLock(entry)
    ensures entry.name in RunNames(entries)
  {
    var last := entries[|entries| - 1];
    if last != entry {
      assert entry in entries[..|entries| - 1];
      RunsAreNamed(entries[..|entries| - 1], entry);
    }
  }

  /** Run folders only, one of them with the greatest name. */
  ghost predicate ListingAfter(entries: seq<DirEntry>, runId: string, files: Files) {
    && DirEntry(runId, Folder(files)) in entries
    && (forall a, b | a in entries && b in entries && a.name == b.name :: a == b)
    && (forall entry | entry in entries ::
          IsRun(entry) && (entry.name == runId || Text.Less(entry.name, runId)))
  }

  lemma RunIdIsNotLock(name: string)
    requires ValidRunId(name)
    ensures name != LOCK_NAME
  {
    assert name[..6] == RUN_PREFIX && LOCK_NAME[0] == 'a';
    assert name[0] == RUN_PREFIX[0] == 'r';
  }

  lemma ListingHasNoLock(entries: seq<DirEntry>, runId: string, files: Files)
    requires ListingAfter(entries, runId, files)
    ensures ReadActiveRun(entries) == NoActiveRun && EntriesLegal(entries)
    ensures forall entry | entry in entries :: !IsLock(entry)
  {
    forall e | e in entries ensures e.name != LOCK_NAME {
      RunIdIsNotLock(e.name);
    }
    FindAbsent(entries, LOCK_NAME);
  }

  lemma ListingLatestName(entries: seq<DirEntry>, runId: string, files: Files)
    requires ListingAfter(entries, runId, files)
    ensures var names := Text.SortStrings(RunNames(entries));
            names != [] && names[|names| - 1] == runId
  {
    ListingHasNoLock(entries, runId, files);
    RunsAreNamed(entries, DirEntry(runId, Folder(files)));
    Text.SortBySorts(Text.Itself, RunNames(entries));
    LatestIsARun(entries);
    var names := Text.SortStrings(RunNames(entries));
    RunNamesAreRuns(entries, names[|names| - 1]);
    if names[|names| - 1] != runId {
      Text.LessEqAntisymmetric(names[|names| - 1], runId);
    }
  }

  lemma ListingReadsLatest(codec: Codec, sealId: string, entries: seq<DirEntry>, runId: string, files: Files)
    requires ValidSealId(sealId) && ListingAfter(entries, runId, files)
    ensures StatusOf(codec, sealId, Present(entries)) == LatestStatus(codec, sealId, runId, files)
  {
    ListingHasNoLock(entries, runId, files);
    ListingLatestName(entries, runId, files);
    FindIn(entries, DirEntry(runId, Folder(files)));
  }

  /** A directory made by an earlier run, of any plan. */
  ghost predicate EarlierRun(codec: Codec, entry: DirEntry, started: Time) {
    && entry.kind.Folder?
    && exists p, t :: PlanIntegrity(codec, p) && Printable(t) && t < started && entry.name == RunId(codec, p, t)
  }

  /** The directory listing after a run and any number of earlier ones. */
  ghost predicate Listing(codec: Codec, entries: seq<DirEntry>, plan: Plan, started: Time, files: Files)
    requires |plan.planSha| >= 8
  {
    && DirEntry(RunId(codec, plan, started), Folder(files)) in entries
    && (forall a, b | a in entries && b in entries && a.name == b.name :: a == b)
    && (forall entry | entry in entries ::
          entry == DirEntry(RunId(codec, plan, started), Folder(files)) || EarlierRun(codec, entry, started))
  }

  lemma ListingIsInOrder(codec: Codec, entries: seq<DirEntry>, plan: Plan, started: Time, files: Files)
    requires WellPrinted(codec) && PlanIntegrity(codec, plan) && Printable(started)
             && Listing(codec, entries, plan, started, files)
    ensures ListingAfter(entries, RunId(codec, plan, started), files)
  {
    RunIdIsValid(codec, plan, started);
    forall entry | entry in entries && EarlierRun(codec, entry, started)
      ensures ValidRunId(entry.name) && Text.Less(entry.name, RunId(codec, plan, started))
    {
      var p, t :| PlanIntegrity(codec, p) && Printable(t) && t < started && entry.name == RunId(codec, p, t);
      RunIdIsValid(codec, p, t);
      RunIdOrder(codec, p, t, plan, started);
    }
  }

  /** End to end: once Execute has returned a report and no later run was started, the inspector reports that very
      report, in the state its status calls for, and the release review accepts what it is told. */
  lemma StatusReportsTheRun(codec: Codec, plan: Plan, started: Time, behaviour: Behaviour, clock: Readings, taken: nat,
                            entries: seq<DirEntry>)
    requires codec.Good() && WellPrinted(codec) && ValidPlan(codec, plan, true) && Confined(plan, behaviour)
    requires ValidSealId(plan.sealId) && Printable(started)
    requires var end := RunSpec(codec, plan, RunId(codec, plan, started), started, behaviour, clock, taken);
             end.outcome.Finished? && PlanFits(codec, plan) && ReportsFit(end.files)
             && Listing(codec, entries, plan, started, end.files)
    ensures var runId := RunId(codec, plan, started);
            var report := RunSpec(codec, plan, runId, started, behaviour, clock, taken).outcome.report;
            var status := StatusOf(codec, plan.sealId, Present(entries));
            && StateOf(report).Some? && status.Some?
            && status.value.latestRun == Some(report) && status.value.evidenceIntegrityVerified
            && status.value.state == StateOf(report).value.0
            && ReviewAccepts(true, BuildProgress(status.value))
  {
    var runId := RunId(codec, plan, started);
    var end := RunSpec(codec, plan, runId, started, behaviour, clock, taken);
    ProducerAndValidatorAgree(codec, plan, started, behaviour, clock, taken);
    ReturnedReportIsValid(codec, plan, started, behaviour, clock, taken);
    ListingIsInOrder(codec, entries, plan, started, end.files);
    ListingReadsLatest(codec, plan.sealId, entries, runId, end.files);
    AcceptedHasResult(codec, runId, end.files);
    InspectorSatisfiesReview(codec, plan.sealId, Present(entries));
  }

  /** And what the release review is told names that run: its id, its plan and release, the hash of its own report,
      how far it came and where it failed. */
  lemma ReviewNamesTheRun(codec: Codec, plan: Plan, started: Time, behaviour: Behaviour, clock: Readings, taken: nat,
                          entries: seq<DirEntry>)
    requires codec.Good() && WellPrinted(codec) && ValidPlan(codec, plan, true) && Confined(plan, behaviour)
    requires ValidSealId(plan.sealId) && Printable(started)
    requires var end := RunSpec(codec, plan, RunId(codec, plan, started), started, behaviour, clock, taken);
             end.outcome.Finished? && PlanFits(codec, plan) && ReportsFit(end.files)
             && Listing(codec, entries, plan, started, end.files)
    ensures StatusOf(codec, plan.sealId, Present(entries)).Some?
    ensures var outcome := RunSpec(codec, plan, RunId(codec, plan, started), started, behaviour, clock, taken).outcome;
            NamesRun(codec, plan, started, outcome.report,
                     BuildProgress(StatusOf(codec, plan.sealId, Present(entries)).value))
  {
    StatusReportsTheRun(codec, plan, started, behaviour, clock, taken, entries);
    ReturnedReportIsValid(codec, plan, started, behaviour, clock, taken);
    var report := RunSpec(codec, plan, RunId(codec, plan, started), started, behaviour, clock, taken).outcome.report;
    ValidNamesRun(codec, plan, started, report, StatusOf(codec, plan.sealId, Present(entries)).value);
  }

  predicate NamesRun(codec: Codec, plan: Plan, started: Time, report: Report, p: G10Progress)
    requires |plan.planSha| >= 8
  {
    && p.runId == RunId(codec, plan, started) && p.planSha == plan.planSha
    && p.releaseId == plan.releaseId && p.gitSha == plan.gitSha
    && p.reportSha == codec.sha(codec.marshalReport(report.(reportSha := "")))
    && p.completedSteps == |report.steps| && (p.failureStep != "" <==> p.state == ExecutionFailed)
    && (p.failureStep != "" ==> report.steps != [] && report.steps[|report.steps| - 1].id == p.failureStep)
    && (p.technicalGatePassed <==> p.state == TechnicalPassed) && !p.promotionEligible && p.evidenceIntegrityVerified
  }

  lemma ValidNamesRun(codec: Codec, plan: Plan, started: Time, report: Report, status: Status)
    requires |plan.planSha| >= 8 && ValidReport(codec, report)
    requires SameRun(codec, plan, RunId(codec, plan, started), started, report)
    requires StateOf(report).Some? && status.latestRun == Some(report) && status.state == StateOf(report).value.0
    requires status.evidenceIntegrityVerified
    ensures NamesRun(codec, plan, started, report, BuildProgress(status))
  {
  }

  lemma AcceptedHasResult(codec: Codec, name: string, files: Files)
    ensures AcceptedReport(codec, name, files).Some? ==> ResultFile in files
  {
  }
}
