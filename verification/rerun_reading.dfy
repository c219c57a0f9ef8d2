/** What the inspector says of a seal, read off the entries of its directory. */
module RerunReading {
  import opened Options
  import opened RerunEvidence
  import opened RerunStatus
  import RerunLock
  import Text

  // ----- names -----

  /** A seal id is "catalog-seal-" and thirty-two lower-case hexadecimal digits. */
  lemma SealIdsSpelled(value: string)
    ensures ValidSealId(value) <==>
              |value| == 45 && value[..13] == "catalog-seal-" && forall c | c in value[13..] :: c in "0123456789abcdef"
  {
    HexDigitsSpelled();
  }

  lemma HexDigitsSpelled()
    ensures forall c :: HexLower(c) <==> c in "0123456789abcdef"
  {
    forall c | HexLower(c) ensures c in "0123456789abcdef" {
      var digits := "0123456789abcdef";
      var k := if c <= '9' then c as int - '0' as int else 10 + (c as int - 'a' as int);
      assert digits[k] == c;
    }
  }

  /** A run id is "rerun-" and at least eight characters of its alphabet; no slash is among them. */
  lemma RunIdsSpelled(value: string)
    ensures ValidRunId(value) <==>
              |value| >= 14 && value[..6] == "rerun-" && forall c | c in value[6..] :: c in "0123456789abcdefTZ.-"
  {
    HexDigitsSpelled();
    var hex, alphabet := "0123456789abcdef", "0123456789abcdefTZ.-";
    assert alphabet == hex + "TZ.-";
    forall c ensures RunIdChar(c) <==> c in alphabet {
      assert c in "TZ.-" <==> c == 'T' || c == 'Z' || c == '.' || c == '-';
    }
    if |value| >= 14 && value[..6] == "rerun-" {
      assert value == value[..6] + value[6..];
    }
  }

  // ----- entries -----

  ghost predicate OneEntryPerName(entries: seq<DirEntry>) {
    forall a, b | a in entries && b in entries && a.name == b.name :: a == b
  }

  /** The lock file under its own name, or a run's directory. */
  predicate Expected(entry: DirEntry) {
    || (entry.name == "active.lock" && entry.kind.PlainFile?)
    || (entry.kind.Folder? && ValidRunId(entry.name))
  }

  /** A lock file that names a run: not empty, of at most 256 bytes, and a run id between white space. */
  predicate NamesARun(text: string) {
    0 < |text| <= 256 && ValidRunId(Text.Trim(text))
  }

  ghost predicate Greatest(entries: seq<DirEntry>, entry: DirEntry) {
    entry in entries && forall e | e in entries :: Text.LessEq(e.name, entry.name)
  }

  // ----- the reading -----

  lemma LockIsFound(entries: seq<DirEntry>, lock: DirEntry)
    requires OneEntryPerName(entries) && lock in entries && lock.name == "active.lock"
    ensures FindEntry(entries, LOCK_NAME) == Some(lock.kind)
  {
    FindIn(entries, lock);
  }

  lemma NoLockIsFound(entries: seq<DirEntry>)
    requires forall e | e in entries :: e.name != "active.lock"
    ensures ReadActiveRun(entries) == NoActiveRun
  {
    FindAbsent(entries, LOCK_NAME);
  }

  lemma ExpectedIsLegal(entries: seq<DirEntry>)
    ensures EntriesLegal(entries) <==> forall e | e in entries :: Expected(e)
  {
  }

  /** Anything but the lock file and run directories is an error, whatever else is there. */
  lemma UnexpectedEntryIsAnError(codec: Codec, sealId: string, entries: seq<DirEntry>, entry: DirEntry)
    requires entry in entries && !Expected(entry)
    ensures StatusOf(codec, sealId, Present(entries)) == None
  {
    ExpectedIsLegal(entries);
  }

  /** A lock file that names a run means that this run is active, and nothing is said of earlier runs; one that names
      none is an error. */
  lemma LockNamesTheActiveRun(codec: Codec, sealId: string, entries: seq<DirEntry>, text: string)
    requires ValidSealId(sealId) && OneEntryPerName(entries) && forall e | e in entries :: Expected(e)
    requires DirEntry("active.lock", PlainFile(text)) in entries
    ensures StatusOf(codec, sealId, Present(entries))
         == if NamesARun(text)
            then Some(Status(STATUS_SCHEMA, sealId, RunActive, Text.Trim(text), None, false, GATE_ACTIVE))
            else None
  {
    ExpectedIsLegal(entries);
    LockIsFound(entries, DirEntry("active.lock", PlainFile(text)));
  }

  /** Nothing there, or no directory at all: no run has been started. */
  lemma NothingMeansNotStarted(codec: Codec, sealId: string)
    requires ValidSealId(sealId)
    ensures forall base | base == Absent || base == Present([]) ::
              StatusOf(codec, sealId, base)
              == Some(Status(STATUS_SCHEMA, sealId, NotStarted, "", None, false, GATE_NOT_STARTED))
  {
    assert Text.SortStrings(RunNames([])) == [];
  }

  lemma GreatestIsLatest(entries: seq<DirEntry>, entry: DirEntry)
    requires OneEntryPerName(entries) && Greatest(entries, entry)
    requires forall e | e in entries :: Expected(e) && e.name != "active.lock"
    ensures ReadActiveRun(entries) == NoActiveRun && EntriesLegal(entries)
    ensures FindEntry(entries, entry.name) == Some(entry.kind)
    ensures var names := Text.SortStrings(RunNames(entries)); names != [] && names[|names| - 1] == entry.name
  {
    NoLockIsFound(entries);
    ExpectedIsLegal(entries);
    FindIn(entries, entry);
    GreatestIsLast(entries, entry);
  }

  lemma GreatestIsLast(entries: seq<DirEntry>, entry: DirEntry)
    requires Greatest(entries, entry) && forall e | e in entries :: !IsLock(e)
    ensures var names := Text.SortStrings(RunNames(entries)); names != [] && names[|names| - 1] == entry.name
  {
    RunsAreNamed(entries, entry);
    SomeRunIsLatest(entries, entry.name);
    LatestIsARun(entries);
    var names := Text.SortStrings(RunNames(entries));
    RunNamesAreRuns(entries, names[|names| - 1]);
    Text.LessEqAntisymmetric(names[|names| - 1], entry.name);
  }

  lemma SomeRunIsLatest(entries: seq<DirEntry>, name: string)
    requires name in RunNames(entries)
    ensures Text.SortStrings(RunNames(entries)) != []
  {
    Text.SortBySorts(Text.Itself, RunNames(entries));
  }

  /** What is said of the run with the greatest name once no run is active. */
  predicate SaysOfLatest(codec: Codec, sealId: string, name: string, files: Files, said: Option<Status>) {
    var accepted := AcceptedReport(codec, name, files);
    if ResultFile !in files then
      said == Some(Status(STATUS_SCHEMA, sealId, ExecutionFailed, name, None, false, GATE_NO_RESULT))
    else if accepted.None? || accepted.value.sealId != sealId then said == None
    else
      && said.Some? && said.value.sealId == sealId && said.value.activeRunId == ""
      && said.value.latestRun == accepted && said.value.evidenceIntegrityVerified
      && (said.value.state == ExecutionFailed <==> accepted.value.status == Failed)
      && (said.value.state == TechnicalGateFailed <==> accepted.value.status == CompletedGateFailed)
      && (said.value.state == TechnicalPassed <==> accepted.value.status == CompletedPass)
      && said.value.state in {ExecutionFailed, TechnicalGateFailed, TechnicalPassed}
      && said.value.nextGate == (if said.value.state == ExecutionFailed then GATE_FAILED
                                 else if said.value.state == TechnicalGateFailed then GATE_GATE_FAILED
                                 else GATE_PASSED)
  }

  /** Without a lock the run with the greatest name decides: failed and named when it left no result, otherwise its
      accepted report or an error. */
  lemma LatestRunDecides(codec: Codec, sealId: string, entries: seq<DirEntry>, name: string, files: Files)
    requires ValidSealId(sealId) && OneEntryPerName(entries)
    requires forall e | e in entries :: Expected(e) && e.name != "active.lock"
    requires Greatest(entries, DirEntry(name, Folder(files)))
    ensures SaysOfLatest(codec, sealId, name, files, StatusOf(codec, sealId, Present(entries)))
  {
    GreatestIsLatest(entries, DirEntry(name, Folder(files)));
    assert StatusOf(codec, sealId, Present(entries)) == LatestStatus(codec, sealId, name, files);
    AcceptedStatuses(codec, name, files);
  }

  lemma AcceptedStatuses(codec: Codec, name: string, files: Files)
    ensures var accepted := AcceptedReport(codec, name, files);
            accepted.Some? ==> accepted.value.status in {Failed, CompletedGateFailed, CompletedPass}
  {
  }

  lemma {:induction false} SomeNameIsGreatest(entries: seq<DirEntry>) returns (entry: DirEntry)
    requires entries != []
    ensures Greatest(entries, entry)
  {
    entry := entries[0];
    Text.LessEqReflexive(entry.name);
    assert entries == [entries[0]] + entries[1..];
    if |entries| > 1 {
      var other := SomeNameIsGreatest(entries[1..]);
      Text.LessEqTotal(entry.name, other.name);
      if Text.LessEq(entry.name, other.name) {
        entry := other;
      } else {
        forall e | e in entries[1..] ensures Text.LessEq(e.name, entry.name) {
          Text.LessEqTransitive(e.name, other.name, entry.name);
        }
      }
    }
  }

  /** One of these cases always applies. */
  lemma EveryListingIsRead(codec: Codec, sealId: string, entries: seq<DirEntry>) returns (entry: DirEntry)
    requires ValidSealId(sealId) && OneEntryPerName(entries) && entries != []
    ensures entry in entries
    ensures !Expected(entry) || entry.name == "active.lock"
            || (Greatest(entries, entry) && entry.kind.Folder?
                && forall e | e in entries :: Expected(e) && e.name != "active.lock")
  {
    if e :| e in entries && (!Expected(e) || e.name == "active.lock") {
      entry := e;
    } else {
      entry := SomeNameIsGreatest(entries);
    }
  }

  /** The inspector speaks of no other name than a seal id. */
  lemma OnlySealsAreRead(codec: Codec, sealId: string, base: BaseView)
    requires !ValidSealId(sealId)
    ensures StatusOf(codec, sealId, base) == None
  {
  }

  // ----- while callers of Execute are at work -----

  /** A listing of the seal's directory as the callers of Execute have left it: every run directory with its files,
      and the lock file, which holds the id of the run whose files are being written. */
  ghost predicate Lists(s: RerunLock.State, entries: seq<DirEntry>, text: string) {
    && OneEntryPerName(entries)
    && (forall runId | runId in s.runs :: DirEntry(runId, Folder(s.runs[runId])) in entries)
    && (forall e | e in entries ::
          || (s.lock.Some? && e == DirEntry("active.lock", PlainFile(text)))
          || (e.name in s.runs && e.kind == Folder(s.runs[e.name])))
    && match s.lock
       case None => true
       case Some(holder) =>
         && DirEntry("active.lock", PlainFile(text)) in entries
         && (RerunLock.PcOf(s, holder).Working? ==> text == RerunLock.PcOf(s, holder).runId + "\n")
  }

  lemma TrimsToRunId(runId: string)
    requires ValidRunId(runId)
    ensures Text.Trim(runId + "\n") == runId
  {
    RunIdsSpelled(runId);
    var text := runId + "\n";
    assert runId[0] == "rerun-"[0];
    assert text[0] == 'r' && Text.TrimLeft(text) == text && text[..|text| - 1] == runId;
    var last := runId[|runId| - 1];
    assert last == runId[6..][|runId| - 7];
    assert RunIdChar(last) && !Text.IsSpace(last);
    assert Text.TrimRight(runId) == runId;
  }

  lemma ListedIsExpected(s: RerunLock.State, entries: seq<DirEntry>, text: string)
    requires Lists(s, entries, text) && forall runId | runId in s.runs :: ValidRunId(runId)
    ensures forall e | e in entries :: Expected(e) && (e.name == "active.lock" ==> s.lock.Some?)
  {
    forall e | e in entries && e.name in s.runs ensures e.name != "active.lock" {
      RunIdIsNotLock(e.name);
    }
  }

  /** Whatever callers have done so far: while one of them is writing the files of a run, the inspector says that this
      run is active; and it says that some run is active only while a caller is between creating the lock and removing
      it. */
  lemma ActiveMeansAtWork(codec: Codec, sealId: string, runs: map<string, Files>, actions: seq<RerunLock.Action>,
                          entries: seq<DirEntry>, text: string)
    requires ValidSealId(sealId)
    requires var s := RerunLock.Run(RerunLock.Initially(runs), actions);
             && Lists(s, entries, text)
             && forall runId | runId in s.runs :: ValidRunId(runId) && |runId| < 256
    ensures var s := RerunLock.Run(RerunLock.Initially(runs), actions);
            var said := StatusOf(codec, sealId, Present(entries));
            && (forall c: RerunLock.Caller, runId | RerunLock.PcOf(s, c) == RerunLock.Working(runId) ::
                  said == Some(Status(STATUS_SCHEMA, sealId, RunActive, runId, None, false, GATE_ACTIVE)))
            && (said.Some? && said.value.state == RunActive ==>
                  exists c: RerunLock.Caller :: RerunLock.Holding(RerunLock.PcOf(s, c)))
  {
    var s := RerunLock.Run(RerunLock.Initially(runs), actions);
    RerunLock.RunKeepsInv(runs, actions);
    ListedIsExpected(s, entries, text);
    forall c: RerunLock.Caller, runId | RerunLock.PcOf(s, c) == RerunLock.Working(runId)
      ensures StatusOf(codec, sealId, Present(entries))
           == Some(Status(STATUS_SCHEMA, sealId, RunActive, runId, None, false, GATE_ACTIVE))
    {
      WorkingIsNamed(codec, sealId, s, entries, text, c, runId);
    }
    if s.lock.None? {
      NotActiveWithoutLock(codec, sealId, entries);
    } else {
      assert RerunLock.Holding(RerunLock.PcOf(s, s.lock.value));
    }
  }

  lemma WorkingIsNamed(codec: Codec, sealId: string, s: RerunLock.State, entries: seq<DirEntry>, text: string,
                       c: RerunLock.Caller, runId: string)
    requires ValidSealId(sealId) && RerunLock.Inv(s) && Lists(s, entries, text)
    requires RerunLock.PcOf(s, c) == RerunLock.Working(runId) && forall e | e in entries :: Expected(e)
    requires forall r | r in s.runs :: ValidRunId(r) && |r| < 256
    ensures StatusOf(codec, sealId, Present(entries))
         == Some(Status(STATUS_SCHEMA, sealId, RunActive, runId, None, false, GATE_ACTIVE))
  {
    assert RerunLock.Holding(RerunLock.PcOf(s, c)) && RerunLock.MadeBy(RerunLock.PcOf(s, c)) == Some(runId);
    TrimsToRunId(runId);
    LockNamesTheActiveRun(codec, sealId, entries, text);
  }

  lemma NotActiveWithoutLock(codec: Codec, sealId: string, entries: seq<DirEntry>)
    requires forall e | e in entries :: e.name != "active.lock"
    ensures var said := StatusOf(codec, sealId, Present(entries)); said.Some? ==> said.value.state != RunActive
  {
    NoLockIsFound(entries);
  }

  // ----- the release review -----

  /** Any status that passes the review's own check, wherever it came from, gives a progress that passes its last
      check too. */
  lemma AcceptedStatusFinalizes(codec: Codec, status: Status)
    requires G10Accepts(codec, status)
    ensures ReviewAccepts(true, BuildProgress(status))
  {
    if status.latestRun.Some? && ValidReport(codec, status.latestRun.value) {
      NotBlankNotEmpty(status.latestRun.value.runId);
      NotBlankNotEmpty(status.latestRun.value.releaseId);
    }
  }

  /** A review binds its baseline to a re-run only when a candidate is ready and a run of six steps has passed, known
      by its plan, its report, its release and its commit. */
  lemma OnlyPassedRunsBind(candidateReady: bool, p: G10Progress)
    requires ReviewAccepts(candidateReady, p) && BaselineBound(p)
    ensures candidateReady && p.runId != "" && |p.planSha| == |p.reportSha| == 64 && p.releaseId != ""
    ensures |p.gitSha| == 40 && p.completedSteps == 6 && p.failureStep == "" && !p.promotionEligible
  {
  }
}
