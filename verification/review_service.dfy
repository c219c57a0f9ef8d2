/** Submitting reviews: the whole service step, and what any history of submissions guarantees. */
module ReviewService {
  import opened Text
  import opened Sequences
  import opened Options
  import opened Integers
  import opened ReviewLedger
  import opened ReviewRules
  import opened ReviewProgress
  import opened ReviewEvidence

  datatype Receipt = Receipt(created: bool, row: Row, reasons: seq<string>, progress: Progress)
  datatype Submitted = Accepted(receipt: Receipt) | Failed(error: Error)

  function ScopeOf(codec: Codec, snapshot: Snapshot, reviewer: string): Scope {
    Scope(snapshot.catalogSha, snapshot.governanceSha, Digest(codec, Trim(reviewer)))
  }

  function ErrorOf(outcome: Outcome): Error
    requires !outcome.Created? && !outcome.Replayed?
  {
    match outcome
    case IdempotencyConflict => KeyReused
    case RevisionConflict => RevisionChanged
    case DatabaseError => DatabaseFailed
  }

  /** The end of Submit: what the caller is told about a stored row. */
  function Answer(codec: Codec, snapshot: Snapshot, scope: Scope, rows: seq<Row>, created: bool, stored: Row)
    : Submitted
  {
    if !ValidReview(codec, stored) then Failed(ArtifactUnavailable)
    else
      var view := ListLatest(rows, scope);
      if !Consistent(codec, snapshot, view) then Failed(ArtifactUnavailable)
      else Accepted(Receipt(created, stored, EntryOf(codec, stored).reasons, ProgressOf(codec, snapshot, view)))
  }

  /** One Submit over a table, its two transaction reads seeing the first `keyView` and `latestView` rows. */
  function SubmitStep(codec: Codec, rows: seq<Row>, loaded: Option<Snapshot>, reviewer: string, raw: Command, now: Time,
                      keyView: nat, latestView: nat): (seq<Row>, Submitted)
    requires keyView <= |rows| && latestView <= |rows|
  {
    if Screen(reviewer, TrimCommand(raw)).None? then (rows, Failed(InvalidReview))
    else if loaded.None? then (rows, Failed(ArtifactUnavailable))
    else
      var snapshot := loaded.value;
      var scope := ScopeOf(codec, snapshot, reviewer);
      if !Loads(codec, snapshot, ListLatest(rows, scope)) then (rows, Failed(ArtifactUnavailable))
      else
        match BuildCandidate(codec, snapshot, reviewer, raw, now)
        case Refused(error) => (rows, Failed(error))
        case Ready(candidate) => Commit(codec, rows, snapshot, scope, candidate, keyView, latestView)
  }

  /** The transaction and the answer to it. */
  function Commit(codec: Codec, rows: seq<Row>, snapshot: Snapshot, scope: Scope, candidate: Row, keyView: nat,
                  latestView: nat)
    : (seq<Row>, Submitted)
    requires keyView <= |rows| && latestView <= |rows|
  {
    var (rows', outcome) := AppendStep(rows, candidate, keyView, latestView);
    if !outcome.Created? && !outcome.Replayed? then (rows', Failed(ErrorOf(outcome)))
    else (rows', Answer(codec, snapshot, scope, rows', outcome.Created?, outcome.row))
  }

  class Service {
    const codec: Codec
    const ledger: Ledger

    constructor (codec: Codec, ledger: Ledger)
      ensures this.codec == codec && this.ledger == ledger
    {
      this.codec := codec;
      this.ledger := ledger;
    }

    method Submit(loaded: Option<Snapshot>, reviewer: string, raw: Command, now: Time, keyView: nat, latestView: nat)
      returns (result: Submitted)
      requires keyView <= |ledger.rows| && latestView <= |ledger.rows|
      modifies ledger
      ensures (ledger.rows, result)
              == SubmitStep(codec, old(ledger.rows), loaded, reviewer, raw, now, keyView, latestView)
    {
      if Screen(reviewer, TrimCommand(raw)).None? {
        return Failed(InvalidReview);
      }
      if loaded.None? {
        return Failed(ArtifactUnavailable);
      }
      var snapshot := loaded.value;
      var scope := ScopeOf(codec, snapshot, reviewer);
      var reviews := ListLatest(ledger.rows, scope);
      if !Loads(codec, snapshot, reviews) {
        return Failed(ArtifactUnavailable);
      }
      var build := BuildCandidate(codec, snapshot, reviewer, raw, now);
      if build.Refused? {
        return Failed(build.error);
      }
      var outcome := ledger.Append(build.row, keyView, latestView);
      if !outcome.Created? && !outcome.Replayed? {
        return Failed(ErrorOf(outcome));
      }
      result := Reply(snapshot, scope, outcome.Created?, outcome.row);
    }

    method Reply(snapshot: Snapshot, scope: Scope, created: bool, stored: Row) returns (result: Submitted)
      ensures result == Answer(codec, snapshot, scope, ledger.rows, created, stored)
    {
      if !ValidReview(codec, stored) {
        return Failed(ArtifactUnavailable);
      }
      var progress := BuildProgress(codec, snapshot, ListLatest(ledger.rows, scope));
      if progress.None? {
        return Failed(ArtifactUnavailable);
      }
      return Accepted(Receipt(created, stored, EntryOf(codec, stored).reasons, progress.value));
    }
  }

  // ----- tables that hold nothing but submissions -----

  /** The catalogs submissions were made against; the two hashes name a catalog. */
  ghost predicate Library(library: set<Snapshot>) {
    && (forall s | s in library :: ValidSnapshot(s))
    && (forall s, t | s in library && t in library && s.catalogSha == t.catalogSha ::
          s.governanceSha == t.governanceSha ==> s == t)
  }

  ghost predicate Built(codec: Codec, library: set<Snapshot>, row: Row) {
    exists snapshot, reviewer, raw, now ::
      snapshot in library && Truncate(now) != 0 && BuildCandidate(codec, snapshot, reviewer, raw, now) == Ready(row)
  }

  ghost predicate SubmissionsOnly(codec: Codec, library: set<Snapshot>, rows: seq<Row>) {
    Contiguous(rows) && IndexesHold(rows) && forall row | row in rows :: Built(codec, library, row)
  }

  /** A submitted row is valid, belongs to the catalog its hashes name, and keeps its reasons in normal form. */
  lemma BuiltRow(codec: Codec, library: set<Snapshot>, snapshot: Snapshot, row: Row)
    requires codec.Good() && Library(library) && snapshot in library && Built(codec, library, row)
    requires row.catalogSha == snapshot.catalogSha && row.governanceSha == snapshot.governanceSha && row.revision >= 1
    ensures ValidReview(codec, row) && Fits(snapshot, row) && CanonicalRow(codec, row)
  {
    var s, reviewer, raw, now :|
      s in library && Truncate(now) != 0 && BuildCandidate(codec, s, reviewer, raw, now) == Ready(row);
    CandidateRevision(codec, s, reviewer, raw, now);
    SubmittedIsValid(codec, s, reviewer, raw, now);
    BuiltFits(codec, library, snapshot, s, reviewer, raw, now);
  }

  lemma BuiltFits(codec: Codec, library: set<Snapshot>, snapshot: Snapshot, s: Snapshot, reviewer: string,
                  raw: Command, now: Time)
    requires codec.Good() && Library(library) && snapshot in library && s in library
    requires BuildCandidate(codec, s, reviewer, raw, now).Ready?
    requires var row := BuildCandidate(codec, s, reviewer, raw, now).row;
             row.catalogSha == snapshot.catalogSha && row.governanceSha == snapshot.governanceSha
    ensures var row := BuildCandidate(codec, s, reviewer, raw, now).row; Fits(snapshot, row) && CanonicalRow(codec, row)
  {
    var row := BuildCandidate(codec, s, reviewer, raw, now).row;
    CandidateContent(codec, s, reviewer, raw, now);
    assert s == snapshot;
    NormalFormIsStable(row.decision, raw.reasonCodes);
    CanonicalReasons(codec, row, NormalizeReasons(row.decision, raw.reasonCodes).value);
  }

  lemma RowsAreNumbered(rows: seq<Row>, row: Row)
    requires Contiguous(rows) && row in rows
    ensures row.revision >= 1
  {
    var i :| 0 <= i < |rows| && rows[i] == row;
    RevisionWithinCount(rows, i);
  }

  lemma CanonicalReasons(codec: Codec, row: Row, reasons: seq<string>)
    requires codec.Good() && row.reasonCodesJson == codec.encodeReasons(reasons)
    requires NormalizeReasons(row.decision, reasons) == Some(reasons)
    ensures CanonicalRow(codec, row) && EntryOf(codec, row).reasons == reasons
  {
    assert codec.decodeReasons(codec.encodeReasons(reasons)) == Some(reasons);
    assert reasons != [] by {
      SortBySorts(Itself, Kept(reasons));
    }
  }

  lemma SubmissionsAreSound(codec: Codec, library: set<Snapshot>, snapshot: Snapshot, scope: Scope, rows: seq<Row>)
    requires codec.Good() && Library(library) && snapshot in library && SubmissionsOnly(codec, library, rows)
    requires scope.catalogSha == snapshot.catalogSha && scope.governanceSha == snapshot.governanceSha
    ensures Sound(codec, snapshot, scope, rows)
  {
    forall row | row in rows && InScope(row, scope) ensures ValidReview(codec, row) && Fits(snapshot, row) {
      RowsAreNumbered(rows, row);
      BuiltRow(codec, library, snapshot, row);
    }
  }

  lemma AppendChanges(rows: seq<Row>, candidate: Row, keyView: nat, latestView: nat)
    requires Contiguous(rows) && IndexesHold(rows) && keyView <= |rows| && latestView <= |rows|
    ensures var (rows', outcome) := AppendStep(rows, candidate, keyView, latestView);
            && Contiguous(rows') && IndexesHold(rows')
            && rows' == (if outcome.Created? then rows + [candidate] else rows)
            && (outcome.Created? ==> outcome.row == candidate)
            && (outcome.Replayed? ==> outcome.row in rows && outcome.row.keyHash == candidate.keyHash
                                      && outcome.row.requestSha == candidate.requestSha)
  {
    if LookUp(rows[..keyView], candidate).Some? {
      FindKeyFinds(rows[..keyView], candidate.keyHash);
    } else if RevisionOk(rows[..latestView], candidate) {
      StaleCheckIsSafe(rows, candidate, latestView);
    }
  }

  lemma AppendKeepsSubmissions(codec: Codec, library: set<Snapshot>, rows: seq<Row>, candidate: Row, keyView: nat,
                               latestView: nat)
    requires SubmissionsOnly(codec, library, rows) && Built(codec, library, candidate)
    requires keyView <= |rows| && latestView <= |rows|
    ensures SubmissionsOnly(codec, library, AppendStep(rows, candidate, keyView, latestView).0)
  {
    AppendChanges(rows, candidate, keyView, latestView);
  }

  lemma ReadyIsBuilt(codec: Codec, library: set<Snapshot>, snapshot: Snapshot, reviewer: string, raw: Command,
                     now: Time)
    requires snapshot in library && Truncate(now) != 0 && BuildCandidate(codec, snapshot, reviewer, raw, now).Ready?
    ensures var row := BuildCandidate(codec, snapshot, reviewer, raw, now).row;
            && Built(codec, library, row) && row.catalogSha == snapshot.catalogSha
            && row.governanceSha == snapshot.governanceSha
            && (row.revision >= 1 <==> raw.expectedRevision < MAX_INT64)
            && (row.revision >= 1 ==> row.revision == raw.expectedRevision + 1)
            && row.expectedRevision == raw.expectedRevision && row.id == row.reviewSha
            && Screen(reviewer, TrimCommand(raw)).Some?
  {
    CandidateContent(codec, snapshot, reviewer, raw, now);
    CandidateRevision(codec, snapshot, reviewer, raw, now);
  }

  lemma SubmitCommits(codec: Codec, rows: seq<Row>, snapshot: Snapshot, reviewer: string, raw: Command, now: Time,
                      keyView: nat, latestView: nat)
    requires keyView <= |rows| && latestView <= |rows|
    requires Screen(reviewer, TrimCommand(raw)).Some?
    requires Loads(codec, snapshot, ListLatest(rows, ScopeOf(codec, snapshot, reviewer)))
    ensures SubmitStep(codec, rows, Some(snapshot), reviewer, raw, now, keyView, latestView)
            == match BuildCandidate(codec, snapshot, reviewer, raw, now)
               case Refused(error) => (rows, Failed(error))
               case Ready(row) => Commit(codec, rows, snapshot, ScopeOf(codec, snapshot, reviewer), row, keyView,
                                         latestView)
  {
  }

  lemma CommitRows(codec: Codec, rows: seq<Row>, snapshot: Snapshot, scope: Scope, candidate: Row, keyView: nat,
                   latestView: nat)
    requires keyView <= |rows| && latestView <= |rows|
    ensures Commit(codec, rows, snapshot, scope, candidate, keyView, latestView).0
         == AppendStep(rows, candidate, keyView, latestView).0
  {
  }

  /** Every Submit keeps the table one of submissions only, and changes no row in it. */
  lemma SubmitKeepsTable(codec: Codec, library: set<Snapshot>, rows: seq<Row>, snapshot: Snapshot, reviewer: string,
                         raw: Command, now: Time, keyView: nat, latestView: nat)
    requires codec.Good() && Library(library) && snapshot in library && SubmissionsOnly(codec, library, rows)
    requires keyView <= |rows| && latestView <= |rows| && Truncate(now) != 0
    ensures var rows' := SubmitStep(codec, rows, Some(snapshot), reviewer, raw, now, keyView, latestView).0;
            SubmissionsOnly(codec, library, rows') && rows <= rows' && |rows'| <= |rows| + 1
  {
    var build := BuildCandidate(codec, snapshot, reviewer, raw, now);
    if Screen(reviewer, TrimCommand(raw)).Some? {
      ListLatestLoads(codec, library, snapshot, ScopeOf(codec, snapshot, reviewer), rows);
      SubmitCommits(codec, rows, snapshot, reviewer, raw, now, keyView, latestView);
      if build.Ready? {
        ReadyIsBuilt(codec, library, snapshot, reviewer, raw, now);
        CommitRows(codec, rows, snapshot, ScopeOf(codec, snapshot, reviewer), build.row, keyView, latestView);
        AppendKeepsSubmissions(codec, library, rows, build.row, keyView, latestView);
        AppendChanges(rows, build.row, keyView, latestView);
      }
    }
  }

  /** Every interleaving of transactions whose candidates are submissions ends in such a table too. */
  lemma {:induction false} InterleavedSubmissions(codec: Codec, library: set<Snapshot>, actions: seq<Action>)
    requires forall i | 0 <= i < |actions| :: actions[i].Begin? ==> Built(codec, library, actions[i].candidate)
    ensures SubmissionsOnly(codec, library, Run(actions).rows)
    ensures forall t | t in Run(actions).txns :: Built(codec, library, Run(actions).txns[t].candidate)
  {
    RunKeepsInv(actions);
    if actions != [] {
      var before := actions[..|actions| - 1];
      InterleavedSubmissions(codec, library, before);
      StepKeepsBuilt(codec, library, Run(before), actions[|actions| - 1]);
    }
  }

  lemma StepKeepsBuilt(codec: Codec, library: set<Snapshot>, s: State, a: Action)
    requires forall row | row in s.rows :: Built(codec, library, row)
    requires forall t | t in s.txns :: Built(codec, library, s.txns[t].candidate)
    requires a.Begin? ==> Built(codec, library, a.candidate)
    ensures forall row | row in Next(s, a).rows :: Built(codec, library, row)
    ensures forall t | t in Next(s, a).txns :: Built(codec, library, Next(s, a).txns[t].candidate)
  {
    StepRows(s, a);
    forall t | t in Next(s, a).txns ensures Built(codec, library, Next(s, a).txns[t].candidate) {
      StepCandidates(s, a, t);
    }
  }

  lemma StepRows(s: State, a: Action)
    ensures Next(s, a).rows == s.rows
            || (a.TryInsert? && a.t in s.txns && Next(s, a).rows == s.rows + [s.txns[a.t].candidate])
  {
  }

  lemma StepCandidates(s: State, a: Action, t: nat)
    requires t in Next(s, a).txns
    ensures (t in s.txns && Next(s, a).txns[t].candidate == s.txns[t].candidate)
            || (a.Begin? && Next(s, a).txns[t].candidate == a.candidate)
  {
  }

  /** On a table of submissions, loading and summarizing never fail; exporting succeeds in whatever order the rows
      come, always with the same snapshot, valid and matching its catalog. */
  lemma ReadersNeverFail(codec: Codec, encode: Evidence -> string, library: set<Snapshot>, snapshot: Snapshot,
                         scope: Scope, rows: seq<Row>, view: seq<Row>)
    requires codec.Good() && Library(library) && snapshot in library && SubmissionsOnly(codec, library, rows)
    requires scope.catalogSha == snapshot.catalogSha && scope.governanceSha == snapshot.governanceSha
    requires LatestView(rows, scope, view)
    ensures Loads(codec, snapshot, view) && Consistent(codec, snapshot, view)
    ensures EvidenceOf(codec, encode, snapshot, view).Some?
    ensures ValidAgainst(codec, encode, EvidenceOf(codec, encode, snapshot, view).value, snapshot)
    ensures EvidenceOf(codec, encode, snapshot, view) == EvidenceOf(codec, encode, snapshot, ListLatest(rows, scope))
  {
    SubmissionsAreSound(codec, library, snapshot, scope, rows);
    LatestViewIsConsistent(codec, snapshot, scope, rows, view);
    ConsistentLoads(codec, snapshot, view);
    forall i | 0 <= i < |view| ensures Fits(snapshot, view[i]) && CanonicalRow(codec, view[i]) {
      assert view[i] in view;
      RowsAreNumbered(rows, view[i]);
      BuiltRow(codec, library, snapshot, view[i]);
    }
    BuilderSatisfiesValidator(codec, encode, snapshot, view);
    EvidenceMatchesCatalog(codec, encode, snapshot, view);
    var listed := ListLatest(rows, scope);
    ListLatestIsAView(rows, scope);
    LatestViewIsConsistent(codec, snapshot, scope, rows, listed);
    ViewsAreRearrangements(rows, scope, view, listed);
    EvidenceForgetsOrder(codec, encode, snapshot, view, listed);
  }

  lemma EvidenceMatchesCatalog(codec: Codec, encode: Evidence -> string, snapshot: Snapshot, reviews: seq<Row>)
    requires EvidenceOf(codec, encode, snapshot, reviews).Some?
    requires ValidEvidence(codec, encode, EvidenceOf(codec, encode, snapshot, reviews).value, true)
    requires forall i | 0 <= i < |reviews| :: Fits(snapshot, reviews[i])
    ensures ValidAgainst(codec, encode, EvidenceOf(codec, encode, snapshot, reviews).value, snapshot)
  {
    var report := EvidenceOf(codec, encode, snapshot, reviews).value;
    SortedEntriesAreListed(codec, snapshot, reviews);
    assert report.entries == SortBy(EntryCase, EntriesOf(codec, reviews));
  }

  lemma SortedEntriesAreListed(codec: Codec, snapshot: Snapshot, reviews: seq<Row>)
    requires forall i | 0 <= i < |reviews| :: Fits(snapshot, reviews[i])
    ensures var sorted := SortBy(EntryCase, EntriesOf(codec, reviews));
            forall k | 0 <= k < |sorted| :: Listed(snapshot, sorted[k])
  {
    var entries := EntriesOf(codec, reviews);
    var sorted := SortBy(EntryCase, entries);
    SortBySorts(EntryCase, entries);
    forall k | 0 <= k < |sorted| ensures Listed(snapshot, sorted[k]) {
      SameMembers(sorted, entries, sorted[k]);
      var i :| 0 <= i < |entries| && entries[i] == sorted[k];
      EntryAt(codec, reviews, i);
      assert Fits(snapshot, reviews[i]);
    }
  }

  /** Submit on a table of submissions: it answers exactly as the transaction went. */
  lemma SubmitAnswersTheTransaction(codec: Codec, library: set<Snapshot>, rows: seq<Row>, snapshot: Snapshot,
                                    reviewer: string, raw: Command, now: Time, keyView: nat, latestView: nat)
    requires codec.Good() && Library(library) && snapshot in library && SubmissionsOnly(codec, library, rows)
    requires keyView <= |rows| && latestView <= |rows| && Truncate(now) != 0
    requires BuildCandidate(codec, snapshot, reviewer, raw, now).Ready?
    ensures var candidate := BuildCandidate(codec, snapshot, reviewer, raw, now).row;
            Reports(codec, rows, AppendStep(rows, candidate, keyView, latestView).1,
                    SubmitStep(codec, rows, Some(snapshot), reviewer, raw, now, keyView, latestView))
  {
    var scope := ScopeOf(codec, snapshot, reviewer);
    ListLatestLoads(codec, library, snapshot, scope, rows);
    var candidate := BuildCandidate(codec, snapshot, reviewer, raw, now).row;
    ReadyIsBuilt(codec, library, snapshot, reviewer, raw, now);
    SubmitCommits(codec, rows, snapshot, reviewer, raw, now, keyView, latestView);
    CommitAnswers(codec, library, rows, snapshot, scope, candidate, keyView, latestView);
  }

  /** What Submit reports is what the transaction did. */
  predicate Reports(codec: Codec, rows: seq<Row>, outcome: Outcome, after: (seq<Row>, Submitted)) {
    match outcome
    case Created(row) =>
      after.1.Accepted? && after.1.receipt.created && after.1.receipt.row == row && after.0 == rows + [row]
    case Replayed(row) =>
      after.1.Accepted? && !after.1.receipt.created && after.1.receipt.row == row && after.0 == rows && row in rows
    case _ => after == (rows, Failed(ErrorOf(outcome)))
  }

  lemma CommitAnswers(codec: Codec, library: set<Snapshot>, rows: seq<Row>, snapshot: Snapshot, scope: Scope,
                      candidate: Row, keyView: nat, latestView: nat)
    requires codec.Good() && Library(library) && snapshot in library && SubmissionsOnly(codec, library, rows)
    requires keyView <= |rows| && latestView <= |rows| && Built(codec, library, candidate)
    requires scope.catalogSha == snapshot.catalogSha && scope.governanceSha == snapshot.governanceSha
    ensures Reports(codec, rows, AppendStep(rows, candidate, keyView, latestView).1,
                    Commit(codec, rows, snapshot, scope, candidate, keyView, latestView))
  {
    AppendKeepsSubmissions(codec, library, rows, candidate, keyView, latestView);
    AppendChanges(rows, candidate, keyView, latestView);
    var (rows', outcome) := AppendStep(rows, candidate, keyView, latestView);
    ListLatestLoads(codec, library, snapshot, scope, rows');
    if outcome.Created? || outcome.Replayed? {
      ReplayedIsValid(codec, library, rows', outcome.row);
      AnswerAccepts(codec, snapshot, scope, rows', outcome.Created?, outcome.row);
    }
  }

  lemma AnswerAccepts(codec: Codec, snapshot: Snapshot, scope: Scope, rows: seq<Row>, created: bool, stored: Row)
    requires ValidReview(codec, stored) && Consistent(codec, snapshot, ListLatest(rows, scope))
    ensures var result := Answer(codec, snapshot, scope, rows, created, stored);
            && result.Accepted? && result.receipt.created == created && result.receipt.row == stored
            && result.receipt.progress == ProgressOf(codec, snapshot, ListLatest(rows, scope))
  {
  }

  lemma ListLatestLoads(codec: Codec, library: set<Snapshot>, snapshot: Snapshot, scope: Scope, rows: seq<Row>)
    requires codec.Good() && Library(library) && snapshot in library && SubmissionsOnly(codec, library, rows)
    requires scope.catalogSha == snapshot.catalogSha && scope.governanceSha == snapshot.governanceSha
    ensures Loads(codec, snapshot, ListLatest(rows, scope)) && Consistent(codec, snapshot, ListLatest(rows, scope))
  {
    SubmissionsAreSound(codec, library, snapshot, scope, rows);
    ListLatestIsAView(rows, scope);
    LatestViewIsConsistent(codec, snapshot, scope, rows, ListLatest(rows, scope));
    ConsistentLoads(codec, snapshot, ListLatest(rows, scope));
  }

  lemma ReplayedIsValid(codec: Codec, library: set<Snapshot>, rows: seq<Row>, row: Row)
    requires codec.Good() && Library(library) && SubmissionsOnly(codec, library, rows) && row in rows
    ensures ValidReview(codec, row)
  {
    var s, reviewer, raw, now :|
      s in library && Truncate(now) != 0 && BuildCandidate(codec, s, reviewer, raw, now) == Ready(row);
    RowsAreNumbered(rows, row);
    CandidateRevision(codec, s, reviewer, raw, now);
    SubmittedIsValid(codec, s, reviewer, raw, now);
  }

  // ----- exactly once -----

  /** Two commands ask for the same thing under the same key. */
  predicate SameRequest(a: Command, b: Command) {
    var x, y := TrimCommand(a), TrimCommand(b);
    && x.(reasonCodes := []) == y.(reasonCodes := [])
    && NormalizeReasons(x.decision, x.reasonCodes) == NormalizeReasons(y.decision, y.reasonCodes)
  }

  /** Repeating a request builds a row with the same key and request hashes, whenever it is repeated. */
  lemma SameRequestSameHashes(codec: Codec, snapshot: Snapshot, reviewer: string, a: Command, nowA: Time, b: Command,
                              nowB: Time)
    requires ValidSnapshot(snapshot) && SameRequest(a, b) && BuildCandidate(codec, snapshot, reviewer, a, nowA).Ready?
    ensures BuildCandidate(codec, snapshot, reviewer, b, nowB).Ready?
    ensures var p := BuildCandidate(codec, snapshot, reviewer, a, nowA).row;
            var q := BuildCandidate(codec, snapshot, reviewer, b, nowB).row;
            p.keyHash == q.keyHash && p.requestSha == q.requestSha && ContentOf(p) == ContentOf(q)
  {
    ReadyMeans(codec, snapshot, reviewer, a, nowA);
    var x, y := TrimCommand(a), TrimCommand(b);
    assert Screen(reviewer, x) == Screen(reviewer, y);
    ReadyMeans(codec, snapshot, reviewer, b, nowB);
    var item := FindCase(snapshot.cases, x.caseId).value;
    var reasons := NormalizeReasons(x.decision, x.reasonCodes).value;
    SameInputsSameHashes(codec, snapshot, Trim(reviewer), x, nowA, y, nowB, item, reasons);
  }

  lemma SameInputsSameHashes(codec: Codec, snapshot: Snapshot, reviewer: string, x: Command, nowA: Time, y: Command,
                             nowB: Time, item: Case, reasons: seq<string>)
    requires x.(reasonCodes := []) == y.(reasonCodes := [])
    ensures var p := MakeRow(codec, snapshot, reviewer, x, item, reasons, nowA);
            var q := MakeRow(codec, snapshot, reviewer, y, item, reasons, nowB);
            p.keyHash == q.keyHash && p.requestSha == q.requestSha && ContentOf(p) == ContentOf(q)
  {
    assert x == y.(reasonCodes := x.reasonCodes);
    var p := MakeRow(codec, snapshot, reviewer, x, item, reasons, nowA);
    var q := MakeRow(codec, snapshot, reviewer, y, item, reasons, nowB);
    CandidateHashes(codec, snapshot, reviewer, x, item, reasons, nowA);
    CandidateHashes(codec, snapshot, reviewer, y, item, reasons, nowB);
    assert RequestParts(codec, p) == RequestParts(codec, q);
  }

  /** Once a submission made a row, repeating it over any later table of submissions returns that row and
      creates nothing, as long as the first read sees the row; with a staler read it reports a conflict or a
      database error and still creates nothing. */
  lemma RepeatedSubmitReturnsTheRow(codec: Codec, library: set<Snapshot>, rows: seq<Row>, snapshot: Snapshot,
                                    reviewer: string,
                                    first: Command, firstNow: Time, repeated: Command, now: Time, keyView: nat,
                                    latestView: nat)
    requires codec.Good() && Library(library) && snapshot in library && SubmissionsOnly(codec, library, rows)
    requires keyView <= |rows| && latestView <= |rows| && Truncate(now) != 0 && SameRequest(first, repeated)
    requires BuildCandidate(codec, snapshot, reviewer, first, firstNow).Ready?
    requires BuildCandidate(codec, snapshot, reviewer, first, firstNow).row in rows
    ensures var row := BuildCandidate(codec, snapshot, reviewer, first, firstNow).row;
            var (rows', result) := SubmitStep(codec, rows, Some(snapshot), reviewer, repeated, now, keyView,
                                              latestView);
            && rows' == rows
            && (row in rows[..keyView] ==> result.Accepted? && !result.receipt.created && result.receipt.row == row)
            && (row !in rows[..keyView] ==> result == Failed(RevisionChanged) || result == Failed(DatabaseFailed))
  {
    var row := BuildCandidate(codec, snapshot, reviewer, first, firstNow).row;
    SameRequestSameHashes(codec, snapshot, reviewer, first, firstNow, repeated, now);
    var candidate := BuildCandidate(codec, snapshot, reviewer, repeated, now).row;
    SubmitAnswersTheTransaction(codec, library, rows, snapshot, reviewer, repeated, now, keyView, latestView);
    RepeatIsReported(codec, rows, row, candidate, keyView, latestView,
                     SubmitStep(codec, rows, Some(snapshot), reviewer, repeated, now, keyView, latestView));
  }

  lemma RepeatIsReported(codec: Codec, rows: seq<Row>, row: Row, candidate: Row, keyView: nat, latestView: nat,
                         after: (seq<Row>, Submitted))
    requires IndexesHold(rows) && row in rows && keyView <= |rows| && latestView <= |rows|
    requires candidate.keyHash == row.keyHash && candidate.requestSha == row.requestSha
    requires Reports(codec, rows, AppendStep(rows, candidate, keyView, latestView).1, after)
    ensures after.0 == rows
    ensures row in rows[..keyView] ==> after.1.Accepted? && !after.1.receipt.created && after.1.receipt.row == row
    ensures row !in rows[..keyView] ==> after.1 == Failed(RevisionChanged) || after.1 == Failed(DatabaseFailed)
  {
    KeyTakenIsFinal(rows, row, candidate, keyView, latestView);
  }

  /** Both ends of the stale branch are reached: on the table that holds just a first review, its own repetition
      fails in the database when neither read sees the row, is a revision conflict when only the second does, and
      returns the row when the first does. */
  lemma StaleRepeatsAreReached(codec: Codec, library: set<Snapshot>, snapshot: Snapshot, reviewer: string,
                               first: Command, firstNow: Time, row: Row, repeated: Command, now: Time)
    requires codec.Good() && Library(library) && snapshot in library && Truncate(firstNow) != 0 && Truncate(now) != 0
    requires BuildCandidate(codec, snapshot, reviewer, first, firstNow) == Ready(row) && first.expectedRevision == 0
    requires SameRequest(first, repeated)
    ensures SubmissionsOnly(codec, library, [row])
    ensures SubmitStep(codec, [row], Some(snapshot), reviewer, repeated, now, 0, 0) == ([row], Failed(DatabaseFailed))
    ensures SubmitStep(codec, [row], Some(snapshot), reviewer, repeated, now, 0, 1) == ([row], Failed(RevisionChanged))
    ensures var result := SubmitStep(codec, [row], Some(snapshot), reviewer, repeated, now, 1, 1).1;
            result.Accepted? && !result.receipt.created && result.receipt.row == row
  {
    SameRequestSameHashes(codec, snapshot, reviewer, first, firstNow, repeated, now);
    var candidate := BuildCandidate(codec, snapshot, reviewer, repeated, now).row;
    ReadyIsBuilt(codec, library, snapshot, reviewer, first, firstNow);
    ReadyIsBuilt(codec, library, snapshot, reviewer, repeated, now);
    FirstRowAlone(codec, library, row);
    SameGroup(row, candidate);
    RepeatMissesBoth(codec, library, snapshot, reviewer, row, repeated, now, candidate);
    RepeatMissesTheKey(codec, library, snapshot, reviewer, row, repeated, now, candidate);
    RepeatSeesTheKey(codec, library, snapshot, reviewer, row, repeated, now, candidate);
  }

  lemma RepeatMissesBoth(codec: Codec, library: set<Snapshot>, snapshot: Snapshot, reviewer: string, row: Row,
                         repeated: Command, now: Time, candidate: Row)
    requires codec.Good() && Library(library) && snapshot in library && SubmissionsOnly(codec, library, [row])
    requires Truncate(now) != 0 && FirstTwice(row, candidate)
    requires BuildCandidate(codec, snapshot, reviewer, repeated, now) == Ready(candidate)
    ensures SubmitStep(codec, [row], Some(snapshot), reviewer, repeated, now, 0, 0) == ([row], Failed(DatabaseFailed))
  {
    RepeatUnseen(row, candidate);
    SubmitFails(codec, library, [row], snapshot, reviewer, repeated, now, candidate, 0, 0);
  }

  lemma RepeatMissesTheKey(codec: Codec, library: set<Snapshot>, snapshot: Snapshot, reviewer: string, row: Row,
                           repeated: Command, now: Time, candidate: Row)
    requires codec.Good() && Library(library) && snapshot in library && SubmissionsOnly(codec, library, [row])
    requires Truncate(now) != 0 && FirstTwice(row, candidate)
    requires BuildCandidate(codec, snapshot, reviewer, repeated, now) == Ready(candidate)
    ensures SubmitStep(codec, [row], Some(snapshot), reviewer, repeated, now, 0, 1) == ([row], Failed(RevisionChanged))
  {
    RepeatAfterFirst(row, candidate);
    SubmitFails(codec, library, [row], snapshot, reviewer, repeated, now, candidate, 0, 1);
  }

  lemma RepeatSeesTheKey(codec: Codec, library: set<Snapshot>, snapshot: Snapshot, reviewer: string, row: Row,
                         repeated: Command, now: Time, candidate: Row)
    requires codec.Good() && Library(library) && snapshot in library && SubmissionsOnly(codec, library, [row])
    requires Truncate(now) != 0 && FirstTwice(row, candidate)
    requires BuildCandidate(codec, snapshot, reviewer, repeated, now) == Ready(candidate)
    ensures var result := SubmitStep(codec, [row], Some(snapshot), reviewer, repeated, now, 1, 1).1;
            result.Accepted? && !result.receipt.created && result.receipt.row == row
  {
    RepeatAfterFirst(row, candidate);
    SubmitAnswersTheTransaction(codec, library, [row], snapshot, reviewer, repeated, now, 1, 1);
  }

  lemma RepeatUnseen(a: Row, b: Row)
    requires FirstTwice(a, b)
    ensures AppendStep([a], b, 0, 0).1 == DatabaseError
  {
    RepeatAfterFirst(a, b);
  }

  lemma SameGroup(a: Row, b: Row)
    requires ContentOf(a) == ContentOf(b)
    ensures GroupOf(a) == GroupOf(b) && a.expectedRevision == b.expectedRevision
  {
  }

  lemma SubmitFails(codec: Codec, library: set<Snapshot>, rows: seq<Row>, snapshot: Snapshot, reviewer: string,
                    raw: Command, now: Time, candidate: Row, keyView: nat, latestView: nat)
    requires codec.Good() && Library(library) && snapshot in library && SubmissionsOnly(codec, library, rows)
    requires keyView <= |rows| && latestView <= |rows| && Truncate(now) != 0
    requires BuildCandidate(codec, snapshot, reviewer, raw, now) == Ready(candidate)
    ensures var outcome := AppendStep(rows, candidate, keyView, latestView).1;
            !outcome.Created? && !outcome.Replayed? ==>
              SubmitStep(codec, rows, Some(snapshot), reviewer, raw, now, keyView, latestView)
              == (rows, Failed(ErrorOf(outcome)))
  {
    SubmitAnswersTheTransaction(codec, library, rows, snapshot, reviewer, raw, now, keyView, latestView);
  }

  lemma FirstRowAlone(codec: Codec, library: set<Snapshot>, row: Row)
    requires Built(codec, library, row) && row.revision == 1
    ensures SubmissionsOnly(codec, library, [row])
  {
    assert [row][..0] == [];
  }

  /** The same key with other content is a conflict and creates nothing, whatever has been appended since;
      short of a hash collision between the two request texts. */
  lemma ReusedKeyConflicts(codec: Codec, library: set<Snapshot>, rows: seq<Row>, snapshot: Snapshot, reviewer: string,
                           first: Command, firstNow: Time, a: Row, other: Command, now: Time, b: Row, latestView: nat)
    requires codec.Good() && Library(library) && snapshot in library && SubmissionsOnly(codec, library, rows)
    requires latestView <= |rows| && Truncate(now) != 0 && a in rows
    requires BuildCandidate(codec, snapshot, reviewer, first, firstNow) == Ready(a) && NulFree(first.caseId)
    requires BuildCandidate(codec, snapshot, reviewer, other, now) == Ready(b) && NulFree(other.caseId)
    requires Trim(first.key) == Trim(other.key) && ContentOf(a) != ContentOf(b) && NoCollision(codec, a, b)
    ensures SubmitStep(codec, rows, Some(snapshot), reviewer, other, now, |rows|, latestView)
         == (rows, Failed(KeyReused))
  {
    OtherContentOtherHash(codec, snapshot, reviewer, first, firstNow, a, other, now, b);
    FreshKeyConflicts(rows, a, b, latestView);
    SubmitAnswersTheTransaction(codec, library, rows, snapshot, reviewer, other, now, |rows|, latestView);
  }

  lemma FreshKeyConflicts(rows: seq<Row>, row: Row, candidate: Row, latestView: nat)
    requires IndexesHold(rows) && row in rows && latestView <= |rows|
    requires row.keyHash == candidate.keyHash && row.requestSha != candidate.requestSha
    ensures AppendStep(rows, candidate, |rows|, latestView).1 == IdempotencyConflict
  {
    FullPrefix(rows);
    KeyTakenIsFinal(rows, row, candidate, |rows|, latestView);
  }

  lemma OtherContentOtherHash(codec: Codec, snapshot: Snapshot, reviewer: string, first: Command, firstNow: Time,
                              a: Row, other: Command, now: Time, b: Row)
    requires codec.Good() && ValidSnapshot(snapshot) && Trim(first.key) == Trim(other.key)
    requires BuildCandidate(codec, snapshot, reviewer, first, firstNow) == Ready(a) && NulFree(first.caseId)
    requires BuildCandidate(codec, snapshot, reviewer, other, now) == Ready(b) && NulFree(other.caseId)
    requires NoCollision(codec, a, b)
    ensures a.keyHash == b.keyHash && (a.requestSha == b.requestSha <==> ContentOf(a) == ContentOf(b))
  {
    SubmittedIsPlain(codec, snapshot, reviewer, first, firstNow);
    SubmittedIsPlain(codec, snapshot, reviewer, other, now);
    BuiltHashes(codec, snapshot, reviewer, first, firstNow);
    BuiltHashes(codec, snapshot, reviewer, other, now);
    RequestDecidesContent(codec, a, b);
  }

  lemma BuiltHashes(codec: Codec, snapshot: Snapshot, reviewer: string, raw: Command, now: Time)
    requires ValidSnapshot(snapshot) && BuildCandidate(codec, snapshot, reviewer, raw, now).Ready?
    ensures var row := BuildCandidate(codec, snapshot, reviewer, raw, now).row;
            row.requestSha == RequestSha(codec, row)
            && row.keyHash == Digest(codec, Digest(codec, Trim(reviewer)) + NUL + Trim(raw.key))
  {
    ReadyMeans(codec, snapshot, reviewer, raw, now);
    var command := TrimCommand(raw);
    CandidateHashes(codec, snapshot, Trim(reviewer), command, FindCase(snapshot.cases, command.caseId).value,
                    NormalizeReasons(command.decision, command.reasonCodes).value, now);
    CandidateContent(codec, snapshot, reviewer, raw, now);
  }

  /** With fresh reads, a submission creates its row if and only if its key is new, it expects the revision the
      case is at, and its hash is new. */
  lemma FreshSubmitCreates(codec: Codec, library: set<Snapshot>, rows: seq<Row>, snapshot: Snapshot, reviewer: string,
                           raw: Command, now: Time)
    requires codec.Good() && Library(library) && snapshot in library && SubmissionsOnly(codec, library, rows)
    requires Truncate(now) != 0 && BuildCandidate(codec, snapshot, reviewer, raw, now).Ready?
    ensures var row := BuildCandidate(codec, snapshot, reviewer, raw, now).row;
            var (rows', result) := SubmitStep(codec, rows, Some(snapshot), reviewer, raw, now, |rows|, |rows|);
            (rows' == rows + [row] && result.Accepted? && result.receipt.created) <==>
            && (forall other | other in rows :: other.keyHash != row.keyHash && other.reviewSha != row.reviewSha)
            && raw.expectedRevision == CountGroup(rows, GroupOf(row)) && raw.expectedRevision < MAX_INT64
  {
    var row := BuildCandidate(codec, snapshot, reviewer, raw, now).row;
    SubmitAnswersTheTransaction(codec, library, rows, snapshot, reviewer, raw, now, |rows|, |rows|);
    ReadyIsBuilt(codec, library, snapshot, reviewer, raw, now);
    forall other | other in rows ensures other.id == other.reviewSha {
      ReplayedIsValid(codec, library, rows, other);
    }
    if raw.expectedRevision < MAX_INT64 {
      FreshAppendCreates(rows, row);
    } else {
      WrappedRevisionConflicts(rows, row);
    }
    AppendChanges(rows, row, |rows|, |rows|);
  }

  lemma WrappedRevisionConflicts(rows: seq<Row>, row: Row)
    requires Contiguous(rows) && row.revision < 1
    ensures !AppendStep(rows, row, |rows|, |rows|).1.Created?
  {
    FullPrefix(rows);
    LatestIsCount(rows, GroupOf(row));
  }

  lemma FreshAppendCreates(rows: seq<Row>, row: Row)
    requires Contiguous(rows) && row.revision == row.expectedRevision + 1 && row.id == row.reviewSha
    requires forall other | other in rows :: other.id == other.reviewSha
    ensures AppendStep(rows, row, |rows|, |rows|).1.Created? <==>
            && (forall other | other in rows :: other.keyHash != row.keyHash && other.reviewSha != row.reviewSha)
            && row.expectedRevision == CountGroup(rows, GroupOf(row))
  {
    FindKeyFinds(rows, row.keyHash);
    FreshAppendIs(rows, row);
    if FindKey(rows, row.keyHash).None? && row.expectedRevision == CountGroup(rows, GroupOf(row)) {
      NextRevisionIsFree(rows, row);
      OnlyHashesClash(rows, row);
    }
  }

  lemma FreshAppendIs(rows: seq<Row>, row: Row)
    requires Contiguous(rows) && row.revision == row.expectedRevision + 1
    ensures AppendStep(rows, row, |rows|, |rows|).1.Created? <==>
            && FindKey(rows, row.keyHash).None?
            && row.expectedRevision == CountGroup(rows, GroupOf(row))
            && Insert(rows, row).1.Created?
  {
    FullPrefix(rows);
    LatestIsCount(rows, GroupOf(row));
  }

  lemma OnlyHashesClash(rows: seq<Row>, row: Row)
    requires forall other | other in rows ::
               other.keyHash != row.keyHash && (GroupOf(other) == GroupOf(row) ==> other.revision != row.revision)
    requires row.id == row.reviewSha && forall other | other in rows :: other.id == other.reviewSha
    ensures Insert(rows, row).1.Created? <==> forall other | other in rows :: other.reviewSha != row.reviewSha
  {
    forall other | other in rows ensures Clash(other, row) <==> other.reviewSha == row.reviewSha {
    }
    if exists i | 0 <= i < |rows| :: Clash(rows[i], row) {
      var i :| 0 <= i < |rows| && Clash(rows[i], row);
      assert rows[i] in rows;
    }
    forall other | other in rows && Clash(other, row) ensures Insert(rows, row).1 == DatabaseError {
      var i :| 0 <= i < |rows| && rows[i] == other;
      assert Clash(rows[i], row);
    }
  }

  lemma NextRevisionIsFree(rows: seq<Row>, row: Row)
    requires Contiguous(rows) && row.revision == CountGroup(rows, GroupOf(row)) + 1
    ensures forall other | other in rows && GroupOf(other) == GroupOf(row) :: other.revision != row.revision
  {
    forall other | other in rows && GroupOf(other) == GroupOf(row) ensures other.revision != row.revision {
      var i :| 0 <= i < |rows| && rows[i] == other;
      RevisionWithinCount(rows, i);
    }
  }
}
