/** Which submissions are refused, and with what; and what the others are told. */
module ReviewRefusals {
  import opened Text
  import opened Sequences
  import opened Options
  import opened Integers
  import opened ReviewLedger
  import opened ReviewRules
  import opened ReviewProgress
  import opened ReviewEvidence
  import opened ReviewService

  // ----- reasons -----

  /** Where a reason is given: blanks are none. */
  function Given(values: seq<string>): set<nat> {
    set i: nat | i < |values| && Trim(values[i]) != ""
  }

  ghost predicate GivenOnce(values: seq<string>) {
    forall i: nat, j: nat | i < j < |values| && Trim(values[i]) == Trim(values[j]) :: Trim(values[i]) == ""
  }

  /** An approval comes with its one reason, a rejection with one to three different ones out of nine. */
  ghost predicate ReasonsFit(decision: string, values: seq<string>) {
    || (decision == "approved" && |Given(values)| == 1
        && forall i | i in Given(values) :: Trim(values[i]) == "label_verified")
    || (decision == "rejected" && 1 <= |Given(values)| <= 3 && GivenOnce(values)
        && forall i | i in Given(values) ::
             Trim(values[i]) in {"ambiguous_input", "expected_result_incorrect", "missing_context", "schema_issue",
                                 "unsafe_or_sensitive", "provenance_missing", "criterion_not_independent",
                                 "scenario_not_representative", "not_discriminative"})
  }

  ghost predicate GivenAs(values: seq<string>, reason: string) {
    exists i: nat :: i < |values| && Trim(values[i]) == reason && reason != ""
  }

  lemma {:induction false} KeptSize(values: seq<string>)
    ensures |Kept(values)| == |Given(values)|
  {
    if values != [] {
      var n := |values| - 1;
      KeptSize(values[..n]);
      assert Given(values) == Given(values[..n]) + if Trim(values[n]) == "" then {} else {n};
    }
  }

  lemma GivenAsStep(values: seq<string>, reason: string)
    requires values != []
    ensures var n := |values| - 1;
            GivenAs(values, reason) <==> GivenAs(values[..n], reason) || (reason == Trim(values[n]) && reason != "")
  {
    var n := |values| - 1;
    if GivenAs(values[..n], reason) {
      var i: nat :| i < n && Trim(values[..n][i]) == reason && reason != "";
      assert values[i] == values[..n][i];
    }
    if GivenAs(values, reason) {
      var i: nat :| i < |values| && Trim(values[i]) == reason && reason != "";
      if i < n {
        assert values[..n][i] == values[i];
      }
    }
  }

  lemma {:induction false} KeptIsGiven(values: seq<string>, reason: string)
    ensures reason in Kept(values) <==> GivenAs(values, reason)
  {
    if values != [] {
      KeptIsGiven(values[..|values| - 1], reason);
      GivenAsStep(values, reason);
    }
  }

  lemma GivenOnceStep(values: seq<string>)
    requires values != []
    ensures var n := |values| - 1;
            GivenOnce(values) <==> GivenOnce(values[..n]) && !GivenAs(values[..n], Trim(values[n]))
  {
    var n := |values| - 1;
    var front := values[..n];
    if GivenOnce(values) {
      forall i: nat, j: nat | i < j < n && Trim(front[i]) == Trim(front[j]) ensures Trim(front[i]) == "" {
        assert front[i] == values[i] && front[j] == values[j];
      }
    } else {
      var i: nat, j: nat :| i < j < |values| && Trim(values[i]) == Trim(values[j]) && Trim(values[i]) != "";
      assert front[i] == values[i];
      if j < n {
        assert front[j] == values[j];
      }
    }
  }

  lemma {:induction false} KeptOnce(values: seq<string>)
    ensures Distinct(Kept(values)) <==> GivenOnce(values)
  {
    if values != [] {
      var n := |values| - 1;
      KeptOnce(values[..n]);
      GivenOnceStep(values);
      KeptIsGiven(values[..n], Trim(values[n]));
      if Trim(values[n]) != "" {
        DistinctSnoc(Kept(values[..n]), Trim(values[n]));
      } else {
        assert Kept(values) == Kept(values[..n]);
      }
    }
  }

  lemma SortedIsGiven(values: seq<string>, reason: string)
    ensures reason in SortStrings(Kept(values)) <==> GivenAs(values, reason)
  {
    SortBySorts(Itself, Kept(values));
    KeptIsGiven(values, reason);
    if reason in SortStrings(Kept(values)) {
      SameMembers(SortStrings(Kept(values)), Kept(values), reason);
    }
    if reason in Kept(values) {
      SameMembers(Kept(values), SortStrings(Kept(values)), reason);
    }
  }

  lemma OnlyGiven(values: seq<string>, allowed: set<string>)
    ensures (forall reason | GivenAs(values, reason) :: reason in allowed) <==>
            (forall i | i in Given(values) :: Trim(values[i]) in allowed)
  {
    if forall reason | GivenAs(values, reason) :: reason in allowed {
      forall i | i in Given(values) ensures Trim(values[i]) in allowed {
        assert GivenAs(values, Trim(values[i]));
      }
    }
  }

  lemma ApprovalSuits(values: seq<string>, reasons: seq<string>)
    requires |reasons| == |Given(values)| && forall reason :: reason in reasons <==> GivenAs(values, reason)
    ensures Suits("approved", reasons) <==> ReasonsFit("approved", values)
  {
    OnlyGiven(values, {"label_verified"});
    if |reasons| == 1 {
      assert reasons[0] in reasons;
    }
  }

  lemma RejectionSuits(values: seq<string>, reasons: seq<string>)
    requires |reasons| == |Given(values)| && forall reason :: reason in reasons <==> GivenAs(values, reason)
    ensures Suits("rejected", reasons) && GivenOnce(values) <==> ReasonsFit("rejected", values)
  {
    OnlyGiven(values, AllowedReasons());
    if Suits("rejected", reasons) {
      forall reason | reason in reasons ensures reason in AllowedReasons() {
      }
    }
  }

  lemma OneGivenOnce(values: seq<string>)
    requires |Given(values)| == 1
    ensures GivenOnce(values)
  {
    forall i: nat, j: nat | i < j < |values| && Trim(values[i]) == Trim(values[j]) ensures Trim(values[i]) == "" {
      if Trim(values[i]) != "" {
        SubsetIsSmaller({i, j}, Given(values));
      }
    }
  }

  /** Normalizing succeeds exactly on reasons that fit, and keeps exactly the reasons given. */
  lemma NormalizedExactly(decision: string, values: seq<string>)
    ensures NormalizeReasons(decision, values).Some? <==> ReasonsFit(decision, values)
    ensures NormalizeReasons(decision, values).Some? ==>
              var reasons := NormalizeReasons(decision, values).value;
              && |reasons| == |Given(values)| && SortedBy(Itself, reasons)
              && forall reason :: reason in reasons <==> GivenAs(values, reason)
  {
    var reasons := SortStrings(Kept(values));
    KeptSize(values);
    KeptOnce(values);
    SortBySorts(Itself, Kept(values));
    forall reason ensures reason in reasons <==> GivenAs(values, reason) {
      SortedIsGiven(values, reason);
    }
    if decision == "approved" {
      ApprovalSuits(values, reasons);
      if |Given(values)| == 1 {
        OneGivenOnce(values);
      }
    } else if decision == "rejected" {
      RejectionSuits(values, reasons);
    }
  }

  // ----- screening -----

  predicate InAlphabet(c: char) {
    c in "ABCDEFGHIJKLMNOPQRSTUVWXYZ" || c in "abcdefghijklmnopqrstuvwxyz" || c in "0123456789" || c in "._:-"
  }

  lemma UpperCase(c: char)
    ensures 'A' <= c <= 'Z' <==> c in "ABCDEFGHIJKLMNOPQRSTUVWXYZ"
  {
    var letters := "ABCDEFGHIJKLMNOPQRSTUVWXYZ";
    if 'A' <= c <= 'Z' {
      assert letters[c as int - 'A' as int] == c;
    }
  }

  lemma LowerCase(c: char)
    ensures 'a' <= c <= 'z' <==> c in "abcdefghijklmnopqrstuvwxyz"
  {
    var letters := "abcdefghijklmnopqrstuvwxyz";
    if 'a' <= c <= 'z' {
      assert letters[c as int - 'a' as int] == c;
    }
  }

  lemma Digit(c: char)
    ensures '0' <= c <= '9' <==> c in "0123456789"
  {
    var digits := "0123456789";
    if '0' <= c <= '9' {
      assert digits[c as int - '0' as int] == c;
    }
  }

  lemma Mark(c: char)
    ensures c == '.' || c == '_' || c == ':' || c == '-' <==> c in "._:-"
  {
  }

  lemma KeyAlphabet(c: char)
    ensures KeyChar(c) <==> InAlphabet(c)
  {
    UpperCase(c);
    LowerCase(c);
    Digit(c);
    Mark(c);
  }

  /** What can be said of a command before any catalog is looked at. */
  ghost predicate MayReview(reviewer: string, raw: Command) {
    && Trim(reviewer) != "" && raw.expectedRevision >= 0
    && raw.acknowledgment == "I_REVIEWED_CASE_AND_EXPECTED_RESULT"
    && 16 <= |Trim(raw.key)| <= 128 && (forall c | c in Trim(raw.key) :: InAlphabet(c))
    && |Trim(raw.comment)| <= 4000
    && ReasonsFit(Trim(raw.decision), raw.reasonCodes)
  }

  /** The screening lets a command through exactly then, with the reasons given in it. */
  lemma ScreenExactly(reviewer: string, raw: Command)
    ensures Screen(reviewer, TrimCommand(raw)).Some? <==> MayReview(reviewer, raw)
    ensures Screen(reviewer, TrimCommand(raw)).Some? ==>
              var reasons := Screen(reviewer, TrimCommand(raw)).value;
              && |reasons| == |Given(raw.reasonCodes)| && SortedBy(Itself, reasons)
              && forall reason :: reason in reasons <==> GivenAs(raw.reasonCodes, reason)
  {
    NormalizedExactly(Trim(raw.decision), raw.reasonCodes);
    KeyIsSpelled(Trim(raw.key));
  }

  lemma KeyIsSpelled(key: string)
    ensures KeyOk(key) <==> 16 <= |key| <= 128 && forall c | c in key :: InAlphabet(c)
  {
    forall c | c in key ensures KeyChar(c) <==> InAlphabet(c) {
      KeyAlphabet(c);
    }
    if forall c | c in key :: InAlphabet(c) {
      forall i | 0 <= i < |key| ensures KeyChar(key[i]) {
        KeyAlphabet(key[i]);
      }
    }
  }

  // ----- the catalog of a command -----

  /** The command was made from a page of this very catalog. */
  predicate Current(snapshot: Snapshot, raw: Command) {
    Trim(raw.catalogSha) == snapshot.catalogSha && Trim(raw.governanceSha) == snapshot.governanceSha
  }

  predicate Lists(snapshot: Snapshot, raw: Command) {
    exists item | item in snapshot.cases :: item.id == Trim(raw.caseId)
  }

  predicate ListsUnchanged(snapshot: Snapshot, raw: Command) {
    exists item | item in snapshot.cases :: item.id == Trim(raw.caseId) && item.caseSha == Trim(raw.caseSha)
  }

  lemma FindCaseListed(snapshot: Snapshot, raw: Command)
    requires ValidSnapshot(snapshot)
    ensures var found := FindCase(snapshot.cases, Trim(raw.caseId));
            && (found.Some? <==> Lists(snapshot, raw))
            && (found.Some? && found.value.caseSha == Trim(raw.caseSha) <==> ListsUnchanged(snapshot, raw))
  {
    FindCaseFinds(snapshot.cases, Trim(raw.caseId));
    if ListsUnchanged(snapshot, raw) {
      var item :| item in snapshot.cases && item.id == Trim(raw.caseId) && item.caseSha == Trim(raw.caseSha);
      var found := FindCase(snapshot.cases, Trim(raw.caseId)).value;
      var i, j :| 0 <= i < |snapshot.cases| && 0 <= j < |snapshot.cases|
                  && snapshot.cases[i] == item && snapshot.cases[j] == found;
    }
  }

  /** A command that may become a row. */
  ghost predicate Acceptable(snapshot: Snapshot, reviewer: string, raw: Command) {
    MayReview(reviewer, raw) && Current(snapshot, raw) && ListsUnchanged(snapshot, raw)
  }

  /** Why a command does not become a row. */
  ghost predicate RefusedAs(snapshot: Snapshot, reviewer: string, raw: Command, error: Error) {
    match error
    case InvalidReview => !MayReview(reviewer, raw)
    case CaseNotFound => MayReview(reviewer, raw) && Current(snapshot, raw) && !Lists(snapshot, raw)
    case RevisionChanged =>
      MayReview(reviewer, raw)
      && (!Current(snapshot, raw) || (Lists(snapshot, raw) && !ListsUnchanged(snapshot, raw)))
    case _ => false
  }

  lemma BuiltExactly(codec: Codec, snapshot: Snapshot, reviewer: string, raw: Command, now: Time)
    requires ValidSnapshot(snapshot)
    ensures var build := BuildCandidate(codec, snapshot, reviewer, raw, now);
            && (build.Ready? <==> Acceptable(snapshot, reviewer, raw))
            && (build.Refused? ==> RefusedAs(snapshot, reviewer, raw, build.error))
  {
    ScreenExactly(reviewer, raw);
    FindCaseListed(snapshot, raw);
  }

  /** Over any table of submissions, whatever its reads see: a command that fails the screening, that was made from
      another catalog, whose case is not listed or has changed since leaves the table alone and is told so; every
      other command reaches the transaction and is told what that did. */
  lemma SubmitExactly(codec: Codec, library: set<Snapshot>, rows: seq<Row>, snapshot: Snapshot, reviewer: string,
                      raw: Command, now: Time, keyView: nat, latestView: nat)
    requires codec.Good() && Library(library) && snapshot in library && SubmissionsOnly(codec, library, rows)
    requires keyView <= |rows| && latestView <= |rows| && Truncate(now) != 0
    ensures var after := SubmitStep(codec, rows, Some(snapshot), reviewer, raw, now, keyView, latestView);
            && (forall error | RefusedAs(snapshot, reviewer, raw, error) :: after == (rows, Failed(error)))
            && (Acceptable(snapshot, reviewer, raw) <==>
                  forall error | error in {InvalidReview, CaseNotFound, RevisionChanged} ::
                    !RefusedAs(snapshot, reviewer, raw, error))
            && (Acceptable(snapshot, reviewer, raw) ==>
                  var build := BuildCandidate(codec, snapshot, reviewer, raw, now);
                  build.Ready? && Reports(codec, rows, AppendStep(rows, build.row, keyView, latestView).1, after))
  {
    ScreenExactly(reviewer, raw);
    BuiltExactly(codec, snapshot, reviewer, raw, now);
    if Acceptable(snapshot, reviewer, raw) {
      SubmitAnswersTheTransaction(codec, library, rows, snapshot, reviewer, raw, now, keyView, latestView);
    } else if MayReview(reviewer, raw) {
      ListLatestLoads(codec, library, snapshot, ScopeOf(codec, snapshot, reviewer), rows);
      SubmitCommits(codec, rows, snapshot, reviewer, raw, now, keyView, latestView);
    }
  }

  /** A catalog that does not load is only noticed by a command that passes the screening. */
  lemma NoCatalogNoSubmission(codec: Codec, rows: seq<Row>, reviewer: string, raw: Command, now: Time, keyView: nat,
                              latestView: nat)
    requires keyView <= |rows| && latestView <= |rows|
    ensures SubmitStep(codec, rows, None, reviewer, raw, now, keyView, latestView)
         == (rows, Failed(if MayReview(reviewer, raw) then ArtifactUnavailable else InvalidReview))
  {
    ScreenExactly(reviewer, raw);
  }

  // ----- the transaction, read freshly -----

  predicate KeyTaken(rows: seq<Row>, row: Row) {
    exists other | other in rows :: other.keyHash == row.keyHash
  }

  predicate HashTaken(rows: seq<Row>, row: Row) {
    exists other | other in rows :: other.reviewSha == row.reviewSha
  }

  /** The row takes the revision after the last one of its group. */
  predicate NextInLine(rows: seq<Row>, row: Row) {
    row.expectedRevision == CountGroup(rows, GroupOf(row)) && row.revision == row.expectedRevision + 1
  }

  lemma FreshKeyDecides(rows: seq<Row>, row: Row, other: Row)
    requires IndexesHold(rows) && other in rows && other.keyHash == row.keyHash
    ensures AppendStep(rows, row, |rows|, |rows|)
         == (rows, if other.requestSha == row.requestSha then Replayed(other) else IdempotencyConflict)
  {
    FullPrefix(rows);
    FindKeyFinds(rows, row.keyHash);
    KeyIsUnique(rows, FindKey(rows, row.keyHash).value, other);
  }

  lemma FreshRevisionDecides(rows: seq<Row>, row: Row)
    requires Contiguous(rows) && !KeyTaken(rows, row)
    ensures !NextInLine(rows, row) ==> AppendStep(rows, row, |rows|, |rows|) == (rows, RevisionConflict)
    ensures NextInLine(rows, row) ==> AppendStep(rows, row, |rows|, |rows|) == Insert(rows, row)
  {
    FullPrefix(rows);
    FindKeyFinds(rows, row.keyHash);
    LatestIsCount(rows, GroupOf(row));
  }

  lemma FreshInsertDecides(rows: seq<Row>, row: Row)
    requires Contiguous(rows) && !KeyTaken(rows, row) && NextInLine(rows, row) && row.id == row.reviewSha
    requires forall other | other in rows :: other.id == other.reviewSha
    ensures Insert(rows, row) == if HashTaken(rows, row) then (rows, DatabaseError) else (rows + [row], Created(row))
  {
    NextRevisionIsFree(rows, row);
    OnlyHashesClash(rows, row);
  }

  /** What a submission that may become a row is told when both its reads are fresh. */
  predicate ToldFresh(rows: seq<Row>, row: Row, after: (seq<Row>, Submitted)) {
    if KeyTaken(rows, row) then
      && after.0 == rows
      && forall other | other in rows && other.keyHash == row.keyHash ::
           if other.requestSha == row.requestSha
           then after.1.Accepted? && !after.1.receipt.created && after.1.receipt.row == other
           else after.1 == Failed(KeyReused)
    else if !NextInLine(rows, row) then after == (rows, Failed(RevisionChanged))
    else if HashTaken(rows, row) then after == (rows, Failed(DatabaseFailed))
    else after.0 == rows + [row] && after.1.Accepted? && after.1.receipt.created && after.1.receipt.row == row
  }

  lemma FreshReportIsTold(codec: Codec, rows: seq<Row>, row: Row, after: (seq<Row>, Submitted))
    requires Contiguous(rows) && IndexesHold(rows) && row.id == row.reviewSha
    requires forall other | other in rows :: other.id == other.reviewSha
    requires Reports(codec, rows, AppendStep(rows, row, |rows|, |rows|).1, after)
    ensures ToldFresh(rows, row, after)
  {
    if KeyTaken(rows, row) {
      forall other | other in rows && other.keyHash == row.keyHash
        ensures AppendStep(rows, row, |rows|, |rows|).1
             == if other.requestSha == row.requestSha then Replayed(other) else IdempotencyConflict
      {
        FreshKeyDecides(rows, row, other);
      }
    } else {
      FreshRevisionDecides(rows, row);
      if NextInLine(rows, row) {
        FreshInsertDecides(rows, row);
      }
    }
  }

  /** With fresh reads the five answers to a command that may become a row are decided by the table alone: a used key
      replays its own request and refuses another, an expected revision other than the case's own is a conflict, a
      used hash fails in the database, and the rest is appended. The expected revision is the command's, and the
      largest integer is never followed by another. */
  lemma FreshSubmitExactly(codec: Codec, library: set<Snapshot>, rows: seq<Row>, snapshot: Snapshot, reviewer: string,
                           raw: Command, now: Time)
    requires codec.Good() && Library(library) && snapshot in library && SubmissionsOnly(codec, library, rows)
    requires Truncate(now) != 0 && Acceptable(snapshot, reviewer, raw)
    ensures var build := BuildCandidate(codec, snapshot, reviewer, raw, now);
            && build.Ready?
            && ToldFresh(rows, build.row,
                         SubmitStep(codec, rows, Some(snapshot), reviewer, raw, now, |rows|, |rows|))
            && (NextInLine(rows, build.row) <==>
                  raw.expectedRevision == CountGroup(rows, GroupOf(build.row)) && raw.expectedRevision < MAX_INT64)
  {
    SubmitExactly(codec, library, rows, snapshot, reviewer, raw, now, |rows|, |rows|);
    var row := BuildCandidate(codec, snapshot, reviewer, raw, now).row;
    ReadyIsBuilt(codec, library, snapshot, reviewer, raw, now);
    CandidateRevision(codec, snapshot, reviewer, raw, now);
    forall other | other in rows ensures other.id == other.reviewSha {
      ReplayedIsValid(codec, library, rows, other);
    }
    FreshReportIsTold(codec, rows, row,
                      SubmitStep(codec, rows, Some(snapshot), reviewer, raw, now, |rows|, |rows|));
  }

  // ----- the receipt -----

  /** A receipt speaks of the table as it is now: its row is there, with the reasons stored in it, and every line of
      its progress counts the cases by their last decision. */
  ghost predicate ReceiptTells(codec: Codec, snapshot: Snapshot, scope: Scope, rows: seq<Row>, receipt: Receipt) {
    && receipt.row in rows && codec.decodeReasons(receipt.row.reasonCodesJson) == Some(receipt.reasons)
    && ProgressTells(snapshot, scope, rows, receipt.progress)
  }

  ghost predicate ProgressTells(snapshot: Snapshot, scope: Scope, rows: seq<Row>, p: Progress) {
    && MeansLastDecisions(snapshot, scope, rows, None, TotalLine(p))
    && p.bySlice.Keys == SliceNames(snapshot.cases)
    && (forall slice | slice in p.bySlice :: MeansLastDecisions(snapshot, scope, rows, Some(slice), p.bySlice[slice]))
    && (p.ready <==> forall item | item in snapshot.cases :: LastDecision(rows, scope, item.id) == Some("approved"))
  }

  lemma ListedProgressTells(codec: Codec, snapshot: Snapshot, scope: Scope, rows: seq<Row>)
    requires Sound(codec, snapshot, scope, rows)
    ensures ProgressTells(snapshot, scope, rows, ProgressOf(codec, snapshot, ListLatest(rows, scope)))
  {
    ListLatestIsAView(rows, scope);
    ProgressIsTheHistory(codec, snapshot, scope, rows, ListLatest(rows, scope));
    ReadyMeansAllApproved(codec, snapshot, scope, rows, ListLatest(rows, scope));
  }

  lemma AnswerIsReceipt(codec: Codec, snapshot: Snapshot, scope: Scope, rows: seq<Row>, created: bool, stored: Row)
    ensures var answer := Answer(codec, snapshot, scope, rows, created, stored);
            answer.Accepted? ==>
              && answer.receipt.created == created && answer.receipt.row == stored
              && answer.receipt.progress == ProgressOf(codec, snapshot, ListLatest(rows, scope))
              && codec.decodeReasons(stored.reasonCodesJson) == Some(answer.receipt.reasons)
  {
  }

  lemma AnswerTells(codec: Codec, library: set<Snapshot>, snapshot: Snapshot, scope: Scope, rows: seq<Row>,
                    created: bool, stored: Row)
    requires codec.Good() && Library(library) && snapshot in library && SubmissionsOnly(codec, library, rows)
    requires scope.catalogSha == snapshot.catalogSha && scope.governanceSha == snapshot.governanceSha
    requires stored in rows
    ensures var answer := Answer(codec, snapshot, scope, rows, created, stored);
            answer.Accepted? ==> ReceiptTells(codec, snapshot, scope, rows, answer.receipt)
  {
    SubmissionsAreSound(codec, library, snapshot, scope, rows);
    ListedProgressTells(codec, snapshot, scope, rows);
    AnswerIsReceipt(codec, snapshot, scope, rows, created, stored);
  }

  lemma CommitTells(codec: Codec, library: set<Snapshot>, snapshot: Snapshot, scope: Scope, rows: seq<Row>,
                    candidate: Row, keyView: nat, latestView: nat)
    requires codec.Good() && Library(library) && snapshot in library && SubmissionsOnly(codec, library, rows)
    requires scope.catalogSha == snapshot.catalogSha && scope.governanceSha == snapshot.governanceSha
    requires keyView <= |rows| && latestView <= |rows| && Built(codec, library, candidate)
    ensures var (rows', result) := Commit(codec, rows, snapshot, scope, candidate, keyView, latestView);
            result.Accepted? ==> ReceiptTells(codec, snapshot, scope, rows', result.receipt)
  {
    AppendKeepsSubmissions(codec, library, rows, candidate, keyView, latestView);
    AppendChanges(rows, candidate, keyView, latestView);
    var (rows', outcome) := AppendStep(rows, candidate, keyView, latestView);
    if outcome.Created? || outcome.Replayed? {
      AnswerTells(codec, library, snapshot, scope, rows', outcome.Created?, outcome.row);
    }
  }

  /** Whatever the reads saw, a receipt tells the table it leaves behind, and the row of a new review holds the
      command: who reviews which case, as what, for which reasons. */
  lemma SubmitTells(codec: Codec, library: set<Snapshot>, rows: seq<Row>, snapshot: Snapshot, reviewer: string,
                    raw: Command, now: Time, keyView: nat, latestView: nat)
    requires codec.Good() && Library(library) && snapshot in library && SubmissionsOnly(codec, library, rows)
    requires keyView <= |rows| && latestView <= |rows| && Truncate(now) != 0
    ensures var (rows', result) := SubmitStep(codec, rows, Some(snapshot), reviewer, raw, now, keyView, latestView);
            result.Accepted? ==>
              && Acceptable(snapshot, reviewer, raw)
              && ReceiptTells(codec, snapshot, ScopeOf(codec, snapshot, reviewer), rows', result.receipt)
              && (result.receipt.created ==> HoldsCommand(codec, reviewer, raw, result.receipt))
  {
    SubmitExactly(codec, library, rows, snapshot, reviewer, raw, now, keyView, latestView);
    if Acceptable(snapshot, reviewer, raw) {
      var scope := ScopeOf(codec, snapshot, reviewer);
      var row := BuildCandidate(codec, snapshot, reviewer, raw, now).row;
      ScreenExactly(reviewer, raw);
      ReadyIsBuilt(codec, library, snapshot, reviewer, raw, now);
      ListLatestLoads(codec, library, snapshot, scope, rows);
      SubmitCommits(codec, rows, snapshot, reviewer, raw, now, keyView, latestView);
      CommitTells(codec, library, snapshot, scope, rows, row, keyView, latestView);
      AppendChanges(rows, row, keyView, latestView);
      RowHoldsCommand(codec, snapshot, reviewer, raw, now);
    }
  }

  /** The reasons of a receipt are the ones given, and its row names the reviewer and the case. */
  ghost predicate HoldsCommand(codec: Codec, reviewer: string, raw: Command, receipt: Receipt) {
    && RowHolds(codec, reviewer, raw, receipt.row)
    && forall reason :: reason in receipt.reasons <==> GivenAs(raw.reasonCodes, reason)
  }

  ghost predicate RowHolds(codec: Codec, reviewer: string, raw: Command, row: Row) {
    && row.reviewerHash == codec.sha(Trim(reviewer)) && row.caseId == Trim(raw.caseId)
    && row.caseSha == Trim(raw.caseSha) && row.catalogSha == Trim(raw.catalogSha)
    && row.governanceSha == Trim(raw.governanceSha) && row.decision == Trim(raw.decision)
    && row.comment == Trim(raw.comment) && row.expectedRevision == raw.expectedRevision
    && codec.decodeReasons(row.reasonCodesJson).Some?
    && forall reason :: reason in codec.decodeReasons(row.reasonCodesJson).value <==> GivenAs(raw.reasonCodes, reason)
  }

  lemma RowHoldsCommand(codec: Codec, snapshot: Snapshot, reviewer: string, raw: Command, now: Time)
    requires codec.Good() && ValidSnapshot(snapshot) && Acceptable(snapshot, reviewer, raw)
    ensures var build := BuildCandidate(codec, snapshot, reviewer, raw, now);
            build.Ready? && RowHolds(codec, reviewer, raw, build.row)
  {
    BuiltExactly(codec, snapshot, reviewer, raw, now);
    CandidateContent(codec, snapshot, reviewer, raw, now);
    CandidateCase(codec, snapshot, reviewer, raw, now);
    TrimIsTrimmed(reviewer);
    TrimIsTrimmed(Trim(reviewer));
    NormalizedExactly(Trim(raw.decision), raw.reasonCodes);
    var reasons := NormalizeReasons(Trim(raw.decision), raw.reasonCodes).value;
    assert codec.decodeReasons(codec.encodeReasons(reasons)) == Some(reasons);
  }

  lemma CandidateCase(codec: Codec, snapshot: Snapshot, reviewer: string, raw: Command, now: Time)
    requires ValidSnapshot(snapshot) && BuildCandidate(codec, snapshot, reviewer, raw, now).Ready?
    requires Acceptable(snapshot, reviewer, raw)
    ensures var row := BuildCandidate(codec, snapshot, reviewer, raw, now).row;
            && row.caseSha == Trim(raw.caseSha) && row.catalogSha == Trim(raw.catalogSha)
            && row.governanceSha == Trim(raw.governanceSha)
  {
    FindCaseListed(snapshot, raw);
    ReadyMeans(codec, snapshot, reviewer, raw, now);
  }

  // ----- rows that do not belong -----

  /** One latest row of this reviewer that is not valid, and nothing can be submitted any more. */
  lemma SpoiledRowBlocksSubmission(codec: Codec, rows: seq<Row>, snapshot: Snapshot, reviewer: string, raw: Command,
                                   now: Time, keyView: nat, latestView: nat, spoiled: Row)
    requires keyView <= |rows| && latestView <= |rows| && IndexesHold(rows) && MayReview(reviewer, raw)
    requires spoiled in rows && IsLatest(rows, spoiled) && InScope(spoiled, ScopeOf(codec, snapshot, reviewer))
    requires !ValidReview(codec, spoiled)
    ensures SubmitStep(codec, rows, Some(snapshot), reviewer, raw, now, keyView, latestView)
         == (rows, Failed(ArtifactUnavailable))
  {
    ScreenExactly(reviewer, raw);
    var scope := ScopeOf(codec, snapshot, reviewer);
    ListLatestIsAView(rows, scope);
    assert spoiled in ListLatest(rows, scope);
  }
}
