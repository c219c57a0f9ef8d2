/** What an exported evidence snapshot says about the history of reviews, and what its validator leaves open. */
module EvidenceMeaning {
  import opened Text
  import opened Sequences
  import opened Options
  import opened ReviewLedger
  import opened ReviewRules
  import opened ReviewProgress
  import opened ReviewEvidence
  import opened ReviewRefusals

  // ----- an exported snapshot -----

  predicate EntryTells(codec: Codec, entry: Entry, row: Row) {
    && entry.caseId == row.caseId && entry.slice == row.slice && entry.caseSha == row.caseSha
    && entry.revision == row.revision && entry.decision == row.decision && entry.reviewSha == row.reviewSha
    && entry.reviewedAt == row.createdAt && codec.decodeReasons(row.reasonCodesJson) == Some(entry.reasons)
  }

  /** The entry is the last review of its case. */
  predicate TellsLast(codec: Codec, scope: Scope, rows: seq<Row>, entry: Entry) {
    var last := LastOf(rows, GroupIn(scope, entry.caseId));
    last.Some? && EntryTells(codec, entry, last.value)
  }

  /** One entry for every case that was reviewed, and no other. */
  ghost predicate EntriesTell(codec: Codec, scope: Scope, rows: seq<Row>, entries: seq<Entry>) {
    && (forall entry | entry in entries :: TellsLast(codec, scope, rows, entry))
    && (forall row | row in rows
        && InScope(row, scope) :: exists entry :: entry in entries && entry.caseId == row.caseId)
    && (forall i, j | 0 <= i < j < |entries| :: Less(entries[i].caseId, entries[j].caseId))
  }

  /** The time of the last review, if there was one. */
  predicate TimeTells(entries: seq<Entry>, latest: Option<Time>) {
    match latest
    case None => entries == []
    case Some(at) =>
      (exists i | 0 <= i < |entries| :: entries[i].reviewedAt == at) && forall e | e in entries :: e.reviewedAt <= at
  }

  /** What the snapshot says of the catalog, of every case and of the whole. */
  ghost predicate EvidenceTells(codec: Codec, encode: Evidence -> string, snapshot: Snapshot, scope: Scope,
                                rows: seq<Row>, report: Evidence) {
    && report.datasetVersion == snapshot.datasetVersion && report.catalogSha == snapshot.catalogSha
    && report.governanceSha == snapshot.governanceSha
    && MeansLastDecisions(snapshot, scope, rows, None, LineOf(report))
    && (report.ready <==>
          forall item | item in snapshot.cases :: LastDecision(rows, scope, item.id) == Some("approved"))
    && EntriesTell(codec, scope, rows, report.entries) && TimeTells(report.entries, report.lastReviewedAt)
    && report.snapshotSha == codec.sha(Trim(encode(report.(snapshotSha := ""))))
  }

  function LineOf(report: Evidence): SliceProgress {
    SliceProgress(report.total, report.reviewed, report.approved, report.rejected, report.pending)
  }

  lemma ViewIsLast(codec: Codec, snapshot: Snapshot, scope: Scope, rows: seq<Row>, view: seq<Row>, row: Row)
    requires Sound(codec, snapshot, scope, rows) && LatestView(rows, scope, view)
    ensures row in view <==> LastOf(rows, GroupIn(scope, row.caseId)) == Some(row)
  {
    LatestIsLast(rows, row);
    LastOfIsLatest(rows, GroupIn(scope, row.caseId));
  }

  lemma ExportedEntry(codec: Codec, snapshot: Snapshot, reviews: seq<Row>, entry: Entry) returns (row: Row)
    requires Consistent(codec, snapshot, reviews) && entry in SortBy(EntryCase, EntriesOf(codec, reviews))
    ensures row in reviews && EntryTells(codec, entry, row)
  {
    var entries := EntriesOf(codec, reviews);
    SortBySorts(EntryCase, entries);
    SameMembers(SortBy(EntryCase, entries), entries, entry);
    var i :| 0 <= i < |entries| && entries[i] == entry;
    EntryAt(codec, reviews, i);
    row := reviews[i];
    assert RowBelongs(codec, snapshot, reviews[i]);
  }

  lemma ExportedRow(codec: Codec, reviews: seq<Row>, row: Row)
    requires row in reviews
    ensures EntryOf(codec, row) in SortBy(EntryCase, EntriesOf(codec, reviews))
  {
    var entries := EntriesOf(codec, reviews);
    var i :| 0 <= i < |reviews| && reviews[i] == row;
    EntryAt(codec, reviews, i);
    SortBySorts(EntryCase, entries);
    SameMembers(entries, SortBy(EntryCase, entries), entries[i]);
  }

  lemma ReviewedCaseIsLast(codec: Codec, snapshot: Snapshot, scope: Scope, rows: seq<Row>, view: seq<Row>, row: Row)
    returns (last: Row)
    requires Sound(codec, snapshot, scope, rows) && LatestView(rows, scope, view)
    requires row in rows && InScope(row, scope)
    ensures last in view && last.caseId == row.caseId
  {
    var g := GroupIn(scope, row.caseId);
    assert GroupOf(row) == g;
    LastOfIsLatest(rows, g);
    last := LastOf(rows, g).value;
    ViewIsLast(codec, snapshot, scope, rows, view, last);
  }

  lemma ExportedEntriesTell(codec: Codec, snapshot: Snapshot, scope: Scope, rows: seq<Row>, view: seq<Row>)
    requires Sound(codec, snapshot, scope, rows) && LatestView(rows, scope, view)
    ensures EntriesTell(codec, scope, rows, SortBy(EntryCase, EntriesOf(codec, view)))
  {
    var sorted := SortBy(EntryCase, EntriesOf(codec, view));
    LatestViewIsConsistent(codec, snapshot, scope, rows, view);
    forall entry | entry in sorted ensures TellsLast(codec, scope, rows, entry) {
      var row := ExportedEntry(codec, snapshot, view, entry);
      ViewIsLast(codec, snapshot, scope, rows, view, row);
    }
    forall row | row in rows
    && InScope(row, scope) ensures exists entry :: entry in sorted && entry.caseId == row.caseId {
      var last := ReviewedCaseIsLast(codec, snapshot, scope, rows, view, row);
      ExportedRow(codec, view, last);
    }
    SortedEntriesAscend(codec, view);
    forall i, j | 0 <= i < j < |sorted| ensures Less(sorted[i].caseId, sorted[j].caseId) {
      AscendingIsBelow(sorted, i, j);
    }
  }

  lemma LatestTimeTells(entries: seq<Entry>)
    ensures TimeTells(entries, LatestTime(entries))
  {
    LatestTimeIsMax(entries);
    if entries != [] {
      var e :| e in entries && e.reviewedAt == LatestTime(entries).value;
      var i :| 0 <= i < |entries| && entries[i] == e;
    }
  }

  lemma SealedDraft(codec: Codec, encode: Evidence -> string, snapshot: Snapshot, reviews: seq<Row>)
    requires EvidenceOf(codec, encode, snapshot, reviews).Some?
    ensures var report, draft := EvidenceOf(codec, encode, snapshot, reviews).value, Draft(codec, snapshot, reviews);
            && report.(snapshotSha := "") == draft
            && report.snapshotSha == codec.sha(Trim(encode(report.(snapshotSha := ""))))
            && report.lastReviewedAt == LatestTime(report.entries)
  {
  }

  /** An exported snapshot tells the history it was made from: every reviewed case with its last review, the counts of
      the cases by their last decision, whether all are approved, when the last review was, and its own hash. */
  lemma EvidenceTellsTheHistory(codec: Codec, encode: Evidence -> string, snapshot: Snapshot, scope: Scope,
                                rows: seq<Row>, view: seq<Row>)
    requires Sound(codec, snapshot, scope, rows) && LatestView(rows, scope, view)
    requires EvidenceOf(codec, encode, snapshot, view).Some?
    ensures EvidenceTells(codec, encode, snapshot, scope, rows, EvidenceOf(codec, encode, snapshot, view).value)
  {
    SealedDraft(codec, encode, snapshot, view);
    ProgressIsTheHistory(codec, snapshot, scope, rows, view);
    ReadyMeansAllApproved(codec, snapshot, scope, rows, view);
    ExportedEntriesTell(codec, snapshot, scope, rows, view);
    LatestTimeTells(EvidenceOf(codec, encode, snapshot, view).value.entries);
  }

  function WithDecision(entries: seq<Entry>, decision: string): set<Entry> {
    set e | e in entries && e.decision == decision
  }

  /** The number of entries with a decision; no two entries are the same. */
  function Decisions(entries: seq<Entry>, decision: string): nat {
    |WithDecision(entries, decision)|
  }

  function DecidedEntries(codec: Codec, reviews: seq<Row>, decision: string): set<Entry> {
    set row | row in reviews && row.decision == decision :: EntryOf(codec, row)
  }

  lemma DecidedEntriesStep(codec: Codec, front: seq<Row>, row: Row, decision: string)
    ensures DecidedEntries(codec, front + [row], decision)
         == DecidedEntries(codec, front, decision) + if row.decision == decision then {EntryOf(codec, row)} else {}
  {
  }

  lemma {:induction false} CountIsDecided(codec: Codec, reviews: seq<Row>, decision: string)
    requires DistinctCases(reviews)
    ensures Count(reviews, None, Some(decision)) == |DecidedEntries(codec, reviews, decision)|
  {
    if reviews != [] {
      var n := |reviews| - 1;
      var front, row := reviews[..n], reviews[n];
      assert reviews == front + [row];
      CountIsDecided(codec, front, decision);
      CountStep(front, row, None, Some(decision));
      DecidedEntriesStep(codec, front, row, decision);
      forall other | other in front ensures EntryOf(codec, other) != EntryOf(codec, row) {
        var i :| 0 <= i < n && front[i] == other;
        assert reviews[i].caseId != reviews[n].caseId;
      }
    }
  }

  lemma SortedDecisions(codec: Codec, snapshot: Snapshot, reviews: seq<Row>, decision: string)
    requires Consistent(codec, snapshot, reviews)
    ensures Decisions(SortBy(EntryCase, EntriesOf(codec, reviews)), decision)
         == Count(reviews, None, Some(decision))
  {
    var sorted := SortBy(EntryCase, EntriesOf(codec, reviews));
    CountIsDecided(codec, reviews, decision);
    forall e ensures e in WithDecision(sorted, decision) <==> e in DecidedEntries(codec, reviews, decision) {
      if e in WithDecision(sorted, decision) {
        var row := ExportedEntry(codec, snapshot, reviews, e);
        assert e == EntryOf(codec, row);
      }
      if e in DecidedEntries(codec, reviews, decision) {
        var row :| row in reviews && row.decision == decision && EntryOf(codec, row) == e;
        ExportedRow(codec, reviews, row);
      }
    }
    assert WithDecision(sorted, decision) == DecidedEntries(codec, reviews, decision);
  }

  /** An exported snapshot counts its own entries. */
  lemma ExportedCountsAreTrue(codec: Codec, encode: Evidence -> string, snapshot: Snapshot, reviews: seq<Row>)
    requires EvidenceOf(codec, encode, snapshot, reviews).Some?
    ensures var report := EvidenceOf(codec, encode, snapshot, reviews).value;
            && report.approved == Decisions(report.entries, "approved")
            && report.rejected == Decisions(report.entries, "rejected")
  {
    SealedDraft(codec, encode, snapshot, reviews);
    SortedDecisions(codec, snapshot, reviews, "approved");
    SortedDecisions(codec, snapshot, reviews, "rejected");
  }

  // ----- what the validator decides -----

  /** The entries as the validator wants them. */
  ghost predicate CoherentEntries(entries: seq<Entry>) {
    && (forall e | e in entries ::
          && e.revision >= 1 && e.reviewedAt != 0 && |e.caseSha| == |e.reviewSha| == 64
          && !Blank(e.caseId) && !Blank(e.slice)
          && ReasonsFit(e.decision, e.reasons) && SortedBy(Itself, e.reasons))
    && forall i, j | 0 <= i < j < |entries| :: Less(entries[i].caseId, entries[j].caseId)
  }

  /** A snapshot that is accepted is about distinct cases in order, each with fitting reasons in order, its counts add
      up to the number of entries and of cases, its status follows from its counts, and its hashes are its own. */
  ghost predicate CoherentEvidence(codec: Codec, encode: Evidence -> string, report: Evidence) {
    && CoherentEntries(report.entries) && TimeTells(report.entries, report.lastReviewedAt)
    && 0 <= report.approved && 0 <= report.rejected && 0 <= report.pending && 1 <= report.total
    && |report.entries| == report.reviewed == report.approved + report.rejected
    && report.total == report.reviewed + report.pending
    && (report.ready <==> report.approved == report.total)
    && report.status == (if report.approved == report.total then "ready_for_sealed_materialization"
                         else if report.rejected > 0 then "correction_required" else "human_review_in_progress")
    && report.reviewSetSha == codec.sha(Trim(Join(SortStrings(EntryInputs(report.entries)), NUL)))
    && report.snapshotSha == codec.sha(Trim(encode(report.(snapshotSha := ""))))
  }

  lemma ValidEntriesCohere(entries: seq<Entry>)
    requires EntriesOk(entries)
    ensures CoherentEntries(entries)
  {
    forall e | e in entries
      ensures EntryOk(e) && ReasonsFit(e.decision, e.reasons) && SortedBy(Itself, e.reasons)
    {
      var i :| 0 <= i < |entries| && entries[i] == e;
      NormalizedExactly(e.decision, e.reasons);
    }
    forall i, j | 0 <= i < j < |entries| ensures Less(entries[i].caseId, entries[j].caseId) {
      AscendingIsBelow(entries, i, j);
    }
  }

  lemma ValidEvidenceCoheres(codec: Codec, encode: Evidence -> string, report: Evidence)
    requires ValidEvidence(codec, encode, report, true)
    ensures CoherentEvidence(codec, encode, report)
  {
    ValidEntriesCohere(report.entries);
    LatestTimeTells(report.entries);
  }

  // ----- what it leaves open -----

  /** The same entries with the reviews counted as a approvals and the rest rejections, hashed again. */
  function Recounted(codec: Codec, encode: Evidence -> string, report: Evidence, a: int): Evidence {
    var rejected, ready := report.reviewed - a, a == report.total;
    Sealed(codec, encode,
           report.(approved := a, rejected := rejected, ready := ready, status := StatusFor(rejected, ready)))
  }

  /** The validator does not count: whatever share of the reviews is called approvals, the snapshot is accepted under
      its new hash. So an accepted snapshot counts its own entries if and only if it says as many approvals as it
      has. */
  lemma CountsAreNotChecked(codec: Codec, encode: Evidence -> string, report: Evidence, a: nat)
    requires codec.Good() && ValidEvidence(codec, encode, report, true) && a <= report.reviewed
    ensures var other := Recounted(codec, encode, report, a);
            && ValidEvidence(codec, encode, other, true)
            && other.entries == report.entries && other.approved == a
            && (other.approved == Decisions(other.entries, "approved")
                && other.rejected == Decisions(other.entries, "rejected")
                <==> a == Decisions(report.entries, "approved"))
  {
    EveryEntryIsDecided(report.entries);
  }

  lemma EveryEntryIsDecided(entries: seq<Entry>)
    requires EntriesOk(entries)
    ensures Decisions(entries, "approved") + Decisions(entries, "rejected") == |entries|
  {
    ValidEntriesCohere(entries);
    forall i, j | 0 <= i < j < |entries| ensures entries[i] != entries[j] {
      assert Less(entries[i].caseId, entries[j].caseId);
    }
    EntriesCount(entries);
    var approved, rejected := WithDecision(entries, "approved"), WithDecision(entries, "rejected");
    forall e | e in entries ensures e in approved + rejected {
      var i :| 0 <= i < |entries| && entries[i] == e;
      assert EntryOk(entries[i]);
    }
    assert approved + rejected == set e | e in entries;
    assert approved !! rejected;
  }

  lemma {:induction false} EntriesCount(entries: seq<Entry>)
    requires Distinct(entries)
    ensures |set e | e in entries| == |entries|
  {
    if entries != [] {
      var n := |entries| - 1;
      EntriesCount(entries[..n]);
      assert entries == entries[..n] + [entries[n]];
      assert (set e | e in entries) == (set e | e in entries[..n]) + {entries[n]};
    }
  }

  /** In particular a snapshot of a whole catalog is accepted as ready although cases of it are rejected. */
  lemma ReadyDespiteRejections(codec: Codec, encode: Evidence -> string, report: Evidence)
    requires codec.Good() && ValidEvidence(codec, encode, report, true) && report.pending == 0
    ensures var other := Recounted(codec, encode, report, report.total);
            && ValidEvidence(codec, encode, other, true) && other.ready
            && Decisions(other.entries, "rejected") == Decisions(report.entries, "rejected")
  {
    CountsAreNotChecked(codec, encode, report, report.total);
  }
}
