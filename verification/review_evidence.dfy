/** The self-validating evidence snapshot: its builder, its validator, and why the first satisfies the second. */
module ReviewEvidence {
  import opened Text
  import opened Sequences
  import opened Options
  import opened ReviewLedger
  import opened ReviewRules
  import opened ReviewProgress

  datatype Entry = Entry(
    caseId: string, slice: string, caseSha: string, revision: int, decision: string, reasons: seq<string>,
    reviewSha: string, reviewedAt: Time)

  datatype Evidence = Evidence(
    schemaVersion: string, datasetVersion: string, catalogSha: string, governanceSha: string, reviewerScope: string,
    status: string, total: int, reviewed: int, approved: int, rejected: int, pending: int, reviewSetSha: string,
    ready: bool, lastReviewedAt: Option<Time>, entries: seq<Entry>, guardrails: seq<string>, limitations: seq<string>,
    snapshotSha: string)

  const SCHEMA_VERSION := "evaluation-catalog-review-evidence-v2"
  const REVIEWER_SCOPE := "current_authenticated_reviewer"

  function StatusFor(rejected: int, ready: bool): string {
    if ready then "ready_for_sealed_materialization"
    else if rejected > 0 then "correction_required"
    else "human_review_in_progress"
  }

  // ----- the validator -----

  predicate HeaderOk(report: Evidence) {
    && report.schemaVersion == SCHEMA_VERSION && !Blank(report.datasetVersion)
    && |report.catalogSha| == 64 && |report.governanceSha| == 64 && report.reviewerScope == REVIEWER_SCOPE
    && report.total >= 1 && report.reviewed >= 0 && report.approved >= 0 && report.rejected >= 0 && report.pending >= 0
    && report.reviewed == report.approved + report.rejected && report.total == report.reviewed + report.pending
    && |report.reviewSetSha| == 64 && |report.entries| == report.reviewed
  }

  predicate StatusOk(report: Evidence) {
    && report.ready == (report.reviewed == report.total && report.approved == report.total && report.rejected == 0)
    && report.status == StatusFor(report.rejected, report.ready)
    && report.guardrails != [] && report.limitations != []
  }

  predicate EntryOk(entry: Entry) {
    && !Blank(entry.caseId) && !Blank(entry.slice) && |entry.caseSha| == 64 && entry.revision >= 1
    && IsDecision(entry.decision) && |entry.reviewSha| == 64 && entry.reviewedAt != 0
    && NormalizeReasons(entry.decision, entry.reasons) == Some(entry.reasons)
  }

  /** Strictly ascending by case. */
  predicate Ascending(entries: seq<Entry>) {
    forall i | 0 < i < |entries| :: Less(entries[i - 1].caseId, entries[i].caseId)
  }

  predicate EntriesOk(entries: seq<Entry>) {
    (forall i | 0 <= i < |entries| :: EntryOk(entries[i])) && Ascending(entries)
  }

  function EntryInput(entry: Entry): string {
    entry.caseId + NUL + entry.reviewSha
  }

  function EntryInputs(entries: seq<Entry>): seq<string> {
    Map(EntryInput, entries)
  }

  function Later(latest: Option<Time>, at: Time): Option<Time> {
    if latest.None? || at > latest.value then Some(at) else latest
  }

  /** The running maximum of the review times. */
  function LatestTime(entries: seq<Entry>): Option<Time> {
    if entries == [] then None else Later(LatestTime(entries[..|entries| - 1]), entries[|entries| - 1].reviewedAt)
  }

  predicate HashOk(codec: Codec, encode: Evidence -> string, report: Evidence) {
    |report.snapshotSha| == 64 && Digest(codec, encode(report.(snapshotSha := ""))) == report.snapshotSha
  }

  /** What ValidateEvidenceSnapshot accepts. */
  predicate ValidEvidence(codec: Codec, encode: Evidence -> string, report: Evidence, requireHash: bool) {
    && HeaderOk(report) && StatusOk(report) && EntriesOk(report.entries)
    && ReviewSetSha(codec, EntryInputs(report.entries)) == report.reviewSetSha
    && report.lastReviewedAt == LatestTime(report.entries)
    && (requireHash ==> HashOk(codec, encode, report))
  }

  function SeenCases(entries: seq<Entry>): set<string> {
    set entry | entry in entries :: entry.caseId
  }

  lemma {:induction false} AscendingIsBelow(entries: seq<Entry>, i: nat, j: nat)
    requires Ascending(entries) && i < j < |entries|
    ensures Less(entries[i].caseId, entries[j].caseId)
    decreases j
  {
    if i < j - 1 {
      AscendingIsBelow(entries, i, j - 1);
      LessEqTransitive(entries[i].caseId, entries[j - 1].caseId, entries[j].caseId);
      if entries[i].caseId == entries[j].caseId {
        LessEqAntisymmetric(entries[j - 1].caseId, entries[j].caseId);
      }
    }
  }

  /** In ascending entries the duplicate check never decides anything the order check does not. */
  lemma AscendingStep(front: seq<Entry>, entry: Entry)
    requires Ascending(front)
    ensures Ascending(front + [entry]) <==> front == [] || Less(front[|front| - 1].caseId, entry.caseId)
    ensures Ascending(front + [entry]) ==> entry.caseId !in SeenCases(front)
  {
    var all := front + [entry];
    assert all[|front|] == entry;
    forall i | 0 <= i < |front| ensures all[i] == front[i] {
    }
    if front != [] {
      assert all[|front| - 1] == front[|front| - 1];
    }
    if Ascending(all) {
      forall other | other in front ensures other.caseId != entry.caseId {
        var i :| 0 <= i < |front| && front[i] == other;
        AscendingIsBelow(all, i, |front|);
      }
    }
  }

  lemma EntriesStep(front: seq<Entry>, entry: Entry)
    requires EntriesOk(front)
    ensures EntriesOk(front + [entry]) <==> EntryOk(entry) && Ascending(front + [entry])
    ensures EntryInputs(front + [entry]) == EntryInputs(front) + [EntryInput(entry)]
    ensures LatestTime(front + [entry]) == Later(LatestTime(front), entry.reviewedAt)
    ensures SeenCases(front + [entry]) == SeenCases(front) + {entry.caseId}
  {
    var all := front + [entry];
    assert all[..|front|] == front && all[|front|] == entry;
    forall i | 0 <= i < |front| ensures all[i] == front[i] {
    }
  }

  lemma EntriesPrefix(entries: seq<Entry>, i: nat)
    requires i <= |entries| && EntriesOk(entries)
    ensures EntriesOk(entries[..i])
  {
  }

  method CheckEntry(entry: Entry) returns (ok: bool)
    ensures ok == EntryOk(entry)
  {
    if || Blank(entry.caseId) || Blank(entry.slice) || |entry.caseSha| != 64 || entry.revision < 1
       || (entry.decision != "approved"
           && entry.decision != "rejected") || |entry.reviewSha| != 64 || entry.reviewedAt == 0
    {
      return false;
    }
    var normalized := Normalize(entry.decision, entry.reasons);
    if normalized.None? {
      return false;
    }
    ok := SameReasons(normalized.value, entry.reasons);
  }

  method SameReasons(a: seq<string>, b: seq<string>) returns (same: bool)
    ensures same == (a == b)
  {
    if |a| != |b| {
      return false;
    }
    for k := 0 to |a|
      invariant a[..k] == b[..k]
    {
      if a[k] != b[k] {
        return false;
      }
    }
    assert a[..|a|] == a && b[..|b|] == b;
    return true;
  }

  /** The entry loop of the validator. */
  method CheckEntries(entries: seq<Entry>) returns (ok: bool, inputs: seq<string>, latest: Option<Time>)
    ensures ok == EntriesOk(entries)
    ensures ok ==> inputs == EntryInputs(entries) && latest == LatestTime(entries)
  {
    var seen: set<string> := {};
    inputs, latest := [], None;
    for i := 0 to |entries|
      invariant EntriesOk(entries[..i])
      invariant seen == SeenCases(entries[..i])
      invariant inputs == EntryInputs(entries[..i])
      invariant latest == LatestTime(entries[..i])
    {
      var entry := entries[i];
      ghost var front := entries[..i];
      assert entries[..i + 1] == front + [entry];
      EntriesStep(front, entry);
      AscendingStep(front, entry);
      ok := CheckEntry(entry);
      if !ok || entry.caseId in seen || (i > 0 && !Less(entries[i - 1].caseId, entry.caseId)) {
        if EntriesOk(entries) {
          EntriesPrefix(entries, i + 1);
        }
        ok := false;
        return;
      }
      seen := seen + {entry.caseId};
      inputs := inputs + [entry.caseId + NUL + entry.reviewSha];
      if latest.None? || entry.reviewedAt > latest.value {
        latest := Some(entry.reviewedAt);
      }
    }
    assert entries[..|entries|] == entries;
    ok := true;
  }

  method Validate(codec: Codec, encode: Evidence -> string, report: Evidence, requireHash: bool) returns (ok: bool)
    ensures ok == ValidEvidence(codec, encode, report, requireHash)
  {
    if !HeaderOk(report) || !StatusOk(report) {
      return false;
    }
    var entriesOk, inputs, latest := CheckEntries(report.entries);
    if !entriesOk || ReviewSetSha(codec, inputs) != report.reviewSetSha || latest != report.lastReviewedAt {
      return false;
    }
    return !requireHash || HashOk(codec, encode, report);
  }

  /** ValidateEvidenceAgainstSnapshot: valid, and about exactly this catalog. */
  predicate ValidAgainst(codec: Codec, encode: Evidence -> string, report: Evidence, snapshot: Snapshot) {
    && ValidEvidence(codec, encode, report, true)
    && report.datasetVersion == snapshot.datasetVersion && report.catalogSha == snapshot.catalogSha
    && report.governanceSha == snapshot.governanceSha && report.total == |snapshot.cases|
    && forall k | 0 <= k < |report.entries| :: Listed(snapshot, report.entries[k])
  }

  predicate Listed(snapshot: Snapshot, entry: Entry) {
    exists i | 0 <= i < |snapshot.cases| ::
      snapshot.cases[i].id == entry.caseId && snapshot.cases[i].slice == entry.slice
      && snapshot.cases[i].caseSha == entry.caseSha
  }

  // ----- the builder -----

  function Guardrails(): seq<string> {
    ["catalog_governance_and_case_hash_bound", "latest_append_only_revision_per_case", "reviewer_identity_not_exported",
     "no_prompt_or_expected_payload_exported", "self_hash_verified", "no_baseline_auto_freeze"]
  }

  function Limitations(): seq<string> {
    ["该快照只证明当前登录复核人的逐例决策，不代表双人独立标注。",
     "ready 只允许进入独立封存与重跑评测，不代表正式基线或生产切流已获批。"]
  }

  function EntryOf(codec: Codec, row: Row): Entry {
    var reasons := codec.decodeReasons(row.reasonCodesJson);
    Entry(row.caseId, row.slice, row.caseSha, row.revision, row.decision, if reasons.Some? then reasons.value else [],
          row.reviewSha, row.createdAt)
  }

  function EntryFrom(codec: Codec): Row -> Entry {
    row => EntryOf(codec, row)
  }

  function EntriesOf(codec: Codec, reviews: seq<Row>): seq<Entry> {
    Map(EntryFrom(codec), reviews)
  }

  function EntryCase(entry: Entry): string {
    entry.caseId
  }

  /** The report before it is hashed. */
  function Draft(codec: Codec, snapshot: Snapshot, reviews: seq<Row>): Evidence {
    var p := ProgressOf(codec, snapshot, reviews);
    var entries := EntriesOf(codec, reviews);
    Evidence(
      SCHEMA_VERSION, snapshot.datasetVersion, snapshot.catalogSha, snapshot.governanceSha, REVIEWER_SCOPE,
      StatusFor(p.rejected, p.ready), p.total, p.reviewed, p.approved, p.rejected, p.pending, p.reviewSetSha, p.ready,
      LatestTime(entries), SortBy(EntryCase, entries), Guardrails(), Limitations(), "")
  }

  function Sealed(codec: Codec, encode: Evidence -> string, draft: Evidence): Evidence {
    draft.(snapshotSha := Digest(codec, encode(draft.(snapshotSha := ""))))
  }

  /** A report under construction, held by reference. */
  class Report {
    var value: Evidence

    constructor (value: Evidence)
      ensures this.value == value
    {
      this.value := value;
    }

    /** FinalizeEvidenceSnapshot: validate without a hash, hash, validate with it. */
    method Finalize(codec: Codec, encode: Evidence -> string) returns (ok: bool)
      modifies this
      ensures var draft := old(value).(snapshotSha := "");
              && ok == (ValidEvidence(codec, encode, draft, false)
                        && HashOk(codec, encode, Sealed(codec, encode, draft)))
              && value == if ValidEvidence(codec, encode, draft, false) then Sealed(codec, encode, draft) else draft
    {
      value := value.(snapshotSha := "");
      ok := Validate(codec, encode, value, false);
      if !ok {
        return;
      }
      SealKeeps(codec, encode, value);
      value := value.(snapshotSha := Digest(codec, encode(value)));
      ok := Validate(codec, encode, value, true);
    }
  }

  lemma SealKeeps(codec: Codec, encode: Evidence -> string, draft: Evidence)
    requires ValidEvidence(codec, encode, draft, false) && draft.snapshotSha == ""
    ensures draft.(snapshotSha := "") == draft
    ensures ValidEvidence(codec, encode, Sealed(codec, encode, draft), true) <==>
            HashOk(codec, encode, Sealed(codec, encode, draft))
  {
    var report := Sealed(codec, encode, draft);
    assert HeaderOk(report) && StatusOk(report);
  }

  /** Loading: every row is valid and of this catalog. */
  predicate Loads(codec: Codec, snapshot: Snapshot, reviews: seq<Row>) {
    forall i | 0 <= i < |reviews| ::
      ValidReview(codec, reviews[i]) && reviews[i].catalogSha == snapshot.catalogSha
      && reviews[i].governanceSha == snapshot.governanceSha
  }

  lemma ConsistentLoads(codec: Codec, snapshot: Snapshot, reviews: seq<Row>)
    requires Consistent(codec, snapshot, reviews)
    ensures Loads(codec, snapshot, reviews)
  {
    forall i | 0 <= i < |reviews|
      ensures ValidReview(codec, reviews[i]) && reviews[i].catalogSha == snapshot.catalogSha
              && reviews[i].governanceSha == snapshot.governanceSha
    {
      assert RowBelongs(codec, snapshot, reviews[i]);
    }
  }

  lemma EntriesOfStep(codec: Codec, front: seq<Row>, row: Row)
    ensures EntriesOf(codec, front + [row]) == EntriesOf(codec, front) + [EntryOf(codec, row)]
    ensures LatestTime(EntriesOf(codec, front + [row])) == Later(LatestTime(EntriesOf(codec, front)), row.createdAt)
  {
    assert (front + [row])[..|front|] == front;
    var entries := EntriesOf(codec, front);
    assert (entries + [EntryOf(codec, row)])[..|entries|] == entries;
  }

  /** The entry loop of the builder. */
  method CollectEntries(codec: Codec, reviews: seq<Row>) returns (entries: seq<Entry>, latest: Option<Time>)
    ensures entries == EntriesOf(codec, reviews) && latest == LatestTime(entries)
  {
    entries, latest := [], None;
    for i := 0 to |reviews|
      invariant entries == EntriesOf(codec, reviews[..i])
      invariant latest == LatestTime(entries)
    {
      assert reviews[..i + 1] == reviews[..i] + [reviews[i]];
      EntriesOfStep(codec, reviews[..i], reviews[i]);
      var entry := EntryOf(codec, reviews[i]);
      entries := entries + [entry];
      if latest.None? || entry.reviewedAt > latest.value {
        latest := Some(entry.reviewedAt);
      }
    }
    assert reviews[..|reviews|] == reviews;
  }

  /** What exporting the evidence of these rows gives. */
  function EvidenceOf(codec: Codec, encode: Evidence -> string, snapshot: Snapshot, reviews: seq<Row>)
    : Option<Evidence>
  {
    if !Consistent(codec, snapshot, reviews) then None
    else
      var draft := Draft(codec, snapshot, reviews);
      if ValidEvidence(codec, encode, draft, false) && HashOk(codec, encode, Sealed(codec, encode, draft)) then
        Some(Sealed(codec, encode, draft))
      else None
  }

  method Export(codec: Codec, encode: Evidence -> string, snapshot: Snapshot, reviews: seq<Row>)
    returns (evidence: Option<Evidence>)
    ensures evidence == EvidenceOf(codec, encode, snapshot, reviews)
  {
    var progress := BuildProgress(codec, snapshot, reviews);
    if progress.None? {
      return None;
    }
    var p := progress.value;
    var entries, latest := CollectEntries(codec, reviews);
    var report := new Report(Evidence(
      SCHEMA_VERSION, snapshot.datasetVersion, snapshot.catalogSha, snapshot.governanceSha, REVIEWER_SCOPE,
      StatusFor(p.rejected, p.ready), p.total, p.reviewed, p.approved, p.rejected, p.pending, p.reviewSetSha, p.ready,
      latest, SortBy(EntryCase, entries), Guardrails(), Limitations(), ""));
    assert report.value == Draft(codec, snapshot, reviews);
    var ok := report.Finalize(codec, encode);
    return if ok then Some(report.value) else None;
  }

  // ----- the builder satisfies the validator -----

  /** The reasons of a row are stored in normal form. */
  predicate CanonicalRow(codec: Codec, row: Row) {
    EntryOf(codec, row).reasons != [] &&
    NormalizeReasons(row.decision, EntryOf(codec, row).reasons) == Some(EntryOf(codec, row).reasons)
  }

  lemma EntryAt(codec: Codec, reviews: seq<Row>, i: nat)
    requires i < |reviews|
    ensures EntriesOf(codec, reviews)[i] == EntryOf(codec, reviews[i])
  {
    MapAt(EntryFrom(codec), reviews, i);
  }

  lemma ValidRowGivesEntry(codec: Codec, row: Row)
    requires ValidReview(codec, row)
    ensures EntryOk(EntryOf(codec, row)) <==> CanonicalRow(codec, row)
  {
  }

  lemma {:induction false} InputsAgree(codec: Codec, reviews: seq<Row>)
    ensures EntryInputs(EntriesOf(codec, reviews)) == SetInputs(reviews)
  {
    if reviews != [] {
      var last := |reviews| - 1;
      InputsAgree(codec, reviews[..last]);
      var front := EntriesOf(codec, reviews[..last]);
      assert (front + [EntryOf(codec, reviews[last])])[..|front|] == front;
    }
  }

  lemma {:induction false} LatestTimeIsMax(entries: seq<Entry>)
    ensures LatestTime(entries).None? <==> entries == []
    ensures forall entry | entry in entries :: entry.reviewedAt <= LatestTime(entries).value
    ensures entries != [] ==> exists entry :: entry in entries && entry.reviewedAt == LatestTime(entries).value
  {
    if entries != [] {
      var last := |entries| - 1;
      LatestTimeIsMax(entries[..last]);
      assert entries == entries[..last] + [entries[last]];
    }
  }

  lemma LatestTimePermutes(a: seq<Entry>, b: seq<Entry>)
    requires multiset(a) == multiset(b)
    ensures LatestTime(a) == LatestTime(b)
  {
    LatestTimeIsMax(a);
    LatestTimeIsMax(b);
    forall entry ensures entry in a <==> entry in b {
      assert entry in multiset(a) <==> entry in multiset(b);
    }
    assert a == [] <==> b == [] by {
      assert |multiset(a)| == |a| && |multiset(b)| == |b|;
    }
  }

  /** Entries sorted by case are strictly ascending when the cases are distinct. */
  lemma SortedEntriesAscend(codec: Codec, reviews: seq<Row>)
    requires DistinctCases(reviews)
    ensures Ascending(SortBy(EntryCase, EntriesOf(codec, reviews)))
  {
    var entries := EntriesOf(codec, reviews);
    var sorted := SortBy(EntryCase, entries);
    SortBySorts(EntryCase, entries);
    EntriesAreDistinct(codec, reviews);
    RearrangedStaysDistinct(entries, sorted);
    forall i | 0 < i < |sorted| ensures Less(sorted[i - 1].caseId, sorted[i].caseId) {
      assert LessEq(EntryCase(sorted[i - 1]), EntryCase(sorted[i]));
      SameMembers(sorted, entries, sorted[i - 1]);
      SameMembers(sorted, entries, sorted[i]);
      if sorted[i - 1].caseId == sorted[i].caseId {
        EntriesIdentify(codec, reviews, sorted[i - 1], sorted[i]);
      }
    }
  }

  lemma EntriesIdentify(codec: Codec, reviews: seq<Row>, x: Entry, y: Entry)
    requires DistinctCases(reviews) && x in EntriesOf(codec, reviews) && y in EntriesOf(codec, reviews)
             && x.caseId == y.caseId
    ensures x == y
  {
    var entries := EntriesOf(codec, reviews);
    var i :| 0 <= i < |entries| && entries[i] == x;
    var j :| 0 <= j < |entries| && entries[j] == y;
    EntryAt(codec, reviews, i);
    EntryAt(codec, reviews, j);
  }

  lemma EntriesAreDistinct(codec: Codec, reviews: seq<Row>)
    requires DistinctCases(reviews)
    ensures Distinct(EntriesOf(codec, reviews))
  {
    forall i, j | 0 <= i < j < |reviews| ensures EntriesOf(codec, reviews)[i] != EntriesOf(codec, reviews)[j] {
      EntryAt(codec, reviews, i);
      EntryAt(codec, reviews, j);
    }
  }

  /** The sorted entries are all acceptable if and only if every row keeps its reasons in normal form. */
  lemma EntriesOkIffCanonical(codec: Codec, snapshot: Snapshot, reviews: seq<Row>)
    requires Consistent(codec, snapshot, reviews)
    ensures EntriesOk(SortBy(EntryCase, EntriesOf(codec, reviews))) <==>
            forall i | 0 <= i < |reviews| :: CanonicalRow(codec, reviews[i])
  {
    var entries := EntriesOf(codec, reviews);
    var sorted := SortBy(EntryCase, entries);
    SortBySorts(EntryCase, entries);
    SortedEntriesAscend(codec, reviews);
    ConsistentLoads(codec, snapshot, reviews);
    if forall i | 0 <= i < |reviews| :: CanonicalRow(codec, reviews[i]) {
      forall k | 0 <= k < |sorted| ensures EntryOk(sorted[k]) {
        SameMembers(sorted, entries, sorted[k]);
        var i :| 0 <= i < |entries| && entries[i] == sorted[k];
        EntryAt(codec, reviews, i);
        ValidRowGivesEntry(codec, reviews[i]);
      }
    }
    if EntriesOk(sorted) {
      forall i | 0 <= i < |reviews| ensures CanonicalRow(codec, reviews[i]) {
        EntryAt(codec, reviews, i);
        SameMembers(entries, sorted, entries[i]);
        ValidRowGivesEntry(codec, reviews[i]);
      }
    }
  }

  lemma SetHashAgrees(codec: Codec, reviews: seq<Row>)
    ensures var entries := EntriesOf(codec, reviews);
            && ReviewSetSha(codec, EntryInputs(SortBy(EntryCase, entries))) == ReviewSetSha(codec, SetInputs(reviews))
            && LatestTime(SortBy(EntryCase, entries)) == LatestTime(entries)
  {
    var entries := EntriesOf(codec, reviews);
    SortBySorts(EntryCase, entries);
    MapPermutes(EntryInput, SortBy(EntryCase, entries), entries);
    InputsAgree(codec, reviews);
    SortForgetsOrder(Itself, EntryInputs(SortBy(EntryCase, entries)), SetInputs(reviews));
    LatestTimePermutes(SortBy(EntryCase, entries), entries);
  }

  /** No more cases are reviewed than there are. */
  lemma ReviewedAtMostAll(codec: Codec, snapshot: Snapshot, reviews: seq<Row>)
    requires ValidSnapshot(snapshot) && Consistent(codec, snapshot, reviews)
    ensures |reviews| <= |snapshot.cases|
  {
    CountAll(reviews);
    CountIsCardinality(reviews, None, None);
    AllCasesAreDistinct(snapshot.cases);
    forall row | row in reviews ensures row.caseId in CaseIds(snapshot.cases, None) {
      var i :| 0 <= i < |reviews| && reviews[i] == row;
      assert RowBelongs(codec, snapshot, reviews[i]);
      CaseSliceIsListed(snapshot.cases, row.caseId);
    }
    SubsetIsSmaller(PickedIds(reviews, None, None), CaseIds(snapshot.cases, None));
  }

  lemma {:induction false} CaseSliceIsListed(cases: seq<Case>, id: string)
    ensures CaseSlice(cases, id) != "" ==> id in CaseIds(cases, None)
  {
    if cases != [] {
      var last := |cases| - 1;
      CaseSliceIsListed(cases[..last], id);
      assert cases == cases[..last] + [cases[last]];
    }
  }

  lemma DraftHeader(codec: Codec, snapshot: Snapshot, reviews: seq<Row>)
    requires codec.Good() && ValidSnapshot(snapshot) && Consistent(codec, snapshot, reviews)
    ensures HeaderOk(Draft(codec, snapshot, reviews)) && StatusOk(Draft(codec, snapshot, reviews))
  {
    ReviewedAtMostAll(codec, snapshot, reviews);
    ConsistentDecisions(codec, snapshot, reviews);
    CountsSplit(reviews, None);
    CountAll(reviews);
    SortBySorts(EntryCase, EntriesOf(codec, reviews));
  }

  /** For any accepted rows of a loaded catalog, exporting succeeds if and only if the reasons of each are in
      normal form; and then the snapshot passes its validator, hash included. */
  lemma BuilderSatisfiesValidator(codec: Codec, encode: Evidence -> string, snapshot: Snapshot, reviews: seq<Row>)
    requires codec.Good() && ValidSnapshot(snapshot) && Consistent(codec, snapshot, reviews)
    ensures var evidence := EvidenceOf(codec, encode, snapshot, reviews);
            && (evidence.Some? <==> forall i | 0 <= i < |reviews| :: CanonicalRow(codec, reviews[i]))
            && (evidence.Some? ==> ValidEvidence(codec, encode, evidence.value, true))
  {
    var draft := Draft(codec, snapshot, reviews);
    DraftHeader(codec, snapshot, reviews);
    EntriesOkIffCanonical(codec, snapshot, reviews);
    SetHashAgrees(codec, reviews);
    assert HashOk(codec, encode, Sealed(codec, encode, draft));
    assert ValidEvidence(codec, encode, draft, false) <==> EntriesOk(draft.entries);
    if ValidEvidence(codec, encode, draft, false) {
      SealKeeps(codec, encode, draft);
    }
  }

  /** The evidence does not depend on the order the rows arrive in. */
  lemma EvidenceForgetsOrder(codec: Codec, encode: Evidence -> string, snapshot: Snapshot, a: seq<Row>, b: seq<Row>)
    requires codec.Good() && ValidSnapshot(snapshot) && multiset(a) == multiset(b)
    requires Consistent(codec, snapshot, a) && Consistent(codec, snapshot, b)
    ensures EvidenceOf(codec, encode, snapshot, a) == EvidenceOf(codec, encode, snapshot, b)
  {
    MapPermutes(EntryFrom(codec), a, b);
    var x, y := EntriesOf(codec, a), EntriesOf(codec, b);
    forall p, q | p in x && q in x && EntryCase(p) == EntryCase(q) ensures p == q {
      EntriesIdentify(codec, a, p, q);
    }
    SortForgetsOrder(EntryCase, x, y);
    LatestTimePermutes(x, y);
    ProgressForgetsOrder(codec, snapshot, a, b);
  }

  lemma {:induction false} CountAppend(a: seq<Row>, b: seq<Row>, slice: Option<string>, decision: Option<string>)
    ensures Count(a + b, slice, decision) == Count(a, slice, decision) + Count(b, slice, decision)
  {
    if b == [] {
      assert a + b == a;
    } else {
      var last := |b| - 1;
      CountAppend(a, b[..last], slice, decision);
      assert (a + b)[..|a + b| - 1] == a + b[..last];
    }
  }

  lemma CountAround(x: seq<Row>, m: Row, y: seq<Row>, slice: Option<string>, decision: Option<string>)
    ensures Count(x + [m] + y, slice, decision)
         == Count(x + y, slice, decision) + if Picks(m, slice, decision) then 1 else 0
  {
    CountAppend(x, y, slice, decision);
    CountAppend(x + [m], y, slice, decision);
    CountStep(x, m, slice, decision);
  }

  lemma {:induction false} CountPermutes(a: seq<Row>, b: seq<Row>, slice: Option<string>, decision: Option<string>)
    requires multiset(a) == multiset(b)
    ensures Count(a, slice, decision) == Count(b, slice, decision)
    decreases |a|
  {
    if a == [] {
      assert |multiset(b)| == |b|;
    } else {
      var k := TakeOut(a, b);
      CountPermutes(a[1..], b[..k] + b[k + 1..], slice, decision);
      CountAround(b[..k], a[0], b[k + 1..], slice, decision);
      CountAround([], a[0], a[1..], slice, decision);
      assert [] + a[1..] == a[1..] && [] + [a[0]] + a[1..] == a;
    }
  }

  lemma TallyForgetsOrder(cases: seq<Case>, a: seq<Row>, b: seq<Row>, slice: string)
    requires multiset(a) == multiset(b)
    ensures SliceTally(cases, a, slice) == SliceTally(cases, b, slice)
  {
    CountPermutes(a, b, Some(slice), None);
    CountPermutes(a, b, Some(slice), Some("approved"));
    CountPermutes(a, b, Some(slice), Some("rejected"));
  }

  lemma SetShaForgetsOrder(codec: Codec, a: seq<Row>, b: seq<Row>)
    requires multiset(a) == multiset(b)
    ensures ReviewSetSha(codec, SetInputs(a)) == ReviewSetSha(codec, SetInputs(b))
  {
    MapPermutes(RowInput, a, b);
    SortForgetsOrder(Itself, SetInputs(a), SetInputs(b));
  }

  /** Neither does the summary. */
  lemma ProgressForgetsOrder(codec: Codec, snapshot: Snapshot, a: seq<Row>, b: seq<Row>)
    requires multiset(a) == multiset(b)
    ensures ProgressOf(codec, snapshot, a) == ProgressOf(codec, snapshot, b)
  {
    assert |multiset(a)| == |a| && |multiset(b)| == |b|;
    CountPermutes(a, b, None, Some("approved"));
    CountPermutes(a, b, None, Some("rejected"));
    var p, q := ProgressOf(codec, snapshot, a).bySlice, ProgressOf(codec, snapshot, b).bySlice;
    forall slice | slice in SliceNames(snapshot.cases) ensures p[slice] == q[slice] {
      TallyForgetsOrder(snapshot.cases, a, b, slice);
    }
    assert p == q;
    SetShaForgetsOrder(codec, a, b);
  }

  /** Two readings of the latest rows hold the same rows. */
  lemma ViewsAreRearrangements(rows: seq<Row>, scope: Scope, a: seq<Row>, b: seq<Row>)
    requires LatestView(rows, scope, a) && LatestView(rows, scope, b)
    ensures multiset(a) == multiset(b)
  {
    SameElementsRearrange(a, b);
  }
}
