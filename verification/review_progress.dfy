/** The progress summary, and what it says about the history it was computed from. */
module ReviewProgress {
  import opened Text
  import opened Sequences
  import opened Options
  import opened ReviewLedger
  import opened ReviewRules

  /** The rows one reviewer sees of one catalog under one governance manifest. */
  datatype Scope = Scope(catalogSha: string, governanceSha: string, reviewerHash: string)

  predicate InScope(row: Row, scope: Scope) {
    row.catalogSha == scope.catalogSha && row.governanceSha == scope.governanceSha
    && row.reviewerHash == scope.reviewerHash
  }

  function GroupIn(scope: Scope, caseId: string): Group {
    Group(scope.catalogSha, scope.governanceSha, caseId, scope.reviewerHash)
  }

  predicate IsLatest(rows: seq<Row>, row: Row) {
    row.revision == LatestRevision(rows, GroupOf(row))
  }

  /** What the latest-revision query may return: its rows, each once, in any order. */
  ghost predicate LatestView(rows: seq<Row>, scope: Scope, view: seq<Row>) {
    && (forall row :: row in view <==> row in rows && InScope(row, scope) && IsLatest(rows, row))
    && Distinct(view)
  }

  function PickLatest(rows: seq<Row>, candidates: seq<Row>, scope: Scope): seq<Row> {
    if candidates == [] then []
    else
      var last := candidates[|candidates| - 1];
      PickLatest(rows, candidates[..|candidates| - 1], scope)
      + if InScope(last, scope) && IsLatest(rows, last) then [last] else []
  }

  function CaseOf(row: Row): string {
    row.caseId
  }

  /** ListLatest, ordered by case. */
  function ListLatest(rows: seq<Row>, scope: Scope): seq<Row> {
    SortBy(CaseOf, PickLatest(rows, rows, scope))
  }

  datatype SliceProgress = SliceProgress(total: int, reviewed: int, approved: int, rejected: int, pending: int)
  datatype Progress = Progress(
    total: int, reviewed: int, approved: int, rejected: int, pending: int,
    bySlice: map<string, SliceProgress>, reviewSetSha: string, ready: bool)

  predicate Picks(row: Row, slice: Option<string>, decision: Option<string>) {
    (slice.Some? ==> row.slice == slice.value) && (decision.Some? ==> row.decision == decision.value)
  }

  /** How many rows are of a slice and a decision; None stands for any. */
  function Count(reviews: seq<Row>, slice: Option<string>, decision: Option<string>): nat {
    if reviews == [] then 0
    else
      var last := |reviews| - 1;
      Count(reviews[..last], slice, decision) + if Picks(reviews[last], slice, decision) then 1 else 0
  }

  function CountCases(cases: seq<Case>, slice: string): nat {
    if cases == [] then 0
    else
      var last := |cases| - 1;
      CountCases(cases[..last], slice) + if cases[last].slice == slice then 1 else 0
  }

  /** caseSlice[id] after the cases were entered in order; "" for an unknown case. */
  function CaseSlice(cases: seq<Case>, id: string): string {
    if cases == [] then ""
    else
      var last := |cases| - 1;
      if cases[last].id == id then cases[last].slice else CaseSlice(cases[..last], id)
  }

  function SliceNames(cases: seq<Case>): set<string> {
    set item | item in cases :: item.slice
  }

  function RowInput(row: Row): string {
    row.caseId + NUL + row.reviewSha
  }

  function SetInputs(reviews: seq<Row>): seq<string> {
    Map(RowInput, reviews)
  }

  function ReviewSetSha(codec: Codec, inputs: seq<string>): string {
    Digest(codec, Join(SortStrings(inputs), NUL))
  }

  function SliceTally(cases: seq<Case>, reviews: seq<Row>, slice: string): SliceProgress {
    var total, reviewed := CountCases(cases, slice), Count(reviews, Some(slice), None);
    SliceProgress(total, reviewed, Count(reviews, Some(slice), Some("approved")),
                  Count(reviews, Some(slice), Some("rejected")), total - reviewed)
  }

  function ProgressOf(codec: Codec, snapshot: Snapshot, reviews: seq<Row>): Progress {
    var cases := snapshot.cases;
    var approved, rejected := Count(reviews, None, Some("approved")), Count(reviews, None, Some("rejected"));
    Progress(
      |cases|, |reviews|, approved, rejected, |cases| - |reviews|,
      map slice | slice in SliceNames(cases) :: SliceTally(cases, reviews, slice),
      ReviewSetSha(codec, SetInputs(reviews)),
      |cases| > 0 && |reviews| == |cases| && approved == |cases| && rejected == 0)
  }

  predicate RowBelongs(codec: Codec, snapshot: Snapshot, row: Row) {
    && ValidReview(codec, row)
    && row.catalogSha == snapshot.catalogSha && row.governanceSha == snapshot.governanceSha
    && CaseSlice(snapshot.cases, row.caseId) == row.slice
  }

  predicate AllBelong(codec: Codec, snapshot: Snapshot, reviews: seq<Row>) {
    forall i | 0 <= i < |reviews| :: RowBelongs(codec, snapshot, reviews[i])
  }

  predicate DistinctCases(reviews: seq<Row>) {
    forall i, j | 0 <= i < j < |reviews| :: reviews[i].caseId != reviews[j].caseId
  }

  /** The rows buildProgress accepts. */
  predicate Consistent(codec: Codec, snapshot: Snapshot, reviews: seq<Row>) {
    AllBelong(codec, snapshot, reviews) && DistinctCases(reviews)
  }

  lemma {:induction false} CaseSliceIsAName(cases: seq<Case>, id: string)
    ensures CaseSlice(cases, id) != "" ==> CaseSlice(cases, id) in SliceNames(cases)
  {
    if cases != [] {
      var last := |cases| - 1;
      CaseSliceIsAName(cases[..last], id);
      assert cases == cases[..last] + [cases[last]];
    }
  }

  lemma BelongsIsListed(codec: Codec, snapshot: Snapshot, row: Row)
    requires RowBelongs(codec, snapshot, row)
    ensures row.slice in SliceNames(snapshot.cases)
    ensures IsDecision(row.decision)
  {
    CaseSliceIsAName(snapshot.cases, row.caseId);
  }

  function Known(caseSlice: map<string, string>, id: string): string {
    if id in caseSlice then caseSlice[id] else ""
  }

  ghost predicate MapsCases(caseSlice: map<string, string>, cases: seq<Case>) {
    forall id :: Known(caseSlice, id) == CaseSlice(cases, id)
  }

  lemma MapStep(caseSlice: map<string, string>, cases: seq<Case>, item: Case)
    requires MapsCases(caseSlice, cases)
    ensures MapsCases(caseSlice[item.id := item.slice], cases + [item])
  {
    assert (cases + [item])[..|cases|] == cases;
    forall id ensures Known(caseSlice[item.id := item.slice], id) == CaseSlice(cases + [item], id) {
      assert Known(caseSlice, id) == CaseSlice(cases, id);
    }
  }

  /** The first loop of buildProgress: case slices and slice totals. */
  method EnterCases(cases: seq<Case>) returns (caseSlice: map<string, string>, bySlice: map<string, SliceProgress>)
    ensures MapsCases(caseSlice, cases)
    ensures bySlice == map slice | slice in SliceNames(cases) :: SliceProgress(CountCases(cases, slice), 0, 0, 0, 0)
  {
    caseSlice, bySlice := map[], map[];
    for i := 0 to |cases|
      invariant MapsCases(caseSlice, cases[..i])
      invariant bySlice.Keys == SliceNames(cases[..i])
      invariant forall slice | slice !in bySlice :: CountCases(cases[..i], slice) == 0
      invariant forall slice | slice in bySlice ::
                  bySlice[slice] == SliceProgress(CountCases(cases[..i], slice), 0, 0, 0, 0)
    {
      assert cases[..i + 1][..i] == cases[..i];
      assert cases[..i + 1] == cases[..i] + [cases[i]];
      var item := cases[i];
      MapStep(caseSlice, cases[..i], item);
      caseSlice := caseSlice[item.id := item.slice];
      var value := if item.slice in bySlice then bySlice[item.slice] else SliceProgress(0, 0, 0, 0, 0);
      bySlice := bySlice[item.slice := value.(total := value.total + 1)];
    }
    assert cases[..|cases|] == cases;
  }

  /** What buildProgress has gathered from the rows read so far. */
  datatype Gathered = Gathered(
    reviewed: int, approved: int, rejected: int, bySlice: map<string, SliceProgress>, hashes: seq<string>)

  function GatheredFrom(cases: seq<Case>, reviews: seq<Row>): Gathered {
    Gathered(
      |reviews|, Count(reviews, None, Some("approved")), Count(reviews, None, Some("rejected")),
      map slice | slice in SliceNames(cases) :: SliceTally(cases, reviews, slice).(pending := 0), SetInputs(reviews))
  }

  predicate IsDecision(decision: string) {
    decision == "approved" || decision == "rejected"
  }

  lemma CountStep(front: seq<Row>, row: Row, slice: Option<string>, decision: Option<string>)
    ensures Count(front + [row], slice, decision)
         == Count(front, slice, decision) + if Picks(row, slice, decision) then 1 else 0
  {
    assert (front + [row])[..|front|] == front;
  }

  function Enter(value: SliceProgress, row: Row): SliceProgress {
    if row.decision == "approved" then value.(reviewed := value.reviewed + 1, approved := value.approved + 1)
    else value.(reviewed := value.reviewed + 1, rejected := value.rejected + 1)
  }

  lemma TallyStep(cases: seq<Case>, front: seq<Row>, row: Row, slice: string)
    requires IsDecision(row.decision)
    ensures var before := SliceTally(cases, front, slice).(pending := 0);
            SliceTally(cases, front + [row], slice).(pending := 0)
            == if row.slice == slice then Enter(before, row) else before
  {
    CountStep(front, row, Some(slice), None);
    CountStep(front, row, Some(slice), Some("approved"));
    CountStep(front, row, Some(slice), Some("rejected"));
  }

  /** The body of the row loop: one more accepted row. */
  function AddRow(g: Gathered, row: Row): Gathered
    requires row.slice in g.bySlice
  {
    Gathered(
      g.reviewed + 1,
      if row.decision == "approved" then g.approved + 1 else g.approved,
      if row.decision == "approved" then g.rejected else g.rejected + 1,
      g.bySlice[row.slice := Enter(g.bySlice[row.slice], row)],
      g.hashes + [RowInput(row)])
  }

  lemma GatherStep(cases: seq<Case>, front: seq<Row>, row: Row)
    requires row.slice in SliceNames(cases) && IsDecision(row.decision)
    ensures GatheredFrom(cases, front + [row]) == AddRow(GatheredFrom(cases, front), row)
  {
    assert (front + [row])[..|front|] == front;
    CountStep(front, row, None, Some("approved"));
    CountStep(front, row, None, Some("rejected"));
    var before, after := GatheredFrom(cases, front).bySlice, GatheredFrom(cases, front + [row]).bySlice;
    forall slice | slice in SliceNames(cases)
      ensures after[slice] == if row.slice == slice then Enter(before[slice], row) else before[slice]
    {
      TallyStep(cases, front, row, slice);
    }
    assert after == before[row.slice := Enter(before[row.slice], row)];
  }

  /** The last loop of buildProgress: what is pending in each slice. */
  method FillPending(tallied: map<string, SliceProgress>) returns (bySlice: map<string, SliceProgress>)
    ensures bySlice
         == map slice | slice in tallied :: tallied[slice].(pending := tallied[slice].total - tallied[slice].reviewed)
  {
    bySlice := tallied;
    var todo := tallied.Keys;
    while todo != {}
      invariant todo <= tallied.Keys == bySlice.Keys
      invariant forall slice | slice in tallied ::
                  bySlice[slice] == if slice in todo then tallied[slice]
                                    else tallied[slice].(pending := tallied[slice].total - tallied[slice].reviewed)
    {
      var key :| key in todo;
      var value := bySlice[key];
      bySlice := bySlice[key := value.(pending := value.total - value.reviewed)];
      todo := todo - {key};
    }
  }

  method CheckRow(codec: Codec, snapshot: Snapshot, caseSlice: map<string, string>, row: Row) returns (ok: bool)
    requires MapsCases(caseSlice, snapshot.cases)
    ensures ok == RowBelongs(codec, snapshot, row)
  {
    var slice := Known(caseSlice, row.caseId);
    ok := ValidReview(codec, row) && row.catalogSha == snapshot.catalogSha
    && row.governanceSha == snapshot.governanceSha
          && slice == row.slice;
  }

  function Seen(reviews: seq<Row>): set<string> {
    set row | row in reviews :: row.caseId
  }

  lemma DistinctStep(front: seq<Row>, row: Row)
    requires DistinctCases(front)
    ensures DistinctCases(front + [row]) <==> row.caseId !in Seen(front)
  {
    var all := front + [row];
    assert all[|front|] == row;
    forall j | 0 <= j < |front| ensures front[j].caseId in Seen(front) && all[j] == front[j] {
      assert front[j] in front;
    }
    if row.caseId in Seen(front) {
      var other :| other in front && other.caseId == row.caseId;
      var j :| 0 <= j < |front| && front[j] == other;
      assert all[j].caseId == all[|front|].caseId;
    }
  }

  lemma BelongStep(codec: Codec, snapshot: Snapshot, front: seq<Row>, row: Row)
    ensures AllBelong(codec, snapshot, front + [row]) <==>
            AllBelong(codec, snapshot, front) && RowBelongs(codec, snapshot, row)
  {
    var all := front + [row];
    assert all[|front|] == row;
    forall j | 0 <= j < |front| ensures all[j] == front[j] {
    }
  }

  lemma ConsistentStep(codec: Codec, snapshot: Snapshot, front: seq<Row>, row: Row)
    requires Consistent(codec, snapshot, front)
    ensures Seen(front + [row]) == Seen(front) + {row.caseId}
    ensures Consistent(codec, snapshot, front + [row]) <==>
              RowBelongs(codec, snapshot, row) && row.caseId !in Seen(front)
  {
    DistinctStep(front, row);
    BelongStep(codec, snapshot, front, row);
  }

  lemma ConsistentPrefix(codec: Codec, snapshot: Snapshot, reviews: seq<Row>, i: nat)
    requires i <= |reviews|
    ensures Consistent(codec, snapshot, reviews) ==> Consistent(codec, snapshot, reviews[..i])
  {
  }

  /** The body of the row loop, after the rows of `front` were accepted. */
  method GatherRow(codec: Codec, snapshot: Snapshot, caseSlice: map<string, string>, seen: set<string>, g: Gathered,
                   row: Row, ghost front: seq<Row>)
    returns (ok: bool, seen': set<string>, g': Gathered)
    requires MapsCases(caseSlice, snapshot.cases)
    requires Consistent(codec, snapshot, front) && seen == Seen(front) && g == GatheredFrom(snapshot.cases, front)
    ensures ok == Consistent(codec, snapshot, front + [row])
    ensures ok ==> seen' == Seen(front + [row]) && g' == GatheredFrom(snapshot.cases, front + [row])
  {
    ConsistentStep(codec, snapshot, front, row);
    seen', g' := seen, g;
    ok := CheckRow(codec, snapshot, caseSlice, row);
    if !ok {
      return;
    }
    if row.caseId in seen {
      ok := false;
      return;
    }
    BelongsIsListed(codec, snapshot, row);
    GatherStep(snapshot.cases, front, row);
    seen' := seen + {row.caseId};
    g' := AddRow(g, row);
  }

  /** The row loop of buildProgress. */
  method Gather(codec: Codec, snapshot: Snapshot, caseSlice: map<string, string>, totals: map<string, SliceProgress>,
                reviews: seq<Row>)
    returns (ok: bool, g: Gathered)
    requires MapsCases(caseSlice, snapshot.cases) && totals == GatheredFrom(snapshot.cases, []).bySlice
    ensures ok == Consistent(codec, snapshot, reviews)
    ensures ok ==> g == GatheredFrom(snapshot.cases, reviews)
  {
    g := Gathered(0, 0, 0, totals, []);
    var seen: set<string> := {};
    for i := 0 to |reviews|
      invariant Consistent(codec, snapshot, reviews[..i])
      invariant seen == Seen(reviews[..i])
      invariant g == GatheredFrom(snapshot.cases, reviews[..i])
    {
      PrefixStep(reviews, i);
      ok, seen, g := GatherRow(codec, snapshot, caseSlice, seen, g, reviews[i], reviews[..i]);
      if !ok {
        ConsistentPrefix(codec, snapshot, reviews, i + 1);
        return;
      }
    }
    FullPrefix(reviews);
    ok := true;
  }

  lemma NothingGathered(cases: seq<Case>)
    ensures GatheredFrom(cases, []).bySlice
         == map slice | slice in SliceNames(cases) :: SliceProgress(CountCases(cases, slice), 0, 0, 0, 0)
  {
  }

  lemma PendingFilled(cases: seq<Case>, reviews: seq<Row>)
    ensures var tallied := GatheredFrom(cases, reviews).bySlice;
            (map slice | slice in tallied :: tallied[slice].(pending := tallied[slice].total - tallied[slice].reviewed))
            == map slice | slice in SliceNames(cases) :: SliceTally(cases, reviews, slice)
  {
  }

  /** The totals of the summary, once the slices are complete. */
  function Summary(codec: Codec, total: int, g: Gathered, bySlice: map<string, SliceProgress>): Progress {
    Progress(
      total, g.reviewed, g.approved, g.rejected, total - g.reviewed, bySlice, ReviewSetSha(codec, g.hashes),
      total > 0 && g.reviewed == total && g.approved == total && g.rejected == 0)
  }

  lemma SummaryIsProgress(codec: Codec, snapshot: Snapshot, reviews: seq<Row>, bySlice: map<string, SliceProgress>)
    requires var tallied := GatheredFrom(snapshot.cases, reviews).bySlice;
             bySlice
             == map name | name in tallied :: tallied[name].(pending := tallied[name].total - tallied[name].reviewed)
    ensures Summary(codec, |snapshot.cases|, GatheredFrom(snapshot.cases, reviews), bySlice)
         == ProgressOf(codec, snapshot, reviews)
  {
    PendingFilled(snapshot.cases, reviews);
  }

  method BuildProgress(codec: Codec, snapshot: Snapshot, reviews: seq<Row>) returns (progress: Option<Progress>)
    ensures progress == if Consistent(codec, snapshot, reviews) then Some(ProgressOf(codec, snapshot, reviews))
                        else None
  {
    var caseSlice, totals := EnterCases(snapshot.cases);
    NothingGathered(snapshot.cases);
    var ok, g := Gather(codec, snapshot, caseSlice, totals, reviews);
    if !ok {
      return None;
    }
    var bySlice := FillPending(g.bySlice);
    SummaryIsProgress(codec, snapshot, reviews, bySlice);
    return Some(Summary(codec, |snapshot.cases|, g, bySlice));
  }

  // ----- what the latest rows are -----

  /** The row of a group that was appended last. */
  function LastOf(rows: seq<Row>, g: Group): Option<Row> {
    if rows == [] then None
    else if GroupOf(rows[|rows| - 1]) == g then Some(rows[|rows| - 1])
    else LastOf(rows[..|rows| - 1], g)
  }

  /** What was last decided about a case. */
  function LastDecision(rows: seq<Row>, scope: Scope, caseId: string): Option<string> {
    match LastOf(rows, GroupIn(scope, caseId))
    case None => None
    case Some(row) => Some(row.decision)
  }

  lemma {:induction false} LastOfIsLatest(rows: seq<Row>, g: Group)
    requires Contiguous(rows)
    ensures LastOf(rows, g).None? <==> forall row | row in rows :: GroupOf(row) != g
    ensures var last := LastOf(rows, g);
            last.Some? ==> last.value in rows && GroupOf(last.value) == g && IsLatest(rows, last.value)
  {
    if rows != [] {
      var last := |rows| - 1;
      assert rows == rows[..last] + [rows[last]];
      ContiguousPrefix(rows, last);
      if GroupOf(rows[last]) == g {
        LatestIsCount(rows[..last], g);
      } else {
        LastOfIsLatest(rows[..last], g);
      }
    }
  }

  lemma SameRevisionSameRow(rows: seq<Row>, a: Row, b: Row)
    requires IndexesHold(rows) && a in rows && b in rows && GroupOf(a) == GroupOf(b) && a.revision == b.revision
    ensures a == b
  {
    var i :| 0 <= i < |rows| && rows[i] == a;
    var j :| 0 <= j < |rows| && rows[j] == b;
    OnlyOneMatch(rows, i, j);
  }

  /** The latest revision of a case is the row appended last for it. */
  lemma LatestIsLast(rows: seq<Row>, row: Row)
    requires Contiguous(rows) && IndexesHold(rows)
    ensures row in rows && IsLatest(rows, row) <==> LastOf(rows, GroupOf(row)) == Some(row)
  {
    LastOfIsLatest(rows, GroupOf(row));
    if row in rows && IsLatest(rows, row) {
      SameRevisionSameRow(rows, row, LastOf(rows, GroupOf(row)).value);
    }
  }

  lemma {:induction false} PickLatestPicks(rows: seq<Row>, candidates: seq<Row>, scope: Scope)
    requires Distinct(candidates)
    ensures var picked := PickLatest(rows, candidates, scope);
            && (forall row :: row in picked <==> row in candidates && InScope(row, scope) && IsLatest(rows, row))
            && Distinct(picked)
  {
    if candidates != [] {
      var last := |candidates| - 1;
      PickLatestPicks(rows, candidates[..last], scope);
      assert candidates == candidates[..last] + [candidates[last]];
      assert candidates[last] !in candidates[..last];
    }
  }

  /** ListLatest is one of the views the theorems below are about. */
  lemma ListLatestIsAView(rows: seq<Row>, scope: Scope)
    requires IndexesHold(rows)
    ensures LatestView(rows, scope, ListLatest(rows, scope))
  {
    forall i, j | 0 <= i < j < |rows| ensures rows[i] != rows[j] {
      assert !Clash(rows[i], rows[j]);
    }
    PickLatestPicks(rows, rows, scope);
    var picked, view := PickLatest(rows, rows, scope), ListLatest(rows, scope);
    SortBySorts(CaseOf, picked);
    forall row ensures row in view <==> row in picked {
      MemberIsCounted(view, row);
      MemberIsCounted(picked, row);
    }
    RearrangedStaysDistinct(picked, view);
  }

  // ----- what the counts mean -----

  /** Every row this reviewer wrote under this catalog is a valid row of one of its cases. */
  ghost predicate HistoryFits(codec: Codec, snapshot: Snapshot, scope: Scope, rows: seq<Row>) {
    && scope.catalogSha == snapshot.catalogSha && scope.governanceSha == snapshot.governanceSha
    && forall row | row in rows && InScope(row, scope) :: ValidReview(codec, row) && Fits(snapshot, row)
  }

  ghost predicate Sound(codec: Codec, snapshot: Snapshot, scope: Scope, rows: seq<Row>) {
    ValidSnapshot(snapshot) && Contiguous(rows) && IndexesHold(rows) && HistoryFits(codec, snapshot, scope, rows)
  }

  lemma {:induction false} CaseSliceFinds(cases: seq<Case>, i: nat)
    requires i < |cases| && forall j, k | 0 <= j < k < |cases| :: cases[j].id != cases[k].id
    ensures CaseSlice(cases, cases[i].id) == cases[i].slice
  {
    var last := |cases| - 1;
    if i < last {
      CaseSliceFinds(cases[..last], i);
    }
  }

  lemma FitBelongs(codec: Codec, snapshot: Snapshot, row: Row)
    requires ValidSnapshot(snapshot) && ValidReview(codec, row) && Fits(snapshot, row)
    ensures RowBelongs(codec, snapshot, row)
  {
    var i :| 0 <= i < |snapshot.cases| && snapshot.cases[i].id == row.caseId && snapshot.cases[i].slice == row.slice
             && snapshot.cases[i].caseSha == row.caseSha;
    CaseSliceFinds(snapshot.cases, i);
  }

  /** The latest rows of a sound history are always accepted. */
  lemma LatestViewIsConsistent(codec: Codec, snapshot: Snapshot, scope: Scope, rows: seq<Row>, view: seq<Row>)
    requires Sound(codec, snapshot, scope, rows) && LatestView(rows, scope, view)
    ensures Consistent(codec, snapshot, view)
  {
    forall i | 0 <= i < |view| ensures RowBelongs(codec, snapshot, view[i]) {
      assert view[i] in view;
      FitBelongs(codec, snapshot, view[i]);
    }
    forall i, j | 0 <= i < j < |view| ensures view[i].caseId != view[j].caseId {
      assert view[i] in view && view[j] in view;
      LatestIsLast(rows, view[i]);
      LatestIsLast(rows, view[j]);
    }
  }

  ghost function CaseIds(cases: seq<Case>, slice: Option<string>): set<string> {
    set item | item in cases && (slice.Some? ==> item.slice == slice.value) :: item.id
  }

  /** The cases whose last decision is this one, of one slice or of all. */
  ghost function Decided(snapshot: Snapshot, scope: Scope, rows: seq<Row>, slice: Option<string>,
                         decision: Option<string>)
    : set<string>
  {
    set id | id in CaseIds(snapshot.cases, slice) && LastDecision(rows, scope, id) == decision
  }

  ghost function PickedIds(reviews: seq<Row>, slice: Option<string>, decision: Option<string>): set<string> {
    set row | row in reviews && Picks(row, slice, decision) :: row.caseId
  }

  lemma PickedIdsStep(front: seq<Row>, row: Row, slice: Option<string>, decision: Option<string>)
    ensures PickedIds(front + [row], slice, decision)
         == PickedIds(front, slice, decision) + if Picks(row, slice, decision) then {row.caseId} else {}
  {
  }

  lemma {:induction false} CountIsCardinality(reviews: seq<Row>, slice: Option<string>, decision: Option<string>)
    requires forall i, j | 0 <= i < j < |reviews| :: reviews[i].caseId != reviews[j].caseId
    ensures Count(reviews, slice, decision) == |PickedIds(reviews, slice, decision)|
  {
    if reviews != [] {
      var last := |reviews| - 1;
      var front := reviews[..last];
      CountIsCardinality(front, slice, decision);
      assert reviews == front + [reviews[last]];
      PickedIdsStep(front, reviews[last], slice, decision);
      assert reviews[last].caseId !in PickedIds(front, slice, decision);
    }
  }

  lemma {:induction false} CountCasesIsCardinality(cases: seq<Case>, slice: string)
    requires forall i, j | 0 <= i < j < |cases| :: cases[i].id != cases[j].id
    ensures CountCases(cases, slice) == |CaseIds(cases, Some(slice))|
  {
    if cases != [] {
      var last := |cases| - 1;
      var front := cases[..last];
      CountCasesIsCardinality(front, slice);
      assert cases == front + [cases[last]];
      assert cases[last].id !in CaseIds(front, Some(slice));
      assert CaseIds(cases, Some(slice))
          == CaseIds(front, Some(slice)) + if cases[last].slice == slice then {cases[last].id} else {};
    }
  }

  lemma {:induction false} AllCasesAreDistinct(cases: seq<Case>)
    requires forall i, j | 0 <= i < j < |cases| :: cases[i].id != cases[j].id
    ensures |cases| == |CaseIds(cases, None)|
  {
    if cases != [] {
      var last := |cases| - 1;
      var front := cases[..last];
      AllCasesAreDistinct(front);
      assert cases == front + [cases[last]];
      assert cases[last].id !in CaseIds(front, None);
      assert CaseIds(cases, None) == CaseIds(front, None) + {cases[last].id};
    }
  }

  lemma {:induction false} CountAll(reviews: seq<Row>)
    ensures Count(reviews, None, None) == |reviews|
  {
    if reviews != [] {
      CountAll(reviews[..|reviews| - 1]);
    }
  }

  lemma PickedIsDecided(codec: Codec, snapshot: Snapshot, scope: Scope, rows: seq<Row>, view: seq<Row>,
                        row: Row, slice: Option<string>, decision: string)
    requires Sound(codec, snapshot, scope, rows) && LatestView(rows, scope, view)
    requires row in view && Picks(row, slice, Some(decision))
    ensures row.caseId in Decided(snapshot, scope, rows, slice, Some(decision))
  {
    LatestIsLast(rows, row);
    assert Fits(snapshot, row);
  }

  lemma DecidedIsPicked(codec: Codec, snapshot: Snapshot, scope: Scope, rows: seq<Row>, view: seq<Row>,
                        item: Case, slice: Option<string>, decision: string)
    requires Sound(codec, snapshot, scope, rows) && LatestView(rows, scope, view)
    requires item in snapshot.cases && (slice.Some? ==> item.slice == slice.value)
    requires LastDecision(rows, scope, item.id) == Some(decision)
    ensures item.id in PickedIds(view, slice, Some(decision))
  {
    LastRowIsInView(codec, snapshot, scope, rows, view, item);
    assert Picks(LastOf(rows, GroupIn(scope, item.id)).value, slice, Some(decision));
  }

  /** A latest row of a case is the row its last decision comes from, and is of the case's slice. */
  lemma ViewHoldsLastDecisions(codec: Codec, snapshot: Snapshot, scope: Scope, rows: seq<Row>, view: seq<Row>,
                               slice: Option<string>, decision: string)
    requires Sound(codec, snapshot, scope, rows) && LatestView(rows, scope, view)
    ensures PickedIds(view, slice, Some(decision)) == Decided(snapshot, scope, rows, slice, Some(decision))
  {
    forall id | id in PickedIds(view, slice, Some(decision))
      ensures id in Decided(snapshot, scope, rows, slice, Some(decision))
    {
      var row :| row in view && Picks(row, slice, Some(decision)) && row.caseId == id;
      PickedIsDecided(codec, snapshot, scope, rows, view, row, slice, decision);
    }
    forall id | id in Decided(snapshot, scope, rows, slice, Some(decision))
      ensures id in PickedIds(view, slice, Some(decision))
    {
      var item :| item in snapshot.cases && (slice.Some? ==> item.slice == slice.value) && item.id == id;
      DecidedIsPicked(codec, snapshot, scope, rows, view, item, slice, decision);
    }
  }

  lemma LastRowIsInView(codec: Codec, snapshot: Snapshot, scope: Scope, rows: seq<Row>, view: seq<Row>, item: Case)
    requires Sound(codec, snapshot, scope, rows) && LatestView(rows, scope, view)
    requires item in snapshot.cases && LastOf(rows, GroupIn(scope, item.id)).Some?
    ensures var row := LastOf(rows, GroupIn(scope, item.id)).value;
            row in view && row.caseId == item.id && row.slice == item.slice && ValidReview(codec, row)
  {
    LastOfIsLatest(rows, GroupIn(scope, item.id));
    var row := LastOf(rows, GroupIn(scope, item.id)).value;
    assert Fits(snapshot, row);
  }

  lemma DecisionIsOneOfTwo(codec: Codec, row: Row)
    requires ValidReview(codec, row)
    ensures IsDecision(row.decision)
  {
  }

  /** Each case was last approved, last rejected, or never decided. */
  lemma DecisionsPartition(codec: Codec, snapshot: Snapshot, scope: Scope, rows: seq<Row>, slice: Option<string>)
    requires Sound(codec, snapshot, scope, rows)
    ensures var a, r, p := Decided(snapshot, scope, rows, slice, Some("approved")),
                           Decided(snapshot, scope, rows, slice, Some("rejected")),
                           Decided(snapshot, scope, rows, slice, None);
            && CaseIds(snapshot.cases, slice) == a + r + p
            && |CaseIds(snapshot.cases, slice)| == |a| + |r| + |p|
  {
    var a, r, p := Decided(snapshot, scope, rows, slice, Some("approved")),
                   Decided(snapshot, scope, rows, slice, Some("rejected")),
                   Decided(snapshot, scope, rows, slice, None);
    forall id | id in CaseIds(snapshot.cases, slice) ensures id in a + r + p {
      var g := GroupIn(scope, id);
      LastOfIsLatest(rows, g);
      if LastOf(rows, g).Some? {
        DecisionIsOneOfTwo(codec, LastOf(rows, g).value);
      }
    }
    assert CaseIds(snapshot.cases, slice) == a + r + p;
    DisjointSizes(a, r, p);
  }

  lemma {:induction false} CountsSplit(reviews: seq<Row>, slice: Option<string>)
    requires forall i | 0 <= i < |reviews| :: IsDecision(reviews[i].decision)
    ensures Count(reviews, slice, None)
         == Count(reviews, slice, Some("approved")) + Count(reviews, slice, Some("rejected"))
  {
    if reviews != [] {
      CountsSplit(reviews[..|reviews| - 1], slice);
    }
  }

  lemma ConsistentDecisions(codec: Codec, snapshot: Snapshot, reviews: seq<Row>)
    requires Consistent(codec, snapshot, reviews)
    ensures forall i | 0 <= i < |reviews| :: IsDecision(reviews[i].decision)
  {
    forall i | 0 <= i < |reviews| ensures IsDecision(reviews[i].decision) {
      BelongsIsListed(codec, snapshot, reviews[i]);
    }
  }

  /** One line of the summary is exactly what the last decisions of its cases are. */
  ghost predicate MeansLastDecisions(snapshot: Snapshot, scope: Scope, rows: seq<Row>, slice: Option<string>,
                                     line: SliceProgress) {
    && line.total == |CaseIds(snapshot.cases, slice)|
    && line.approved == |Decided(snapshot, scope, rows, slice, Some("approved"))|
    && line.rejected == |Decided(snapshot, scope, rows, slice, Some("rejected"))|
    && line.pending == |Decided(snapshot, scope, rows, slice, None)|
    && line.reviewed == line.approved + line.rejected
  }

  function TotalLine(p: Progress): SliceProgress {
    SliceProgress(p.total, p.reviewed, p.approved, p.rejected, p.pending)
  }

  lemma LineMeansLastDecisions(codec: Codec, snapshot: Snapshot, scope: Scope, rows: seq<Row>, view: seq<Row>,
                               slice: Option<string>, total: int)
    requires Sound(codec, snapshot, scope, rows) && LatestView(rows, scope, view)
    requires total == |CaseIds(snapshot.cases, slice)|
    ensures var reviewed := Count(view, slice, None);
            MeansLastDecisions(snapshot, scope, rows, slice,
              SliceProgress(total, reviewed, Count(view, slice, Some("approved")), Count(view, slice, Some("rejected")),
                            total - reviewed))
  {
    LatestViewIsConsistent(codec, snapshot, scope, rows, view);
    CountIsCardinality(view, slice, Some("approved"));
    CountIsCardinality(view, slice, Some("rejected"));
    ViewHoldsLastDecisions(codec, snapshot, scope, rows, view, slice, "approved");
    ViewHoldsLastDecisions(codec, snapshot, scope, rows, view, slice, "rejected");
    ConsistentDecisions(codec, snapshot, view);
    CountsSplit(view, slice);
    DecisionsPartition(codec, snapshot, scope, rows, slice);
  }

  /** Over any sound history and any order of its latest rows, the summary succeeds and each of its lines
      counts the cases by their last decision. */
  lemma ProgressIsTheHistory(codec: Codec, snapshot: Snapshot, scope: Scope, rows: seq<Row>, view: seq<Row>)
    requires Sound(codec, snapshot, scope, rows) && LatestView(rows, scope, view)
    ensures Consistent(codec, snapshot, view)
    ensures var p := ProgressOf(codec, snapshot, view);
            && MeansLastDecisions(snapshot, scope, rows, None, TotalLine(p))
            && p.bySlice.Keys == SliceNames(snapshot.cases)
            && forall slice | slice in p.bySlice ::
                 MeansLastDecisions(snapshot, scope, rows, Some(slice), p.bySlice[slice])
  {
    LatestViewIsConsistent(codec, snapshot, scope, rows, view);
    AllCasesAreDistinct(snapshot.cases);
    LineMeansLastDecisions(codec, snapshot, scope, rows, view, None, |snapshot.cases|);
    CountAll(view);
    forall slice | slice in SliceNames(snapshot.cases)
      ensures MeansLastDecisions(snapshot, scope, rows, Some(slice), SliceTally(snapshot.cases, view, slice))
    {
      CountCasesIsCardinality(snapshot.cases, slice);
      LineMeansLastDecisions(codec, snapshot, scope, rows, view, Some(slice), CountCases(snapshot.cases, slice));
    }
  }

  /** Ready to materialize if and only if the last decision on every case is an approval. */
  lemma ReadyMeansAllApproved(codec: Codec, snapshot: Snapshot, scope: Scope, rows: seq<Row>, view: seq<Row>)
    requires Sound(codec, snapshot, scope, rows) && LatestView(rows, scope, view)
    ensures ProgressOf(codec, snapshot, view).ready <==>
            forall item | item in snapshot.cases :: LastDecision(rows, scope, item.id) == Some("approved")
  {
    ProgressIsTheHistory(codec, snapshot, scope, rows, view);
    DecisionsPartition(codec, snapshot, scope, rows, None);
    var ids, approved := CaseIds(snapshot.cases, None), Decided(snapshot, scope, rows, None, Some("approved"));
    if ProgressOf(codec, snapshot, view).ready {
      SameSizeSameSet(approved, ids);
      forall item | item in snapshot.cases ensures LastDecision(rows, scope, item.id) == Some("approved") {
        assert item.id in ids;
      }
    }
    if forall item | item in snapshot.cases :: LastDecision(rows, scope, item.id) == Some("approved") {
      assert approved == ids;
    }
  }

  // ----- slices add up -----

  function Plus(a: SliceProgress, b: SliceProgress): SliceProgress {
    SliceProgress(a.total + b.total, a.reviewed + b.reviewed, a.approved + b.approved, a.rejected + b.rejected,
                  a.pending + b.pending)
  }

  ghost function Sum(order: seq<string>, lines: map<string, SliceProgress>): SliceProgress
    requires forall slice | slice in order :: slice in lines
  {
    if order == [] then SliceProgress(0, 0, 0, 0, 0) else Plus(lines[order[0]], Sum(order[1..], lines))
  }

  ghost function Tally(order: seq<string>, cases: seq<Case>, reviews: seq<Row>): SliceProgress {
    if order == [] then SliceProgress(0, 0, 0, 0, 0)
    else Plus(SliceTally(cases, reviews, order[0]), Tally(order[1..], cases, reviews))
  }

  lemma {:induction false} SumIsTally(order: seq<string>, cases: seq<Case>, reviews: seq<Row>)
    requires forall slice | slice in order :: slice in SliceNames(cases)
    ensures var lines := map slice | slice in SliceNames(cases) :: SliceTally(cases, reviews, slice);
            Sum(order, lines) == Tally(order, cases, reviews)
  {
    if order != [] {
      SumIsTally(order[1..], cases, reviews);
    }
  }

  lemma {:induction false} CaseAddsOne(order: seq<string>, front: seq<Case>, item: Case)
    requires Distinct(order)
    ensures var one := if item.slice in order then 1 else 0;
            Tally(order, front + [item], []) == Plus(Tally(order, front, []), SliceProgress(one, 0, 0, 0, one))
  {
    if order != [] {
      CaseAddsOne(order[1..], front, item);
      assert (front + [item])[..|front|] == front;
      assert order == [order[0]] + order[1..];
      assert order[0] !in order[1..];
    }
  }

  lemma {:induction false} ReviewAddsOne(order: seq<string>, cases: seq<Case>, front: seq<Row>, row: Row)
    requires Distinct(order)
    ensures var one := if row.slice in order then 1 else 0;
            Tally(order, cases, front + [row])
            == Plus(Tally(order, cases, front),
                    SliceProgress(0, one, if row.decision == "approved" then one else 0,
                                  if row.decision == "rejected" then one else 0, -one))
  {
    if order != [] {
      ReviewAddsOne(order[1..], cases, front, row);
      CountStep(front, row, Some(order[0]), None);
      CountStep(front, row, Some(order[0]), Some("approved"));
      CountStep(front, row, Some(order[0]), Some("rejected"));
      assert order == [order[0]] + order[1..];
      assert order[0] !in order[1..];
    }
  }

  lemma {:induction false} EmptyTally(order: seq<string>)
    ensures Tally(order, [], []) == SliceProgress(0, 0, 0, 0, 0)
  {
    if order != [] {
      EmptyTally(order[1..]);
    }
  }

  lemma {:induction false} CasesAddUp(order: seq<string>, cases: seq<Case>)
    requires Distinct(order)
    requires forall item | item in cases :: item.slice in order
    ensures Tally(order, cases, []) == SliceProgress(|cases|, 0, 0, 0, |cases|)
  {
    if cases == [] {
      EmptyTally(order);
    } else {
      var last := |cases| - 1;
      CasesAddUp(order, cases[..last]);
      CaseAddsOne(order, cases[..last], cases[last]);
      assert cases == cases[..last] + [cases[last]];
    }
  }

  lemma {:induction false} ReviewsAddUp(order: seq<string>, cases: seq<Case>, reviews: seq<Row>)
    requires Distinct(order)
    requires forall item | item in cases :: item.slice in order
    requires forall row | row in reviews :: row.slice in order
    ensures Tally(order, cases, reviews)
            == SliceProgress(|cases|, |reviews|, Count(reviews, None, Some("approved")),
                             Count(reviews, None, Some("rejected")), |cases| - |reviews|)
    decreases reviews
  {
    if reviews == [] {
      CasesAddUp(order, cases);
    } else {
      var front, row := reviews[..|reviews| - 1], reviews[|reviews| - 1];
      assert reviews == front + [row];
      ReviewsAddUp(order, cases, front);
      ReviewAddsOne(order, cases, front, row);
      CountStep(front, row, None, Some("approved"));
      CountStep(front, row, None, Some("rejected"));
    }
  }

  /** Added up over the slices in any order, the lines give the totals. */
  lemma SlicesAddUp(codec: Codec, snapshot: Snapshot, reviews: seq<Row>, order: seq<string>)
    requires Consistent(codec, snapshot, reviews)
    requires Distinct(order)
    requires forall slice :: slice in order <==> slice in SliceNames(snapshot.cases)
    ensures var p := ProgressOf(codec, snapshot, reviews); Sum(order, p.bySlice) == TotalLine(p)
  {
    SumIsTally(order, snapshot.cases, reviews);
    forall row | row in reviews ensures row.slice in order {
      BelongsIsListed(codec, snapshot, row);
    }
    ReviewsAddUp(order, snapshot.cases, reviews);
  }
}
