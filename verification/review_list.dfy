/** The paged list of cases with their current reviews. */
module ReviewList {
  import opened Text
  import opened Integers
  import opened Options
  import opened ReviewLedger
  import opened ReviewRules
  import opened ReviewProgress
  import opened ReviewEvidence

  datatype Query = Query(slice: string, status: string, page: Int64, pageSize: Int64)
  datatype CaseView = CaseView(item: Case, review: Option<Row>)
  datatype Workbench = Workbench(status: string, progress: Progress, page: int, pageSize: int, filteredTotal: int,
                                 cases: seq<CaseView>)

  /** `Panicked` is the runtime panic of a slice expression out of range. */
  datatype Listed = Shown(workbench: Workbench) | InvalidQuery | Unavailable | Panicked

  predicate StatusName(status: string) {
    status == "all" || status == "pending" || status == "reviewed" || status == "approved" || status == "rejected"
  }

  /** Defaults filled in and text trimmed. */
  function Normalized(q: Query): Query {
    Query(Trim(q.slice), if Trim(q.status) == "" then "pending" else Trim(q.status),
          if q.page == 0 then 1 else q.page, if q.pageSize == 0 then 1 else q.pageSize)
  }

  predicate QueryOk(q: Query) {
    q.page >= 1 && 1 <= q.pageSize <= 20 && StatusName(q.status)
  }

  predicate MatchesStatus(status: string, review: Option<Row>) {
    match status
    case "all" => true
    case "pending" => review.None?
    case "reviewed" => review.Some?
    case "approved" => review.Some? && review.value.decision == status
    case "rejected" => review.Some? && review.value.decision == status
    case _ => false
  }

  /** The review entered last for a case. */
  function ReviewOf(reviews: seq<Row>, id: string): Option<Row> {
    if reviews == [] then None
    else
      var last := reviews[|reviews| - 1];
      if last.caseId == id then Some(last) else ReviewOf(reviews[..|reviews| - 1], id)
  }

  predicate Selects(q: Query, item: Case, review: Option<Row>) {
    (q.slice == "" || item.slice == q.slice) && MatchesStatus(q.status, review)
  }

  function Filtered(cases: seq<Case>, reviews: seq<Row>, q: Query): seq<CaseView> {
    if cases == [] then []
    else
      var last := cases[|cases| - 1];
      var review := ReviewOf(reviews, last.id);
      Filtered(cases[..|cases| - 1], reviews, q) + if Selects(q, last, review) then [CaseView(last, review)] else []
  }

  /** Where a page starts, as the source computes it. */
  function StartOf(page: Int64, size: Int64): Int64 {
    Wrap64(Wrap64(page - 1) * size)
  }

  /** The page the source cuts out; None when the slice expression is out of range. */
  function PageAt(filtered: seq<CaseView>, page: Int64, size: Int64): Option<seq<CaseView>> {
    var start := StartOf(page, size);
    if start >= |filtered| then Some([])
    else
      var sum := Wrap64(start + size);
      var end := if sum > |filtered| then |filtered| else sum;
      if 0 <= start <= end then Some(filtered[start..end]) else None
  }

  function StatusOf(p: Progress): string {
    if p.ready then "ready_for_sealed_materialization"
    else if p.rejected > 0 then "correction_required"
    else "human_review_in_progress"
  }

  predicate SliceKnown(cases: seq<Case>, slice: string) {
    slice == "" || exists i | 0 <= i < |cases| :: cases[i].slice == slice
  }

  function ListOf(codec: Codec, snapshot: Snapshot, reviews: seq<Row>, query: Query): Listed {
    var q := Normalized(query);
    if !QueryOk(q) then InvalidQuery
    else if !Loads(codec, snapshot, reviews) then Unavailable
    else if !SliceKnown(snapshot.cases, q.slice) then InvalidQuery
    else
      var filtered := Filtered(snapshot.cases, reviews, q);
      match PageAt(filtered, q.page, q.pageSize)
      case None => Panicked
      case Some(cases) =>
        if !Consistent(codec, snapshot, reviews) then Unavailable
        else
          var p := ProgressOf(codec, snapshot, reviews);
          Shown(Workbench(StatusOf(p), p, q.page, q.pageSize, |filtered|, cases))
  }

  ghost predicate Indexes(byCase: map<string, Row>, reviews: seq<Row>) {
    forall id :: ReviewOf(reviews, id) == if id in byCase then Some(byCase[id]) else None
  }

  method IndexReviews(reviews: seq<Row>) returns (byCase: map<string, Row>)
    ensures Indexes(byCase, reviews)
  {
    byCase := map[];
    for i := 0 to |reviews|
      invariant Indexes(byCase, reviews[..i])
    {
      assert reviews[..i + 1][..i] == reviews[..i];
      byCase := byCase[reviews[i].caseId := reviews[i]];
    }
    assert reviews[..|reviews|] == reviews;
  }

  /** The filtering loop of List. */
  method Filter(cases: seq<Case>, byCase: map<string, Row>, q: Query, ghost reviews: seq<Row>)
    returns (filtered: seq<CaseView>)
    requires Indexes(byCase, reviews)
    ensures filtered == Filtered(cases, reviews, q)
  {
    filtered := [];
    for i := 0 to |cases|
      invariant filtered == Filtered(cases[..i], reviews, q)
    {
      assert cases[..i + 1][..i] == cases[..i];
      var item := cases[i];
      if q.slice != "" && item.slice != q.slice {
        continue;
      }
      var review := if item.id in byCase then Some(byCase[item.id]) else None;
      assert review == ReviewOf(reviews, item.id);
      if !MatchesStatus(q.status, review) {
        continue;
      }
      filtered := filtered + [CaseView(item, review)];
    }
    assert cases[..|cases|] == cases;
  }

  method CutPage(filtered: seq<CaseView>, page: Int64, size: Int64) returns (pageCases: Option<seq<CaseView>>)
    ensures pageCases == PageAt(filtered, page, size)
  {
    var start := Wrap64(Wrap64(page - 1) * size);
    pageCases := Some([]);
    if start < |filtered| {
      var end: int := Wrap64(start + size);
      if end > |filtered| {
        end := |filtered|;
      }
      pageCases := if 0 <= start <= end then Some(filtered[start..end]) else None;
    }
  }

  method List(codec: Codec, snapshot: Snapshot, reviews: seq<Row>, query: Query) returns (listed: Listed)
    ensures listed == ListOf(codec, snapshot, reviews, query)
  {
    var q := Normalized(query);
    if !QueryOk(q) {
      return InvalidQuery;
    }
    if !Loads(codec, snapshot, reviews) {
      return Unavailable;
    }
    var byCase := IndexReviews(reviews);
    if !SliceKnown(snapshot.cases, q.slice) {
      return InvalidQuery;
    }
    var filtered := Filter(snapshot.cases, byCase, q, reviews);
    var pageCases := CutPage(filtered, q.page, q.pageSize);
    if pageCases.None? {
      return Panicked;
    }
    var progress := BuildProgress(codec, snapshot, reviews);
    if progress.None? {
      return Unavailable;
    }
    var p := progress.value;
    return Shown(Workbench(StatusOf(p), p, q.page, q.pageSize, |filtered|, pageCases.value));
  }

  // ----- pages partition the list, until they wrap -----

  /** The page that is asked for, in numbers that do not wrap. */
  function SpecifiedPage(filtered: seq<CaseView>, page: Int64, size: Int64): seq<CaseView>
    requires page >= 1 && size >= 1
  {
    StartsAhead(page, size);
    var start := (page - 1) * size;
    if start >= |filtered| then []
    else filtered[start..if start + size > |filtered| then |filtered| else start + size]
  }

  lemma StartsAhead(page: int, size: int)
    requires page >= 1 && size >= 1
    ensures (page - 1) * size >= 0
  {
  }

  /** Every slice the source can hold; with elements of several bytes none comes near this length. */
  predicate Addressable(filtered: seq<CaseView>) {
    |filtered| <= MAX_INT64 - 20
  }

  /** The page shown is the one asked for if and only if its start does not wrap, or wraps beyond the end. */
  lemma PageIsExact(filtered: seq<CaseView>, page: Int64, size: Int64)
    requires page >= 1 && 1 <= size <= 20 && Addressable(filtered)
    ensures PageAt(filtered, page, size) == Some(SpecifiedPage(filtered, page, size)) <==>
            StartOf(page, size) == (page - 1) * size || StartOf(page, size) >= |filtered|
    ensures PageAt(filtered, page, size).None? <==> StartOf(page, size) < 0
  {
    StartsAhead(page, size);
    var start, exact := StartOf(page, size), (page - 1) * size;
    if start != exact && 0 <= start < |filtered| {
      assert exact > MAX_INT64;
      assert SpecifiedPage(filtered, page, size) == [];
      assert |PageAt(filtered, page, size).value| >= 1;
    }
  }

  /** A start within the machine's range is exact. */
  lemma SmallPagesAreExact(filtered: seq<CaseView>, page: Int64, size: Int64)
    requires page >= 1 && 1 <= size <= 20 && Addressable(filtered) && (page - 1) * size <= MAX_INT64
    ensures PageAt(filtered, page, size) == Some(SpecifiedPage(filtered, page, size))
  {
    StartsAhead(page, size);
    PageIsExact(filtered, page, size);
  }

  /** The first n pages, put together; None once one of them panics. */
  function Pages(filtered: seq<CaseView>, count: nat, size: Int64): Option<seq<CaseView>>
    requires count <= MAX_INT64
  {
    if count == 0 then Some([])
    else
      match (Pages(filtered, count - 1, size), PageAt(filtered, count, size))
      case (Some(front), Some(page)) => Some(front + page)
      case _ => None
  }

  function FirstOf(filtered: seq<CaseView>, n: nat): seq<CaseView> {
    if n < |filtered| then filtered[..n] else filtered
  }

  /** As long as starts stay in the machine's range, the first n pages are the first n * size entries: nothing is
      shown twice, skipped or reordered. */
  lemma {:induction false} PagesPartition(filtered: seq<CaseView>, count: nat, size: Int64)
    requires 1 <= size <= 20 && Addressable(filtered)
    requires count <= MAX_INT64 && (count - 1) * size <= MAX_INT64
    ensures Pages(filtered, count, size) == Some(FirstOf(filtered, count * size))
  {
    if count > 0 {
      PageArithmetic(count, size);
      PagesPartition(filtered, count - 1, size);
      NextPageFollows(filtered, count, size);
    }
  }

  lemma NextPageFollows(filtered: seq<CaseView>, count: nat, size: Int64)
    requires 1 <= size <= 20 && Addressable(filtered)
    requires 0 < count <= MAX_INT64 && 0 <= (count - 1) * size <= MAX_INT64
    ensures PageAt(filtered, count, size).Some?
    ensures FirstOf(filtered, (count - 1) * size) + PageAt(filtered, count, size).value
         == FirstOf(filtered, (count - 1) * size + size)
  {
    SmallPagesAreExact(filtered, count, size);
  }

  lemma PageArithmetic(count: nat, size: int)
    requires count > 0 && size >= 1
    ensures count * size == (count - 1) * size + size && (count - 2) * size == (count - 1) * size - size
    ensures (count - 1) * size >= 0
  {
  }

  /** The largest page numbers the query parser lets through do wrap: this one panics, whatever is listed. */
  const PANICKING_PAGE: Int64 := 922337203685477581

  /** And this one starts at the fifth entry again. */
  const REPEATING_PAGE: Int64 := 922337203685477582

  lemma WrappedStarts()
    ensures StartOf(PANICKING_PAGE, 20) == -16 && StartOf(REPEATING_PAGE, 20) == 4
  {
  }

  lemma LargePagePanics(codec: Codec, snapshot: Snapshot, reviews: seq<Row>, slice: string, status: string)
    requires Loads(codec, snapshot, reviews)
    requires var q := Normalized(Query(slice, status, PANICKING_PAGE, 20));
             StatusName(q.status) && SliceKnown(snapshot.cases, q.slice)
    ensures ListOf(codec, snapshot, reviews, Query(slice, status, PANICKING_PAGE, 20)) == Panicked
  {
    WrappedStarts();
  }

  lemma LargePageShowsAgain(codec: Codec, snapshot: Snapshot, reviews: seq<Row>, slice: string, status: string)
    requires Consistent(codec, snapshot, reviews)
    requires var q := Normalized(Query(slice, status, REPEATING_PAGE, 20));
             && StatusName(q.status) && SliceKnown(snapshot.cases, q.slice)
             && 4 < |Filtered(snapshot.cases, reviews, q)| <= MAX_INT64 - 20
    ensures var q := Normalized(Query(slice, status, REPEATING_PAGE, 20));
            var filtered := Filtered(snapshot.cases, reviews, q);
            var listed := ListOf(codec, snapshot, reviews, Query(slice, status, REPEATING_PAGE, 20));
            && listed.Shown? && listed.workbench.cases != [] && listed.workbench.cases[0] == filtered[4]
            && SpecifiedPage(filtered, REPEATING_PAGE, 20) == []
  {
    WrappedStarts();
    ConsistentLoads(codec, snapshot, reviews);
  }

  // ----- the list agrees with the summary -----

  /** What a status filter stands for in terms of last decisions. */
  predicate Shows(status: string, decision: Option<string>) {
    match status
    case "all" => true
    case "pending" => decision.None?
    case "reviewed" => decision.Some?
    case "approved" => decision == Some(status)
    case "rejected" => decision == Some(status)
    case _ => false
  }

  lemma {:induction false} ReviewOfFinds(reviews: seq<Row>, id: string)
    ensures ReviewOf(reviews, id).None? <==> forall row | row in reviews :: row.caseId != id
    ensures ReviewOf(reviews, id).Some? ==>
              ReviewOf(reviews, id).value in reviews && ReviewOf(reviews, id).value.caseId == id
  {
    if reviews != [] {
      var last := |reviews| - 1;
      ReviewOfFinds(reviews[..last], id);
      assert reviews == reviews[..last] + [reviews[last]];
    }
  }

  /** The review shown beside a case is the one it was last given. */
  lemma ShownReviewIsLast(codec: Codec, snapshot: Snapshot, scope: Scope, rows: seq<Row>, view: seq<Row>, item: Case)
    requires Sound(codec, snapshot, scope, rows) && LatestView(rows, scope, view) && item in snapshot.cases
    ensures ReviewOf(view, item.id) == LastOf(rows, GroupIn(scope, item.id))
  {
    ReviewOfFinds(view, item.id);
    if ReviewOf(view, item.id).Some? {
      LatestIsLast(rows, ReviewOf(view, item.id).value);
    }
    if LastOf(rows, GroupIn(scope, item.id)).Some? {
      LastRowIsInView(codec, snapshot, scope, rows, view, item);
    }
  }

  ghost function ShownIds(cases: seq<Case>, scope: Scope, rows: seq<Row>, q: Query): set<string> {
    set item | item in cases && (q.slice == "" || item.slice == q.slice)
    && Shows(q.status, LastDecision(rows, scope, item.id)) :: item.id
  }

  /** The total shown for a filter is the number of cases whose last decision it stands for. */
  lemma {:induction false} FilteredTotalIsTheHistory(codec: Codec, snapshot: Snapshot, scope: Scope, rows: seq<Row>,
                                                     view: seq<Row>, q: Query, n: nat)
    requires Sound(codec, snapshot, scope, rows) && LatestView(rows, scope, view) && n <= |snapshot.cases|
    ensures |Filtered(snapshot.cases[..n], view, q)| == |ShownIds(snapshot.cases[..n], scope, rows, q)|
  {
    if n > 0 {
      FilteredTotalIsTheHistory(codec, snapshot, scope, rows, view, q, n - 1);
      var front, item := snapshot.cases[..n - 1], snapshot.cases[n - 1];
      assert snapshot.cases[..n] == front + [item];
      assert item in snapshot.cases;
      ShownReviewIsLast(codec, snapshot, scope, rows, view, item);
      forall other | other in front ensures other.id != item.id {
      }
      TotalStep(front, item, scope, rows, view, q);
    }
  }

  lemma TotalStep(front: seq<Case>, item: Case, scope: Scope, rows: seq<Row>, view: seq<Row>, q: Query)
    requires |Filtered(front, view, q)| == |ShownIds(front, scope, rows, q)|
    requires forall other | other in front :: other.id != item.id
    requires ReviewOf(view, item.id) == LastOf(rows, GroupIn(scope, item.id))
    ensures |Filtered(front + [item], view, q)| == |ShownIds(front + [item], scope, rows, q)|
  {
    ShownIdsStep(front, item, scope, rows, q);
    FilteredStep(front, item, view, q);
    SelectsWhatItShows(item, scope, rows, q);
    assert item.id !in ShownIds(front, scope, rows, q);
  }

  lemma SelectsWhatItShows(item: Case, scope: Scope, rows: seq<Row>, q: Query)
    ensures Selects(q, item, LastOf(rows, GroupIn(scope, item.id)))
       <==> (q.slice == "" || item.slice == q.slice) && Shows(q.status, LastDecision(rows, scope, item.id))
  {
  }

  lemma ShownIdsStep(front: seq<Case>, item: Case, scope: Scope, rows: seq<Row>, q: Query)
    ensures ShownIds(front + [item], scope, rows, q)
         == ShownIds(front, scope, rows, q)
            + if (q.slice == "" || item.slice == q.slice) && Shows(q.status, LastDecision(rows, scope, item.id))
              then {item.id} else {}
  {
  }

  lemma FilteredStep(front: seq<Case>, item: Case, reviews: seq<Row>, q: Query)
    ensures Filtered(front + [item], reviews, q)
         == Filtered(front, reviews, q)
            + if Selects(q, item, ReviewOf(reviews, item.id)) then [CaseView(item, ReviewOf(reviews, item.id))] else []
  {
    assert (front + [item])[..|front|] == front;
  }

  /** So a list filtered by a decision counts exactly what the summary's line for it counts. */
  lemma ListAgreesWithSummary(codec: Codec, snapshot: Snapshot, scope: Scope, rows: seq<Row>, view: seq<Row>,
                              page: Int64, pageSize: Int64)
    requires Sound(codec, snapshot, scope, rows) && LatestView(rows, scope, view)
    ensures var p := ProgressOf(codec, snapshot, view);
            && |Filtered(snapshot.cases, view, Query("", "approved", page, pageSize))| == p.approved
            && |Filtered(snapshot.cases, view, Query("", "rejected", page, pageSize))| == p.rejected
            && |Filtered(snapshot.cases, view, Query("", "pending", page, pageSize))| == p.pending
  {
    ProgressIsTheHistory(codec, snapshot, scope, rows, view);
    DecisionTotal(codec, snapshot, scope, rows, view, page, pageSize, "approved");
    DecisionTotal(codec, snapshot, scope, rows, view, page, pageSize, "rejected");
    DecisionTotal(codec, snapshot, scope, rows, view, page, pageSize, "pending");
  }

  /** The last decision a status filter for a single decision stands for. */
  function DecisionOf(status: string): Option<string> {
    if status == "pending" then None else Some(status)
  }

  lemma ShowsOneDecision(status: string, decision: Option<string>)
    requires status == "approved" || status == "rejected" || status == "pending"
    ensures Shows(status, decision) <==> decision == DecisionOf(status)
  {
  }

  lemma DecisionTotal(codec: Codec, snapshot: Snapshot, scope: Scope, rows: seq<Row>, view: seq<Row>, page: Int64,
                      pageSize: Int64, status: string)
    requires Sound(codec, snapshot, scope, rows) && LatestView(rows, scope, view)
    requires status == "approved" || status == "rejected" || status == "pending"
    ensures |Filtered(snapshot.cases, view, Query("", status, page, pageSize))|
         == |Decided(snapshot, scope, rows, None, DecisionOf(status))|
  {
    forall d: Option<string> ensures Shows(status, d) <==> d == DecisionOf(status) {
      ShowsOneDecision(status, d);
    }
    StatusTotal(codec, snapshot, scope, rows, view, Query("", status, page, pageSize), DecisionOf(status));
  }

  lemma StatusTotal(codec: Codec, snapshot: Snapshot, scope: Scope, rows: seq<Row>, view: seq<Row>, q: Query,
                    decision: Option<string>)
    requires Sound(codec, snapshot, scope, rows) && LatestView(rows, scope, view) && q.slice == ""
    requires forall d: Option<string> :: Shows(q.status, d) <==> d == decision
    ensures |Filtered(snapshot.cases, view, q)| == |Decided(snapshot, scope, rows, None, decision)|
  {
    FilteredTotalIsTheHistory(codec, snapshot, scope, rows, view, q, |snapshot.cases|);
    assert snapshot.cases[..|snapshot.cases|] == snapshot.cases;
    assert ShownIds(snapshot.cases, scope, rows, q) == Decided(snapshot, scope, rows, None, decision);
  }

  // ----- the whole answer -----

  /** A case beside its last review, wanted by the query: of its slice, and reviewed or decided as it asks. */
  predicate Wanted(scope: Scope, rows: seq<Row>, q: Query, v: CaseView) {
    && v.review == LastOf(rows, GroupIn(scope, v.item.id))
    && (q.slice == "" || v.item.slice == q.slice)
    && (q.status == "pending" ==> v.review.None?)
    && (q.status in {"reviewed", "approved", "rejected"} ==> v.review.Some?)
    && (q.status in {"approved", "rejected"} ==> v.review.value.decision == q.status)
  }

  /** Exactly the wanted cases, in the order of the catalog. */
  lemma {:induction false} FilteredIsWanted(codec: Codec, snapshot: Snapshot, scope: Scope, rows: seq<Row>,
                                            view: seq<Row>, q: Query, n: nat)
    requires Sound(codec, snapshot, scope, rows) && LatestView(rows, scope, view) && n <= |snapshot.cases|
    requires StatusName(q.status)
    ensures var filtered := Filtered(snapshot.cases[..n], view, q);
            forall v :: v in filtered <==> v.item in snapshot.cases[..n] && Wanted(scope, rows, q, v)
  {
    if n > 0 {
      FilteredIsWanted(codec, snapshot, scope, rows, view, q, n - 1);
      var front, item := snapshot.cases[..n - 1], snapshot.cases[n - 1];
      assert snapshot.cases[..n] == front + [item];
      assert item in snapshot.cases;
      ShownReviewIsLast(codec, snapshot, scope, rows, view, item);
      FilteredStep(front, item, view, q);
      LastIsWanted(scope, rows, q, item);
    }
  }

  lemma LastIsWanted(scope: Scope, rows: seq<Row>, q: Query, item: Case)
    requires StatusName(q.status)
    ensures var review := LastOf(rows, GroupIn(scope, item.id));
            Selects(q, item, review) <==> Wanted(scope, rows, q, CaseView(item, review))
  {
  }

  /** A query the service answers: a page number from one (or none), at most twenty cases (or none), a status it knows
      (or none) and a slice of the catalog (or none). */
  predicate Answerable(snapshot: Snapshot, query: Query) {
    && query.page >= 0 && 0 <= query.pageSize <= 20
    && Trim(query.status) in {"", "all", "pending", "reviewed", "approved", "rejected"}
    && (Trim(query.slice) == "" || exists item | item in snapshot.cases :: item.slice == Trim(query.slice))
  }

  lemma AnswerableExactly(snapshot: Snapshot, query: Query)
    ensures Answerable(snapshot, query) <==>
              QueryOk(Normalized(query)) && SliceKnown(snapshot.cases, Normalized(query).slice)
  {
    var slice := Trim(query.slice);
    if item :| item in snapshot.cases && item.slice == slice {
      var i :| 0 <= i < |snapshot.cases| && snapshot.cases[i] == item;
    }
  }

  lemma ListUnfolds(codec: Codec, snapshot: Snapshot, reviews: seq<Row>, query: Query)
    requires Loads(codec, snapshot, reviews) && Consistent(codec, snapshot, reviews)
    ensures var listed, q := ListOf(codec, snapshot, reviews, query), Normalized(query);
            && (listed == InvalidQuery <==> !(QueryOk(q) && SliceKnown(snapshot.cases, q.slice)))
            && listed != Unavailable
            && (listed.Shown? ==>
                  && listed.workbench.filteredTotal == |Filtered(snapshot.cases, reviews, q)|
                  && (forall v | v in listed.workbench.cases :: v in Filtered(snapshot.cases, reviews, q))
                  && listed.workbench.progress == ProgressOf(codec, snapshot, reviews)
                  && listed.workbench.page == q.page && listed.workbench.pageSize == q.pageSize)
  {
  }

  /** Over a sound history a query is refused exactly when it cannot be answered; what is shown are wanted cases, and
      the total is the number of them. */
  lemma ListTellsTheHistory(codec: Codec, snapshot: Snapshot, scope: Scope, rows: seq<Row>, view: seq<Row>,
                            query: Query)
    requires Sound(codec, snapshot, scope, rows) && LatestView(rows, scope, view)
    ensures var listed, q := ListOf(codec, snapshot, view, query), Normalized(query);
            && (listed == InvalidQuery <==> !Answerable(snapshot, query)) && listed != Unavailable
            && (listed.Shown? ==>
                  && listed.workbench.filteredTotal == |ShownIds(snapshot.cases, scope, rows, q)|
                  && (forall v | v in listed.workbench.cases :: v.item in snapshot.cases && Wanted(scope, rows, q, v))
                  && listed.workbench.progress == ProgressOf(codec, snapshot, view)
                  && listed.workbench.page == q.page && listed.workbench.pageSize == q.pageSize)
  {
    AnswerableExactly(snapshot, query);
    LatestViewIsConsistent(codec, snapshot, scope, rows, view);
    ConsistentLoads(codec, snapshot, view);
    ListUnfolds(codec, snapshot, view, query);
    var q := Normalized(query);
    assert snapshot.cases[..|snapshot.cases|] == snapshot.cases;
    FilteredTotalIsTheHistory(codec, snapshot, scope, rows, view, q, |snapshot.cases|);
    if QueryOk(q) {
      FilteredIsWanted(codec, snapshot, scope, rows, view, q, |snapshot.cases|);
    }
  }
}
