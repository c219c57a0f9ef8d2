/** The append-only review table and its Append transaction, alone and interleaved. */
module ReviewLedger {
  import opened Options

  /** Nanoseconds since the zero time. */
  type Time = int

  datatype Row = Row(
    id: string, schemaVersion: string, datasetVersion: string, catalogSha: string, governanceSha: string,
    slice: string, caseId: string, caseSha: string, reviewerHash: string, revision: int, decision: string,
    reasonCodesJson: string, comment: string, expectedRevision: int, keyHash: string, requestSha: string,
    reviewSha: string, previousSha: string, createdAt: Time)

  /** What a revision number counts within. */
  datatype Group = Group(catalogSha: string, governanceSha: string, caseId: string, reviewerHash: string)

  function GroupOf(row: Row): Group {
    Group(row.catalogSha, row.governanceSha, row.caseId, row.reviewerHash)
  }

  /** A breach of the primary key or of one of the three unique indexes. */
  predicate Clash(a: Row, b: Row) {
    || a.id == b.id
    || a.keyHash == b.keyHash
    || a.reviewSha == b.reviewSha
    || (GroupOf(a) == GroupOf(b) && a.revision == b.revision)
  }

  datatype Outcome =
    | Created(row: Row)
    | Replayed(row: Row)
    | IdempotencyConflict
    | RevisionConflict
    | DatabaseError

  function FindKey(rows: seq<Row>, keyHash: string): Option<Row> {
    if rows == [] then None
    else if rows[0].keyHash == keyHash then Some(rows[0])
    else FindKey(rows[1..], keyHash)
  }

  /** ORDER BY revision DESC LIMIT 1 within a group; 0 when the group is empty. */
  function LatestRevision(rows: seq<Row>, g: Group): int {
    if rows == [] then 0
    else
      var last := rows[|rows| - 1];
      var rest := LatestRevision(rows[..|rows| - 1], g);
      if GroupOf(last) == g && last.revision > rest then last.revision else rest
  }

  /** The first read: a replay or a conflict when the key is already there. */
  function LookUp(view: seq<Row>, candidate: Row): Option<Outcome> {
    match FindKey(view, candidate.keyHash)
    case None => None
    case Some(row) => Some(if row.requestSha != candidate.requestSha then IdempotencyConflict else Replayed(row))
  }

  /** The second read: the optimistic revision check. */
  predicate RevisionOk(view: seq<Row>, candidate: Row) {
    var current := LatestRevision(view, GroupOf(candidate));
    current == candidate.expectedRevision && candidate.revision == current + 1
  }

  /** The insert: the unique indexes judge against the table as it is now. */
  function Insert(rows: seq<Row>, candidate: Row): (seq<Row>, Outcome) {
    if exists i | 0 <= i < |rows| :: Clash(rows[i], candidate) then (rows, DatabaseError)
    else (rows + [candidate], Created(candidate))
  }

  /** One Append whose two reads saw the first `keyView` and `latestView` rows. */
  function AppendStep(rows: seq<Row>, candidate: Row, keyView: nat, latestView: nat): (seq<Row>, Outcome)
    requires keyView <= |rows| && latestView <= |rows|
  {
    match LookUp(rows[..keyView], candidate)
    case Some(outcome) => (rows, outcome)
    case None =>
      if !RevisionOk(rows[..latestView], candidate) then (rows, RevisionConflict) else Insert(rows, candidate)
  }

  class Ledger {
    var rows: seq<Row>

    constructor ()
      ensures rows == []
    {
      rows := [];
    }

    /** Append as one caller runs it; stale snapshots are earlier prefixes of the table. */
    method Append(candidate: Row, keyView: nat, latestView: nat) returns (outcome: Outcome)
      requires keyView <= |rows| && latestView <= |rows|
      modifies this
      ensures (rows, outcome) == AppendStep(old(rows), candidate, keyView, latestView)
    {
      var replay := FindKey(rows[..keyView], candidate.keyHash);
      if replay.Some? {
        if replay.value.requestSha != candidate.requestSha {
          return IdempotencyConflict;
        }
        return Replayed(replay.value);
      }
      var currentRevision := LatestRevision(rows[..latestView], GroupOf(candidate));
      if currentRevision != candidate.expectedRevision || candidate.revision != currentRevision + 1 {
        return RevisionConflict;
      }
      if exists i | 0 <= i < |rows| :: Clash(rows[i], candidate) {
        return DatabaseError;
      }
      rows := rows + [candidate];
      return Created(candidate);
    }
  }

  // ----- what the table means -----

  function CountGroup(rows: seq<Row>, g: Group): nat {
    if rows == [] then 0
    else CountGroup(rows[..|rows| - 1], g) + if GroupOf(rows[|rows| - 1]) == g then 1 else 0
  }

  /** Every row is numbered one more than the rows of its group before it. */
  ghost predicate Contiguous(rows: seq<Row>) {
    forall i | 0 <= i < |rows| :: rows[i].revision == CountGroup(rows[..i], GroupOf(rows[i])) + 1
  }

  ghost predicate IndexesHold(rows: seq<Row>) {
    forall i, j | 0 <= i < j < |rows| :: !Clash(rows[i], rows[j])
  }

  lemma {:induction false} CountGrows(rows: seq<Row>, k: nat, g: Group)
    requires k <= |rows|
    ensures CountGroup(rows[..k], g) <= CountGroup(rows, g)
    decreases |rows| - k
  {
    if k < |rows| {
      CountGrows(rows, k + 1, g);
      assert rows[..k + 1][..k] == rows[..k];
    } else {
      assert rows[..k] == rows;
    }
  }

  lemma ContiguousPrefix(rows: seq<Row>, k: nat)
    requires k <= |rows| && Contiguous(rows)
    ensures Contiguous(rows[..k])
  {
    forall i | 0 <= i < k ensures rows[..k][..i] == rows[..i] && rows[..k][i] == rows[i] {
    }
  }

  /** In a contiguous table the latest revision of a group is its size. */
  lemma {:induction false} LatestIsCount(rows: seq<Row>, g: Group)
    requires Contiguous(rows)
    ensures LatestRevision(rows, g) == CountGroup(rows, g)
  {
    if rows != [] {
      ContiguousPrefix(rows, |rows| - 1);
      LatestIsCount(rows[..|rows| - 1], g);
    }
  }

  ghost predicate Held(rows: seq<Row>, g: Group, r: int) {
    exists i :: 0 <= i < |rows| && GroupOf(rows[i]) == g && rows[i].revision == r
  }

  lemma RevisionWithinCount(rows: seq<Row>, i: nat)
    requires Contiguous(rows) && i < |rows|
    ensures 1 <= rows[i].revision <= CountGroup(rows, GroupOf(rows[i]))
  {
    CountGrows(rows, i + 1, GroupOf(rows[i]));
    assert rows[..i + 1][..i] == rows[..i];
  }

  lemma {:induction false} RevisionIsHeld(rows: seq<Row>, g: Group, r: int) returns (i: nat)
    requires Contiguous(rows) && 1 <= r <= CountGroup(rows, g)
    ensures i < |rows| && GroupOf(rows[i]) == g && rows[i].revision == r
  {
    var last := |rows| - 1;
    if r <= CountGroup(rows[..last], g) {
      ContiguousPrefix(rows, last);
      i := RevisionIsHeld(rows[..last], g, r);
    } else {
      i := last;
    }
  }

  /** The revisions held in a group are exactly 1..n. */
  lemma RevisionsAreOneToN(rows: seq<Row>, g: Group, r: int)
    requires Contiguous(rows)
    ensures Held(rows, g, r) <==> 1 <= r <= CountGroup(rows, g)
  {
    if Held(rows, g, r) {
      var i :| 0 <= i < |rows| && GroupOf(rows[i]) == g && rows[i].revision == r;
      RevisionWithinCount(rows, i);
    }
    if 1 <= r <= CountGroup(rows, g) {
      var i := RevisionIsHeld(rows, g, r);
    }
  }

  /** Inserting after a stale revision check either clashes or takes exactly the next revision. */
  lemma StaleCheckIsSafe(rows: seq<Row>, candidate: Row, view: nat)
    requires Contiguous(rows) && IndexesHold(rows) && view <= |rows| && RevisionOk(rows[..view], candidate)
    ensures var (rows', outcome) := Insert(rows, candidate);
            && Contiguous(rows') && IndexesHold(rows') && rows <= rows'
            && (outcome.Created? ==> candidate.revision == CountGroup(rows, GroupOf(candidate)) + 1)
  {
    var g := GroupOf(candidate);
    ContiguousPrefix(rows, view);
    LatestIsCount(rows[..view], g);
    CountGrows(rows, view, g);
    RevisionsAreOneToN(rows, g, candidate.revision);
    var (rows', outcome) := Insert(rows, candidate);
    if outcome.Created? {
      assert candidate.revision == CountGroup(rows, g) + 1;
      forall i | 0 <= i < |rows'|
        ensures rows'[i].revision == CountGroup(rows'[..i], GroupOf(rows'[i])) + 1
      {
        assert rows'[..i] == rows[..i];
        if i == |rows| {
          assert rows[..i] == rows;
        }
      }
    }
  }

  lemma {:induction false} FindKeyFinds(rows: seq<Row>, keyHash: string)
    ensures FindKey(rows, keyHash).None? <==> forall row | row in rows :: row.keyHash != keyHash
    ensures FindKey(rows, keyHash).Some? ==>
              FindKey(rows, keyHash).value in rows && FindKey(rows, keyHash).value.keyHash == keyHash
  {
    if rows != [] {
      FindKeyFinds(rows[1..], keyHash);
      assert rows == [rows[0]] + rows[1..];
    }
  }

  lemma OnlyOneMatch(rows: seq<Row>, i: nat, j: nat)
    requires IndexesHold(rows) && i < |rows| && j < |rows| && Clash(rows[i], rows[j])
    ensures i == j
  {
  }

  lemma KeyIsUnique(rows: seq<Row>, a: Row, b: Row)
    requires IndexesHold(rows) && a in rows && b in rows && a.keyHash == b.keyHash
    ensures a == b
  {
    var i :| 0 <= i < |rows| && rows[i] == a;
    var j :| 0 <= j < |rows| && rows[j] == b;
    OnlyOneMatch(rows, i, j);
  }

  // ----- interleaved transactions -----

  datatype Pc = KeyUnread | KeyMissed | RevisionRead(view: nat) | Done(outcome: Outcome)
  datatype Txn = Txn(candidate: Row, pc: Pc)
  datatype State = State(rows: seq<Row>, txns: map<nat, Txn>)

  /** The steps transactions interleave at; each read may see any earlier prefix of the table. */
  datatype Action =
    | Begin(t: nat, candidate: Row)
    | ReadKey(t: nat, view: nat)
    | ReadLatest(t: nat, view: nat)
    | TryInsert(t: nat)

  function Become(s: State, t: nat, pc: Pc): State
    requires t in s.txns
  {
    s.(txns := s.txns[t := s.txns[t].(pc := pc)])
  }

  function Next(s: State, a: Action): State {
    match a
    case Begin(t, candidate) =>
      if t in s.txns then s else s.(txns := s.txns[t := Txn(candidate, KeyUnread)])
    case ReadKey(t, view) =>
      if t !in s.txns || s.txns[t].pc != KeyUnread || view > |s.rows| then s
      else
        (match LookUp(s.rows[..view], s.txns[t].candidate)
         case Some(outcome) => Become(s, t, Done(outcome))
         case None => Become(s, t, KeyMissed))
    case ReadLatest(t, view) =>
      if t !in s.txns || s.txns[t].pc != KeyMissed || view > |s.rows| then s
      else Become(s, t, if RevisionOk(s.rows[..view], s.txns[t].candidate) then RevisionRead(view)
                        else Done(RevisionConflict))
    case TryInsert(t) =>
      if t !in s.txns || !s.txns[t].pc.RevisionRead? then s
      else
        var (rows, outcome) := Insert(s.rows, s.txns[t].candidate);
        Become(s.(rows := rows), t, Done(outcome))
  }

  function Run(actions: seq<Action>): State {
    if actions == [] then State([], map[]) else Next(Run(actions[..|actions| - 1]), actions[|actions| - 1])
  }

  /** Append, as one caller runs it, is four of these steps with nobody in between. */
  lemma AppendIsFourSteps(s: State, t: nat, candidate: Row, keyView: nat, latestView: nat)
    requires t !in s.txns && keyView <= |s.rows| && latestView <= |s.rows|
    ensures var begun := Next(s, Begin(t, candidate));
            var looked := Next(begun, ReadKey(t, keyView));
            var checked := Next(looked, ReadLatest(t, latestView));
            var done := Next(checked, TryInsert(t));
            var (rows, outcome) := AppendStep(s.rows, candidate, keyView, latestView);
            done.rows == rows && done.txns[t].pc == Done(outcome)
  {
  }

  /** What is known of one transaction at any moment. */
  ghost predicate TxnOk(rows: seq<Row>, txn: Txn) {
    match txn.pc
    case RevisionRead(view) => view <= |rows| && RevisionOk(rows[..view], txn.candidate)
    case Done(Created(row)) => row == txn.candidate && row in rows && row.revision == row.expectedRevision + 1
    case Done(Replayed(row)) =>
      row in rows && row.keyHash == txn.candidate.keyHash && row.requestSha == txn.candidate.requestSha
    case _ => true
  }

  predicate HasCreated(s: State, t: nat) {
    t in s.txns && s.txns[t].pc.Done? && s.txns[t].pc.outcome.Created?
  }

  ghost predicate Inv(s: State) {
    && Contiguous(s.rows) && IndexesHold(s.rows)
    && (forall t | t in s.txns :: TxnOk(s.rows, s.txns[t]))
    && (forall t, u | HasCreated(s, t) && HasCreated(s, u) && t != u ::
          !Clash(s.txns[t].candidate, s.txns[u].candidate))
  }

  lemma TxnOkGrows(rows: seq<Row>, rows': seq<Row>, txn: Txn)
    requires TxnOk(rows, txn) && rows <= rows'
    ensures TxnOk(rows', txn)
  {
    if txn.pc.RevisionRead? {
      assert rows'[..txn.pc.view] == rows[..txn.pc.view];
    }
  }

  lemma InsertKeepsTxns(s: State, t: nat, u: nat)
    requires Inv(s) && t in s.txns && s.txns[t].pc.RevisionRead? && u in s.txns
    ensures var s' := Next(s, TryInsert(t)); TxnOk(s'.rows, s'.txns[u])
  {
    var candidate := s.txns[t].candidate;
    if u != t {
      TxnOkGrows(s.rows, Insert(s.rows, candidate).0, s.txns[u]);
    }
  }

  lemma InsertKeepsWinners(s: State, t: nat, u: nat, v: nat)
    requires Inv(s) && t in s.txns && s.txns[t].pc.RevisionRead?
    requires var s' := Next(s, TryInsert(t)); HasCreated(s', u) && HasCreated(s', v) && u != v
    ensures var s' := Next(s, TryInsert(t)); !Clash(s'.txns[u].candidate, s'.txns[v].candidate)
  {
    var candidate := s.txns[t].candidate;
    var w := if u == t then v else u;
    assert HasCreated(s, w);
    assert TxnOk(s.rows, s.txns[w]);
    var i :| 0 <= i < |s.rows| && s.rows[i] == s.txns[w].candidate;
    assert u == t || v == t ==> Insert(s.rows, candidate).1.Created?;
    assert u == t || v == t ==> !Clash(s.rows[i], candidate);
  }

  lemma InsertKeepsInv(s: State, t: nat)
    requires Inv(s) && t in s.txns && s.txns[t].pc.RevisionRead?
    ensures Inv(Next(s, TryInsert(t)))
  {
    var s' := Next(s, TryInsert(t));
    assert TxnOk(s.rows, s.txns[t]);
    StaleCheckIsSafe(s.rows, s.txns[t].candidate, s.txns[t].pc.view);
    forall u | u in s'.txns ensures TxnOk(s'.rows, s'.txns[u]) {
      InsertKeepsTxns(s, t, u);
    }
    forall u, v | HasCreated(s', u) && HasCreated(s', v) && u != v
      ensures !Clash(s'.txns[u].candidate, s'.txns[v].candidate)
    {
      InsertKeepsWinners(s, t, u, v);
    }
  }

  lemma LookUpIsOk(rows: seq<Row>, txn: Txn, view: nat)
    requires view <= |rows| && LookUp(rows[..view], txn.candidate).Some?
    ensures var outcome := LookUp(rows[..view], txn.candidate).value;
            TxnOk(rows, txn.(pc := Done(outcome))) && !outcome.Created?
  {
    FindKeyFinds(rows[..view], txn.candidate.keyHash);
  }

  lemma ReadKeyKeepsTxns(s: State, t: nat, view: nat, u: nat)
    requires Inv(s)
    ensures var s' := Next(s, ReadKey(t, view));
            && s'.rows == s.rows
            && (u in s'.txns ==> TxnOk(s.rows, s'.txns[u]))
            && (HasCreated(s', u) ==> HasCreated(s, u) && s'.txns[u] == s.txns[u])
  {
    if t in s.txns && view <= |s.rows| && LookUp(s.rows[..view], s.txns[t].candidate).Some? {
      LookUpIsOk(s.rows, s.txns[t], view);
    }
  }

  lemma ReadLatestKeepsTxns(s: State, t: nat, view: nat, u: nat)
    requires Inv(s)
    ensures var s' := Next(s, ReadLatest(t, view));
            && s'.rows == s.rows
            && (u in s'.txns ==> TxnOk(s.rows, s'.txns[u]))
            && (HasCreated(s', u) ==> HasCreated(s, u) && s'.txns[u] == s.txns[u])
  {
  }

  lemma ReadKeepsTxns(s: State, a: Action, u: nat)
    requires Inv(s) && !a.TryInsert?
    ensures var s' := Next(s, a);
            && s'.rows == s.rows
            && (u in s'.txns ==> TxnOk(s.rows, s'.txns[u]))
            && (HasCreated(s', u) ==> HasCreated(s, u) && s'.txns[u] == s.txns[u])
  {
    match a
    case ReadKey(t, view) => ReadKeyKeepsTxns(s, t, view, u);
    case ReadLatest(t, view) => ReadLatestKeepsTxns(s, t, view, u);
    case Begin(_, _) =>
  }

  lemma ReadKeepsInv(s: State, a: Action)
    requires Inv(s) && !a.TryInsert?
    ensures Inv(Next(s, a)) && Next(s, a).rows == s.rows
  {
    var s' := Next(s, a);
    ReadKeepsTxns(s, a, 0);
    forall u | u in s'.txns
      ensures TxnOk(s.rows, s'.txns[u]) && (HasCreated(s', u) ==> HasCreated(s, u) && s'.txns[u] == s.txns[u])
    {
      ReadKeepsTxns(s, a, u);
    }
  }

  lemma {:induction false} RunKeepsInv(actions: seq<Action>)
    ensures Inv(Run(actions))
  {
    if actions != [] {
      var before, last := actions[..|actions| - 1], actions[|actions| - 1];
      RunKeepsInv(before);
      if last.TryInsert? && last.t in Run(before).txns && Run(before).txns[last.t].pc.RevisionRead? {
        InsertKeepsInv(Run(before), last.t);
      } else if !last.TryInsert? {
        ReadKeepsInv(Run(before), last);
      }
    }
  }

  /** After any interleaving, the revisions of every group are exactly 1..n, each held once. */
  lemma LedgerIsSafe(actions: seq<Action>, g: Group, r: int)
    ensures var rows := Run(actions).rows;
            && IndexesHold(rows)
            && (Held(rows, g, r) <==> 1 <= r <= CountGroup(rows, g))
            && (forall i, j | 0 <= i < |rows| && 0 <= j < |rows| && GroupOf(rows[i]) == GroupOf(rows[j]) ::
                  rows[i].revision == rows[j].revision ==> i == j)
  {
    RunKeepsInv(actions);
    RevisionsAreOneToN(Run(actions).rows, g, r);
    var rows := Run(actions).rows;
    forall i, j | && 0 <= i < |rows| && 0 <= j < |rows|
                  && GroupOf(rows[i]) == GroupOf(rows[j]) && rows[i].revision == rows[j].revision
      ensures i == j
    {
      OnlyOneMatch(rows, i, j);
    }
  }

  /** No row is ever changed, moved or lost. */
  lemma {:induction false} RowsAreKept(before: seq<Action>, later: seq<Action>)
    ensures Run(before).rows <= Run(before + later).rows
    decreases later
  {
    if later == [] {
      assert before + later == before;
    } else {
      var last := |later| - 1;
      RowsAreKept(before, later[..last]);
      assert (before + later)[..|before + later| - 1] == before + later[..last];
    }
  }

  /** Of two submissions against the same expected revision, at most one creates a row. */
  lemma OneWinnerPerRevision(actions: seq<Action>, t: nat, u: nat)
    requires var s := Run(actions);
             && HasCreated(s, t) && HasCreated(s, u)
             && GroupOf(s.txns[t].candidate) == GroupOf(s.txns[u].candidate)
             && s.txns[t].candidate.expectedRevision == s.txns[u].candidate.expectedRevision
    ensures t == u
  {
    RunKeepsInv(actions);
    var s := Run(actions);
    assert TxnOk(s.rows, s.txns[t]) && TxnOk(s.rows, s.txns[u]);
  }

  predicate Succeeded(s: State, t: nat) {
    t in s.txns && s.txns[t].pc.Done? && (s.txns[t].pc.outcome.Created? || s.txns[t].pc.outcome.Replayed?)
  }

  /** All submissions that succeed under one key return the same row, and one at most created it. */
  lemma OneRowPerKey(actions: seq<Action>, t: nat, u: nat)
    requires var s := Run(actions);
             Succeeded(s, t) && Succeeded(s, u) && s.txns[t].candidate.keyHash == s.txns[u].candidate.keyHash
    ensures var s := Run(actions);
            && s.txns[t].pc.outcome.row == s.txns[u].pc.outcome.row
            && s.txns[t].pc.outcome.row in s.rows
            && s.txns[t].candidate.requestSha == s.txns[u].candidate.requestSha
            && (HasCreated(s, t) && HasCreated(s, u) ==> t == u)
  {
    RunKeepsInv(actions);
    var s := Run(actions);
    assert TxnOk(s.rows, s.txns[t]) && TxnOk(s.rows, s.txns[u]);
    KeyIsUnique(s.rows, s.txns[t].pc.outcome.row, s.txns[u].pc.outcome.row);
  }

  /** Once a key is in the table: a caller whose first read sees it gets that row back when its content
      is the same and a conflict when it is not; a caller with a stale first read never creates a row. */
  lemma KeyTakenIsFinal(rows: seq<Row>, row: Row, candidate: Row, keyView: nat, latestView: nat)
    requires IndexesHold(rows) && row in rows && row.keyHash == candidate.keyHash
    requires keyView <= |rows| && latestView <= |rows|
    ensures var (rows', outcome) := AppendStep(rows, candidate, keyView, latestView);
            && rows' == rows && !outcome.Created?
            && (row in rows[..keyView] ==>
                  outcome == if row.requestSha == candidate.requestSha then Replayed(row) else IdempotencyConflict)
            && (row !in rows[..keyView] ==> outcome == RevisionConflict || outcome == DatabaseError)
  {
    FindKeyFinds(rows[..keyView], candidate.keyHash);
    var found := FindKey(rows[..keyView], candidate.keyHash);
    if found.Some? {
      assert found.value in rows;
      KeyIsUnique(rows, found.value, row);
    }
    var i :| 0 <= i < |rows| && rows[i] == row;
    assert Clash(rows[i], candidate);
  }

  // ----- what a stale repeat can meet -----

  lemma RunSnoc(actions: seq<Action>, a: Action)
    ensures Run(actions + [a]) == Next(Run(actions), a)
  {
    assert (actions + [a])[..|actions|] == actions;
  }

  /** The same request once more: same key, same content, for the first revision of a case. */
  predicate FirstTwice(a: Row, b: Row) {
    && a.keyHash == b.keyHash && a.requestSha == b.requestSha && GroupOf(a) == GroupOf(b)
    && a.revision == b.revision == 1 && a.expectedRevision == b.expectedRevision == 0
  }

  /** With the first transaction's row in the table: a repeat that misses the key is a revision conflict if its
      second read sees the row and an index failure if not; one that sees the key is a replay. */
  lemma RepeatAfterFirst(a: Row, b: Row)
    requires FirstTwice(a, b)
    ensures AppendStep([], a, 0, 0) == ([a], Created(a))
    ensures AppendStep([a], b, 0, 0) == ([a], DatabaseError)
    ensures AppendStep([a], b, 0, 1) == ([a], RevisionConflict)
    ensures AppendStep([a], b, 1, 1) == ([a], Replayed(a))
  {
    assert [a][..0] == [] && [a][..1] == [a];
    assert [] + [a] == [a];
    assert LatestRevision([], GroupOf(b)) == 0;
    assert LatestRevision([a], GroupOf(b)) == 1 by {
      assert [a][..|[a]| - 1] == [];
    }
    assert Clash([a][0], b);
  }

  /** Two transactions of one request whose first reads both come before any row. */
  function Overlapping(a: Row, b: Row): seq<Action> {
    FirstAlone(a) + [Begin(2, b)] + [ReadKey(2, 0)]
  }

  function FirstAlone(a: Row): seq<Action> {
    [Begin(1, a)] + [ReadKey(1, 0)] + [ReadLatest(1, 0)]
  }

  lemma AfterFirstAlone(a: Row)
    requires a.revision == 1 && a.expectedRevision == 0
    ensures Run(FirstAlone(a)) == State([], map[1 := Txn(a, RevisionRead(0))])
  {
    RunSnoc([], Begin(1, a));
    assert [] + [Begin(1, a)] == [Begin(1, a)];
    RunSnoc([Begin(1, a)], ReadKey(1, 0));
    RunSnoc([Begin(1, a)] + [ReadKey(1, 0)], ReadLatest(1, 0));
    var none: seq<Row> := [];
    assert none[..0] == none;
  }

  lemma AfterOverlap(a: Row, b: Row)
    requires FirstTwice(a, b)
    ensures Run(Overlapping(a, b)) == State([], map[1 := Txn(a, RevisionRead(0)), 2 := Txn(b, KeyMissed)])
  {
    AfterFirstAlone(a);
    RunSnoc(FirstAlone(a), Begin(2, b));
    RunSnoc(FirstAlone(a) + [Begin(2, b)], ReadKey(2, 0));
    var none: seq<Row> := [];
    assert none[..0] == none;
  }

  /** If the second also checked its revision before the first inserted, it ends in a database error. */
  lemma StaleRepeatFailsInTheDatabase(a: Row, b: Row)
    requires FirstTwice(a, b)
    ensures var s := Run(Overlapping(a, b) + [ReadLatest(2, 0)] + [TryInsert(1)] + [TryInsert(2)]);
            s.rows == [a] && s.txns == map[1 := Txn(a, Done(Created(a))), 2 := Txn(b, Done(DatabaseError))]
  {
    AfterOverlap(a, b);
    RepeatAfterFirst(a, b);
    var actions := Overlapping(a, b);
    RunSnoc(actions, ReadLatest(2, 0));
    RunSnoc(actions + [ReadLatest(2, 0)], TryInsert(1));
    RunSnoc(actions + [ReadLatest(2, 0)] + [TryInsert(1)], TryInsert(2));
    var none: seq<Row> := [];
    assert none[..0] == none;
    InsertFirst(a);
    assert Clash([a][0], b);
  }

  lemma InsertFirst(a: Row)
    ensures Insert([], a) == ([a], Created(a))
  {
    assert [] + [a] == [a];
  }

  /** If it checks its revision afterwards, it ends in a revision conflict. */
  lemma StaleRepeatFindsTheRevisionTaken(a: Row, b: Row)
    requires FirstTwice(a, b)
    ensures var s := Run(Overlapping(a, b) + [TryInsert(1)] + [ReadLatest(2, 1)]);
            s.rows == [a] && s.txns == map[1 := Txn(a, Done(Created(a))), 2 := Txn(b, Done(RevisionConflict))]
  {
    AfterOverlap(a, b);
    var actions := Overlapping(a, b);
    RunSnoc(actions, TryInsert(1));
    RunSnoc(actions + [TryInsert(1)], ReadLatest(2, 1));
    InsertFirst(a);
    FirstTakesTheRevision(a, b);
  }

  lemma FirstTakesTheRevision(a: Row, b: Row)
    requires FirstTwice(a, b)
    ensures [a][..1] == [a] && !RevisionOk([a], b)
  {
    assert [a][..|[a]| - 1] == [];
  }
}
