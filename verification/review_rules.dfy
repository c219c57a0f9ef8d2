/** What a review row must look like, and how a submission is turned into one. */
module ReviewRules {
  import opened Text
  import opened Sequences
  import opened Options
  import opened Integers
  import opened ReviewLedger

  /** Hashing, JSON and number formatting, which the services call but do not define. */
  datatype Codec = Codec(
    sha: string -> string,
    encodeReasons: seq<string> -> string, decodeReasons: string -> Option<seq<string>>,
    decimal: int -> string, timestamp: Time -> string)
  {
    ghost predicate Good() {
      && (forall s :: |sha(s)| == 64 && Hex(sha(s)))
      && (forall r :: decodeReasons(encodeReasons(r)) == Some(r) && NulFree(encodeReasons(r)))
      && (forall n :: NulFree(decimal(n)))
      && (forall m, n :: decimal(m) == decimal(n) ==> m == n)
    }
  }

  predicate Hex(s: string) {
    forall i | 0 <= i < |s| :: '0' <= s[i] <= '9' || 'a' <= s[i] <= 'f'
  }

  const NUL: string := ['\0']

  predicate NulFree(s: string) {
    '\0' !in s
  }

  function Digest(codec: Codec, s: string): string {
    codec.sha(Trim(s))
  }

  // ----- reasons -----

  function AllowedReasons(): set<string> {
    {"ambiguous_input", "expected_result_incorrect", "missing_context", "schema_issue", "unsafe_or_sensitive",
     "provenance_missing", "criterion_not_independent", "scenario_not_representative", "not_discriminative"}
  }

  /** The reasons without white space around them, blanks dropped. */
  function Kept(values: seq<string>): seq<string> {
    if values == [] then []
    else
      var last := Trim(values[|values| - 1]);
      Kept(values[..|values| - 1]) + if last == "" then [] else [last]
  }

  predicate Suits(decision: string, reasons: seq<string>) {
    if decision == "approved" then
      |reasons| == 1 && reasons[0] == "label_verified"
    else
      1 <= |reasons| <= 3 && forall i | 0 <= i < |reasons| :: reasons[i] in AllowedReasons()
  }

  function NormalizeReasons(decision: string, values: seq<string>): Option<seq<string>> {
    if decision != "approved" && decision != "rejected" then None
    else if !Distinct(Kept(values)) then None
    else
      var reasons := SortStrings(Kept(values));
      if Suits(decision, reasons) then Some(reasons) else None
  }

  lemma {:induction false} KeptPrefix(values: seq<string>, k: nat)
    requires k <= |values|
    ensures Kept(values[..k]) <= Kept(values)
    decreases |values| - k
  {
    if k < |values| {
      KeptPrefix(values, k + 1);
      assert values[..k + 1][..k] == values[..k];
    } else {
      assert values[..k] == values;
    }
  }

  /** The first half of normalizeReasons: trim, drop blanks, and refuse a reason already seen. */
  method CollectReasons(values: seq<string>) returns (collected: Option<seq<string>>)
    ensures collected == if Distinct(Kept(values)) then Some(Kept(values)) else None
  {
    var seen: set<string> := {};
    var reasons: seq<string> := [];
    for i := 0 to |values|
      invariant reasons == Kept(values[..i])
      invariant forall x :: x in seen <==> x in reasons
      invariant Distinct(reasons)
    {
      assert values[..i + 1][..i] == values[..i];
      var value := Trim(values[i]);
      KeptPrefix(values, i + 1);
      if value == "" {
        continue;
      }
      if value in seen {
        ghost var k :| 0 <= k < |reasons| && reasons[k] == value;
        assert Kept(values[..i + 1])[k] == Kept(values[..i + 1])[|reasons|];
        return None;
      }
      seen := seen + {value};
      reasons := reasons + [value];
    }
    assert values[..|values|] == values;
    return Some(reasons);
  }

  method Normalize(decision: string, values: seq<string>) returns (normalized: Option<seq<string>>)
    ensures normalized == NormalizeReasons(decision, values)
  {
    if decision != "approved" && decision != "rejected" {
      return None;
    }
    var collected := CollectReasons(values);
    if collected.None? {
      return None;
    }
    var reasons := SortStrings(collected.value);
    if decision == "approved" {
      if |reasons| != 1 || reasons[0] != "label_verified" {
        return None;
      }
      return Some(reasons);
    }
    if |reasons| < 1 || |reasons| > 3 {
      return None;
    }
    for i := 0 to |reasons|
      invariant forall j | 0 <= j < i :: reasons[j] in AllowedReasons()
    {
      if reasons[i] !in AllowedReasons() {
        return None;
      }
    }
    return Some(reasons);
  }

  lemma {:induction false} KeptAreTrimmed(values: seq<string>)
    ensures forall i | 0 <= i < |Kept(values)| :: Kept(values)[i] != "" && Trimmed(Kept(values)[i])
  {
    if values != [] {
      KeptAreTrimmed(values[..|values| - 1]);
      TrimIsTrimmed(values[|values| - 1]);
    }
  }

  lemma {:induction false} KeptOfTrimmed(values: seq<string>)
    requires forall i | 0 <= i < |values| :: values[i] != "" && Trimmed(values[i])
    ensures Kept(values) == values
  {
    if values != [] {
      KeptOfTrimmed(values[..|values| - 1]);
      TrimIsTrimmed(values[|values| - 1]);
    }
  }

  /** Normal form: no white space, no duplicate, sorted, the same reasons as given, and stable. */
  lemma NormalFormIsStable(decision: string, values: seq<string>)
    requires NormalizeReasons(decision, values).Some?
    ensures var reasons := NormalizeReasons(decision, values).value;
            && multiset(reasons) == multiset(Kept(values))
            && Distinct(reasons) && SortedBy(Itself, reasons)
            && (forall i | 0 <= i < |reasons| :: reasons[i] != "" && Trimmed(reasons[i]))
            && NormalizeReasons(decision, reasons) == Some(reasons)
  {
    var reasons := NormalizeReasons(decision, values).value;
    SortBySorts(Itself, Kept(values));
    KeptAreTrimmed(values);
    RearrangedStaysDistinct(Kept(values), reasons);
    forall i | 0 <= i < |reasons| ensures reasons[i] != "" && Trimmed(reasons[i]) {
      SameMembers(reasons, Kept(values), reasons[i]);
    }
    KeptOfTrimmed(reasons);
    SortBySorts(Itself, reasons);
    SortedUnique(Itself, SortStrings(reasons), reasons);
  }

  /** The order and spacing in which reasons are given do not matter. */
  lemma NormalFormForgetsOrder(decision: string, a: seq<string>, b: seq<string>)
    requires multiset(Kept(a)) == multiset(Kept(b))
    ensures NormalizeReasons(decision, a) == NormalizeReasons(decision, b)
  {
    if Distinct(Kept(a)) {
      RearrangedStaysDistinct(Kept(a), Kept(b));
    }
    if Distinct(Kept(b)) {
      RearrangedStaysDistinct(Kept(b), Kept(a));
    }
    SortForgetsOrder(Itself, Kept(a), Kept(b));
  }

  // ----- rows -----

  const SCHEMA_V3 := "evaluation-catalog-human-review-v3"
  const SCHEMA_V4 := "evaluation-catalog-human-review-v4"
  const SCHEMA_V5 := "evaluation-catalog-human-review-v5"
  const SECOND: int := 1_000_000_000

  function RequestParts(codec: Codec, row: Row): seq<string> {
    [row.catalogSha, row.governanceSha, row.caseId, row.caseSha, row.reviewerHash, codec.decimal(row.expectedRevision),
     row.decision, row.reasonCodesJson] + if row.schemaVersion == SCHEMA_V5 then [row.comment] else []
  }

  function RequestSha(codec: Codec, row: Row): string {
    Digest(codec, Join(RequestParts(codec, row), NUL))
  }

  function ReviewParts(codec: Codec, row: Row): seq<string> {
    [row.schemaVersion, row.datasetVersion, row.catalogSha, row.governanceSha, row.slice, row.caseId, row.caseSha,
     row.reviewerHash, codec.decimal(row.revision), row.decision, row.reasonCodesJson]
    + (if row.schemaVersion == SCHEMA_V5 then [row.comment] else [])
    + [codec.decimal(row.expectedRevision), row.keyHash, row.requestSha, row.previousSha,
       codec.timestamp(row.createdAt)]
  }

  function ReviewSha(codec: Codec, row: Row): string {
    Digest(codec, Join(ReviewParts(codec, row), NUL))
  }

  predicate ValidSemantics(codec: Codec, row: Row) {
    && !Blank(row.datasetVersion) && |row.catalogSha| == 64 && |row.governanceSha| == 64
    && !Blank(row.slice) && !Blank(row.caseId) && |row.caseSha| == 64 && |row.reviewerHash| == 64
    && row.revision >= 1 && row.expectedRevision == row.revision - 1
    && |row.keyHash| == 64 && |row.requestSha| == 64 && row.createdAt != 0
    && codec.decodeReasons(row.reasonCodesJson).Some?
    && NormalizeReasons(row.decision, codec.decodeReasons(row.reasonCodesJson).value).Some?
    && row.requestSha == RequestSha(codec, row)
  }

  predicate ValidReview(codec: Codec, row: Row) {
    && (row.schemaVersion == SCHEMA_V3 || row.schemaVersion == SCHEMA_V4 || row.schemaVersion == SCHEMA_V5)
    && row.id == row.reviewSha && |row.id| == 64
    && (row.previousSha == "" || |row.previousSha| == 64)
    && row.createdAt % SECOND == 0
    && |row.comment| <= 4000 && (row.schemaVersion != SCHEMA_V5 ==> row.comment == "")
    && ValidSemantics(codec, row)
    && row.reviewSha == ReviewSha(codec, row)
  }

  // ----- submissions -----

  datatype Case = Case(id: string, slice: string, datasetVersion: string, caseSha: string)
  datatype Snapshot = Snapshot(datasetVersion: string, catalogSha: string, governanceSha: string, cases: seq<Case>)

  /** What loading a catalog establishes: complete, trimmed cases with unique identifiers. */
  ghost predicate ValidSnapshot(snapshot: Snapshot) {
    && !Blank(snapshot.datasetVersion)
    && |snapshot.catalogSha| == 64 && Hex(snapshot.catalogSha)
    && |snapshot.governanceSha| == 64 && Hex(snapshot.governanceSha)
    && snapshot.cases != []
    && (forall i | 0 <= i < |snapshot.cases| :: ValidCase(snapshot.cases[i]))
    && (forall i, j | 0 <= i < j < |snapshot.cases| :: snapshot.cases[i].id != snapshot.cases[j].id)
  }

  predicate ValidCase(item: Case) {
    !Blank(item.id) && !Blank(item.slice) && |item.caseSha| == 64 && Hex(item.caseSha)
  }

  datatype Command = Command(
    catalogSha: string, governanceSha: string, caseId: string, caseSha: string, expectedRevision: Int64,
    decision: string, reasonCodes: seq<string>, comment: string, key: string, acknowledgment: string)

  datatype Error =
    | InvalidReview | CaseNotFound | RevisionChanged | KeyReused | ArtifactUnavailable | DatabaseFailed

  datatype Build = Ready(row: Row) | Refused(error: Error)

  const ACKNOWLEDGMENT := "I_REVIEWED_CASE_AND_EXPECTED_RESULT"

  predicate KeyChar(c: char) {
    || 'A' <= c <= 'Z' || 'a' <= c <= 'z' || '0' <= c <= '9'
    || c == '.' || c == '_' || c == ':' || c == '-'
  }

  predicate KeyOk(key: string) {
    16 <= |key| <= 128 && forall i | 0 <= i < |key| :: KeyChar(key[i])
  }

  function TrimCommand(c: Command): Command {
    c.(catalogSha := Trim(c.catalogSha), governanceSha := Trim(c.governanceSha), caseId := Trim(c.caseId),
       caseSha := Trim(c.caseSha), decision := Trim(c.decision), comment := Trim(c.comment), key := Trim(c.key))
  }

  /** What is checked before the catalog is loaded; the normalized reasons when it passes. */
  function Screen(reviewer: string, command: Command): Option<seq<string>> {
    if || Blank(reviewer) || command.expectedRevision < 0 || command.acknowledgment != ACKNOWLEDGMENT
       || !KeyOk(command.key) || |command.comment| > 4000
    then None
    else NormalizeReasons(command.decision, command.reasonCodes)
  }

  function FindCase(cases: seq<Case>, id: string): Option<Case> {
    if cases == [] then None else if cases[0].id == id then Some(cases[0]) else FindCase(cases[1..], id)
  }

  function Truncate(now: Time): Time {
    now - now % SECOND
  }

  function MakeRow(codec: Codec, snapshot: Snapshot, reviewer: string, command: Command, item: Case,
                   reasons: seq<string>, now: Time): Row
  {
    var reviewerHash := Digest(codec, reviewer);
    var draft := Row(
      "", SCHEMA_V5, snapshot.datasetVersion, snapshot.catalogSha, snapshot.governanceSha, item.slice, item.id,
      item.caseSha, reviewerHash, Successor(command.expectedRevision), command.decision, codec.encodeReasons(reasons),
      command.comment,
      command.expectedRevision, Digest(codec, reviewerHash + NUL + command.key), "", "", "", Truncate(now));
    var requested := draft.(requestSha := RequestSha(codec, draft));
    var sha := ReviewSha(codec, requested);
    requested.(reviewSha := sha, id := sha)
  }

  /** The candidate row of one submission, or why there is none. */
  function BuildCandidate(codec: Codec, snapshot: Snapshot, reviewer: string, raw: Command, now: Time): Build {
    var command := TrimCommand(raw);
    match Screen(reviewer, command)
    case None => Refused(InvalidReview)
    case Some(reasons) =>
      if command.catalogSha != snapshot.catalogSha || command.governanceSha != snapshot.governanceSha then
        Refused(RevisionChanged)
      else
        match FindCase(snapshot.cases, command.caseId)
        case None => Refused(CaseNotFound)
        case Some(item) =>
          if item.caseSha != command.caseSha then Refused(RevisionChanged)
          else Ready(MakeRow(codec, snapshot, Trim(reviewer), command, item, reasons, now))
  }

  lemma {:induction false} FindCaseFinds(cases: seq<Case>, id: string)
    ensures FindCase(cases, id).None? <==> forall item | item in cases :: item.id != id
    ensures FindCase(cases, id).Some? ==> FindCase(cases, id).value in cases && FindCase(cases, id).value.id == id
  {
    if cases != [] {
      FindCaseFinds(cases[1..], id);
      assert cases == [cases[0]] + cases[1..];
    }
  }

  /** A row that belongs to this catalog: its case is listed, under the same slice and hash. */
  ghost predicate Fits(snapshot: Snapshot, row: Row) {
    && row.catalogSha == snapshot.catalogSha && row.governanceSha == snapshot.governanceSha
    && row.datasetVersion == snapshot.datasetVersion
    && exists i :: 0 <= i < |snapshot.cases| && snapshot.cases[i].id == row.caseId
                   && snapshot.cases[i].slice == row.slice && snapshot.cases[i].caseSha == row.caseSha
  }

  /** What submitting makes of a command: the row holds the command's content for a listed case. */
  lemma CandidateContent(codec: Codec, snapshot: Snapshot, reviewer: string, raw: Command, now: Time)
    requires BuildCandidate(codec, snapshot, reviewer, raw, now).Ready?
    ensures var row := BuildCandidate(codec, snapshot, reviewer, raw, now).row;
            && Fits(snapshot, row)
            && row.schemaVersion == SCHEMA_V5 && row.previousSha == ""
            && row.caseId == Trim(raw.caseId) && row.decision == Trim(raw.decision) && row.comment == Trim(raw.comment)
            && row.reviewerHash == Digest(codec, Trim(reviewer))
            && row.keyHash == Digest(codec, row.reviewerHash + NUL + Trim(raw.key))
            && row.revision == Successor(raw.expectedRevision) && row.expectedRevision == raw.expectedRevision
            && NormalizeReasons(row.decision, raw.reasonCodes).Some?
            && row.reasonCodesJson == codec.encodeReasons(NormalizeReasons(row.decision, raw.reasonCodes).value)
            && row.createdAt == Truncate(now)
            && row.id == row.reviewSha
  {
    ReadyIsMade(codec, snapshot, reviewer, raw, now);
    var command := TrimCommand(raw);
    var item := FindCase(snapshot.cases, command.caseId).value;
    var reasons := NormalizeReasons(command.decision, command.reasonCodes).value;
    MadeRow(codec, snapshot, Trim(reviewer), command, item, reasons, now);
    FindCaseFinds(snapshot.cases, command.caseId);
    ListedFits(snapshot, MakeRow(codec, snapshot, Trim(reviewer), command, item, reasons, now), item);
  }

  lemma ListedFits(snapshot: Snapshot, row: Row, item: Case)
    requires item in snapshot.cases && row.caseId == item.id && row.slice == item.slice && row.caseSha == item.caseSha
    requires row.catalogSha == snapshot.catalogSha && row.governanceSha == snapshot.governanceSha
    requires row.datasetVersion == snapshot.datasetVersion
    ensures Fits(snapshot, row)
  {
    var i :| 0 <= i < |snapshot.cases| && snapshot.cases[i] == item;
  }

  lemma ReadyIsMade(codec: Codec, snapshot: Snapshot, reviewer: string, raw: Command, now: Time)
    requires BuildCandidate(codec, snapshot, reviewer, raw, now).Ready?
    ensures var command := TrimCommand(raw);
            && NormalizeReasons(command.decision, command.reasonCodes).Some?
            && FindCase(snapshot.cases, command.caseId).Some?
            && BuildCandidate(codec, snapshot, reviewer, raw, now).row
               == MakeRow(codec, snapshot, Trim(reviewer), command, FindCase(snapshot.cases, command.caseId).value,
                          NormalizeReasons(command.decision, command.reasonCodes).value, now)
  {
  }

  lemma MadeRow(codec: Codec, snapshot: Snapshot, reviewer: string, command: Command, item: Case, reasons: seq<string>,
                now: Time)
    ensures var row := MakeRow(codec, snapshot, reviewer, command, item, reasons, now);
            && row.catalogSha == snapshot.catalogSha && row.governanceSha == snapshot.governanceSha
            && row.datasetVersion == snapshot.datasetVersion
            && row.slice == item.slice && row.caseId == item.id && row.caseSha == item.caseSha
            && row.schemaVersion == SCHEMA_V5 && row.previousSha == ""
            && row.decision == command.decision && row.comment == command.comment
            && row.reviewerHash == Digest(codec, reviewer)
            && row.keyHash == Digest(codec, row.reviewerHash + NUL + command.key)
            && row.revision == Successor(command.expectedRevision) && row.expectedRevision == command.expectedRevision
            && row.reasonCodesJson == codec.encodeReasons(reasons) && row.createdAt == Truncate(now)
            && row.id == row.reviewSha
  {
  }

  lemma CandidateHashes(codec: Codec, snapshot: Snapshot, reviewer: string, command: Command, item: Case,
                        reasons: seq<string>, now: Time)
    ensures var row := MakeRow(codec, snapshot, reviewer, command, item, reasons, now);
            row.requestSha == RequestSha(codec, row) && row.reviewSha == ReviewSha(codec, row)
  {
  }

  lemma CandidateSemantics(codec: Codec, snapshot: Snapshot, reviewer: string, command: Command, item: Case,
                           values: seq<string>, now: Time)
    requires codec.Good() && ValidSnapshot(snapshot) && ValidCase(item) && command.expectedRevision >= 0
    requires NormalizeReasons(command.decision, values).Some?
    ensures var reasons := NormalizeReasons(command.decision, values).value;
            var row := MakeRow(codec, snapshot, reviewer, command, item, reasons, now);
            ValidSemantics(codec, row) <==> row.createdAt != 0 && command.expectedRevision < MAX_INT64
  {
    var reasons := NormalizeReasons(command.decision, values).value;
    CandidateHashes(codec, snapshot, reviewer, command, item, reasons, now);
    MadeRow(codec, snapshot, reviewer, command, item, reasons, now);
    NormalFormIsStable(command.decision, values);
    var row := MakeRow(codec, snapshot, reviewer, command, item, reasons, now);
    SuccessorIsWrapped(command.expectedRevision);
    FilledRowSemantics(codec, row, reasons);
  }

  lemma FilledRowSemantics(codec: Codec, row: Row, reasons: seq<string>)
    requires codec.Good() && row.reasonCodesJson == codec.encodeReasons(reasons)
    requires NormalizeReasons(row.decision, reasons) == Some(reasons) && row.requestSha == RequestSha(codec, row)
    requires !Blank(row.datasetVersion) && !Blank(row.slice) && !Blank(row.caseId)
    requires |row.catalogSha| == |row.governanceSha| == |row.caseSha| == |row.reviewerHash| == |row.keyHash| == 64
    ensures ValidSemantics(codec, row) <==>
            row.createdAt != 0 && row.revision >= 1 && row.expectedRevision == row.revision - 1
  {
    assert codec.decodeReasons(codec.encodeReasons(reasons)) == Some(reasons);
  }

  lemma CandidateIsValid(codec: Codec, snapshot: Snapshot, reviewer: string, command: Command, item: Case,
                         reasons: seq<string>, now: Time)
    requires codec.Good() && |command.comment| <= 4000
    ensures var row := MakeRow(codec, snapshot, reviewer, command, item, reasons, now);
            ValidReview(codec, row) <==> ValidSemantics(codec, row)
  {
    CandidateHashes(codec, snapshot, reviewer, command, item, reasons, now);
  }

  /** Whatever is submitted against a loaded catalog passes the validator every reader applies, unless the clock
      stands in the first second of the zero time or the next revision wraps. */
  lemma SubmittedIsValid(codec: Codec, snapshot: Snapshot, reviewer: string, raw: Command, now: Time)
    requires codec.Good() && ValidSnapshot(snapshot)
    requires BuildCandidate(codec, snapshot, reviewer, raw, now).Ready?
    ensures ValidReview(codec, BuildCandidate(codec, snapshot, reviewer, raw, now).row) <==>
            Truncate(now) != 0 && raw.expectedRevision < MAX_INT64
  {
    var command := TrimCommand(raw);
    ReadyMeans(codec, snapshot, reviewer, raw, now);
    var item := FindCase(snapshot.cases, command.caseId).value;
    var reasons := NormalizeReasons(command.decision, command.reasonCodes).value;
    CandidateSemantics(codec, snapshot, Trim(reviewer), command, item, command.reasonCodes, now);
    CandidateIsValid(codec, snapshot, Trim(reviewer), command, item, reasons, now);
  }

  /** A candidate's revision is positive if and only if the expected one is not the largest integer. */
  lemma CandidateRevision(codec: Codec, snapshot: Snapshot, reviewer: string, raw: Command, now: Time)
    requires BuildCandidate(codec, snapshot, reviewer, raw, now).Ready?
    ensures var row := BuildCandidate(codec, snapshot, reviewer, raw, now).row;
            && (row.revision >= 1 <==> raw.expectedRevision < MAX_INT64)
            && (row.revision >= 1 ==> row.revision == raw.expectedRevision + 1)
            && (row.revision < 1 ==> row.revision == MIN_INT64)
  {
    CandidateContent(codec, snapshot, reviewer, raw, now);
    SuccessorIsWrapped(raw.expectedRevision);
  }

  lemma ReadyMeans(codec: Codec, snapshot: Snapshot, reviewer: string, raw: Command, now: Time)
    requires ValidSnapshot(snapshot) && BuildCandidate(codec, snapshot, reviewer, raw, now).Ready?
    ensures var command := TrimCommand(raw);
            && command.expectedRevision >= 0 && |command.comment| <= 4000
            && NormalizeReasons(command.decision, command.reasonCodes).Some?
            && FindCase(snapshot.cases, command.caseId).Some?
            && ValidCase(FindCase(snapshot.cases, command.caseId).value)
            && BuildCandidate(codec, snapshot, reviewer, raw, now).row
               == MakeRow(codec, snapshot, Trim(reviewer), command, FindCase(snapshot.cases, command.caseId).value,
                          NormalizeReasons(command.decision, command.reasonCodes).value, now)
  {
    FindCaseFinds(snapshot.cases, TrimCommand(raw).caseId);
  }

  // ----- what the hashes of a submission decide -----

  /** What makes two submissions the same request. */
  datatype Content = Content(
    catalogSha: string, governanceSha: string, caseId: string, caseSha: string, reviewerHash: string,
    expectedRevision: int, decision: string, reasonCodesJson: string, comment: string)

  function ContentOf(row: Row): Content {
    Content(row.catalogSha, row.governanceSha, row.caseId, row.caseSha, row.reviewerHash, row.expectedRevision,
            row.decision, row.reasonCodesJson, row.comment)
  }

  function RequestText(codec: Codec, row: Row): string {
    Trim(Join(RequestParts(codec, row), NUL))
  }

  /** These two request texts do not happen to hash alike. */
  predicate NoCollision(codec: Codec, a: Row, b: Row) {
    codec.sha(RequestText(codec, a)) == codec.sha(RequestText(codec, b)) ==>
      RequestText(codec, a) == RequestText(codec, b)
  }

  lemma {:induction false} JoinEnds(parts: seq<string>, sep: char)
    requires |parts| >= 2 && parts[0] != ""
    ensures var s, last := Join(parts, [sep]), parts[|parts| - 1];
            && s != "" && s[0] == parts[0][0]
            && s[|s| - 1] == if last == "" then sep else last[|last| - 1]
    decreases |parts|
  {
    var rest := Join(parts[1..], [sep]);
    assert Join(parts, [sep]) == parts[0] + [sep] + rest;
    if |parts| > 2 {
      JoinTail(parts[1..], sep);
    }
  }

  lemma {:induction false} JoinTail(parts: seq<string>, sep: char)
    requires |parts| >= 2
    ensures var s, last := Join(parts, [sep]), parts[|parts| - 1];
            s != "" && s[|s| - 1] == if last == "" then sep else last[|last| - 1]
  {
    var rest := Join(parts[1..], [sep]);
    assert Join(parts, [sep]) == parts[0] + [sep] + rest;
    if |parts| > 2 {
      JoinTail(parts[1..], sep);
    }
  }

  /** Rows as submissions write them: trimmed at both ends of the request text, NUL only in the comment. */
  ghost predicate Plain(row: Row) {
    && row.schemaVersion == SCHEMA_V5
    && row.catalogSha != "" && Hex(row.catalogSha) && Hex(row.governanceSha) && Hex(row.caseSha)
    && Hex(row.reviewerHash)
    && NulFree(row.caseId) && (row.decision == "approved" || row.decision == "rejected") && NulFree(row.reasonCodesJson)
    && Trimmed(row.comment)
  }

  lemma DecisionsAreNulFree(decision: string)
    requires decision == "approved" || decision == "rejected"
    ensures NulFree(decision)
  {
  }

  lemma RequestTextIsTheJoin(codec: Codec, row: Row)
    requires Plain(row)
    ensures RequestText(codec, row) == Join(RequestParts(codec, row), NUL)
  {
    var parts := RequestParts(codec, row);
    JoinEnds(parts, '\0');
    assert Trimmed(Join(parts, NUL));
    TrimIsTrimmed(Join(parts, NUL));
  }

  /** The request hash tells contents apart exactly, short of a hash collision between the two texts. */
  lemma RequestDecidesContent(codec: Codec, a: Row, b: Row)
    requires codec.Good() && Plain(a) && Plain(b) && NoCollision(codec, a, b)
    ensures RequestSha(codec, a) == RequestSha(codec, b) <==> ContentOf(a) == ContentOf(b)
  {
    var p, q := RequestParts(codec, a), RequestParts(codec, b);
    RequestTextIsTheJoin(codec, a);
    RequestTextIsTheJoin(codec, b);
    DecisionsAreNulFree(a.decision);
    DecisionsAreNulFree(b.decision);
    if RequestSha(codec, a) == RequestSha(codec, b) {
      JoinInjective(p, q, '\0');
      SamePartsSameContent(codec, a, b);
    }
  }

  lemma SamePartsSameContent(codec: Codec, a: Row, b: Row)
    requires codec.Good() && a.schemaVersion == SCHEMA_V5 && b.schemaVersion == SCHEMA_V5
    requires RequestParts(codec, a) == RequestParts(codec, b)
    ensures ContentOf(a) == ContentOf(b)
  {
    var p, q := RequestParts(codec, a), RequestParts(codec, b);
    assert forall i | 0 <= i < 9 :: p[i] == q[i];
    assert p[0] == q[0] && p[1] == q[1] && p[2] == q[2] && p[3] == q[3] && p[4] == q[4];
    assert p[5] == q[5] && p[6] == q[6] && p[7] == q[7] && p[8] == q[8];
  }

  lemma SubmittedIsPlain(codec: Codec, snapshot: Snapshot, reviewer: string, raw: Command, now: Time)
    requires codec.Good() && ValidSnapshot(snapshot) && NulFree(raw.caseId)
    requires BuildCandidate(codec, snapshot, reviewer, raw, now).Ready?
    ensures Plain(BuildCandidate(codec, snapshot, reviewer, raw, now).row)
  {
    CandidateContent(codec, snapshot, reviewer, raw, now);
    var command := TrimCommand(raw);
    FindCaseFinds(snapshot.cases, command.caseId);
    assert ValidCase(FindCase(snapshot.cases, command.caseId).value);
    TrimIsTrimmed(raw.comment);
    TrimKeepsChars(raw.caseId, '\0');
  }

  lemma TrimKeepsChars(s: string, c: char)
    ensures c in Trim(s) ==> c in s
  {
    TrimLeftEnds(s);
    TrimRightEnds(TrimLeft(s));
  }

  function KeyText(reviewerHash: string, key: string): string {
    Trim(reviewerHash + NUL + key)
  }

  /** The key hash tells (reviewer, key) pairs apart exactly, short of a collision between the two texts. */
  lemma KeyHashDecidesKey(codec: Codec, reviewerA: string, keyA: string, reviewerB: string, keyB: string)
    requires codec.Good() && KeyOk(keyA) && KeyOk(keyB)
    requires var a, b := Digest(codec, reviewerA), Digest(codec, reviewerB);
             codec.sha(KeyText(a, keyA)) == codec.sha(KeyText(b, keyB)) ==> KeyText(a, keyA) == KeyText(b, keyB)
    ensures var a, b := Digest(codec, reviewerA), Digest(codec, reviewerB);
            Digest(codec, a + NUL + keyA) == Digest(codec, b + NUL + keyB) <==> a == b && keyA == keyB
  {
    var a, b := Digest(codec, reviewerA), Digest(codec, reviewerB);
    KeyTextIsWhole(a, keyA);
    KeyTextIsWhole(b, keyB);
    if KeyText(a, keyA) == KeyText(b, keyB) {
      FirstPart(a, b, keyA, keyB, '\0');
    }
  }

  lemma KeyTextIsWhole(hash: string, key: string)
    requires Hex(hash) && |hash| == 64 && KeyOk(key)
    ensures KeyText(hash, key) == hash + NUL + key
  {
    var s := hash + NUL + key;
    assert s[0] == hash[0] && s[|s| - 1] == key[|key| - 1];
    assert KeyChar(key[|key| - 1]);
    assert Trimmed(s);
    TrimIsTrimmed(s);
  }
}
