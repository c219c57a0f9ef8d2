/** A stored review cannot be altered under its own identifier, nor a set of reviews under its hash. */
module ReviewIntegrity {
  import opened Text
  import opened Options
  import opened ReviewLedger
  import opened ReviewRules
  import opened ReviewProgress
  import opened Separators
  import opened Sequences

  const COMMENT_PART: nat := 11

  /** No field but the comment holds a NUL, and the time stamp ends in no white space. */
  ghost predicate Separable(codec: Codec, row: Row) {
    && row.schemaVersion == SCHEMA_V5
    && NulFree(row.datasetVersion) && NulFree(row.catalogSha) && NulFree(row.governanceSha) && NulFree(row.slice)
    && NulFree(row.caseId) && NulFree(row.caseSha) && NulFree(row.reviewerHash) && NulFree(row.decision)
    && NulFree(row.reasonCodesJson) && NulFree(row.keyHash) && NulFree(row.requestSha) && NulFree(row.previousSha)
    && var stamp := codec.timestamp(row.createdAt); NulFree(stamp) && stamp != "" && !IsSpace(stamp[|stamp| - 1])
  }

  function ReviewText(codec: Codec, row: Row): string {
    Trim(Join(ReviewParts(codec, row), NUL))
  }

  lemma SchemaIsNulFree()
    ensures NulFree(SCHEMA_V5)
  {
  }

  lemma PartsAreSeparable(codec: Codec, row: Row)
    requires codec.Good() && Separable(codec, row)
    ensures |ReviewParts(codec, row)| == 17 && FreeBut(ReviewParts(codec, row), COMMENT_PART, '\0')
  {
    SchemaIsNulFree();
    var parts := ReviewParts(codec, row);
    forall i | 0 <= i < 17 && i != COMMENT_PART ensures '\0' !in parts[i] {
      PartIsNulFree(codec, row, i);
    }
  }

  lemma PartIsNulFree(codec: Codec, row: Row, i: nat)
    requires codec.Good() && Separable(codec, row) && i < 17 && i != COMMENT_PART && NulFree(SCHEMA_V5)
    ensures |ReviewParts(codec, row)| == 17 && NulFree(ReviewParts(codec, row)[i])
  {
  }

  lemma TextIsTheJoin(codec: Codec, row: Row)
    requires codec.Good() && Separable(codec, row)
    ensures ReviewText(codec, row) == Join(ReviewParts(codec, row), NUL)
  {
    var parts := ReviewParts(codec, row);
    assert parts[0] == SCHEMA_V5 && parts[|parts| - 1] == codec.timestamp(row.createdAt);
    JoinEnds(parts, '\0');
    assert Trimmed(Join(parts, NUL));
    TrimIsTrimmed(Join(parts, NUL));
  }

  lemma SamePartsSameRow(codec: Codec, a: Row, b: Row)
    requires codec.Good() && a.schemaVersion == SCHEMA_V5 && b.schemaVersion == SCHEMA_V5
    requires ReviewParts(codec, a) == ReviewParts(codec, b)
    requires codec.timestamp(a.createdAt) == codec.timestamp(b.createdAt) ==> a.createdAt == b.createdAt
    ensures a == b.(id := a.id, reviewSha := a.reviewSha)
  {
    var p, q := ReviewParts(codec, a), ReviewParts(codec, b);
    assert p[0] == q[0] && p[1] == q[1] && p[2] == q[2] && p[3] == q[3] && p[4] == q[4] && p[5] == q[5];
    assert p[6] == q[6] && p[7] == q[7] && p[8] == q[8] && p[9] == q[9] && p[10] == q[10] && p[11] == q[11];
    assert p[12] == q[12] && p[13] == q[13] && p[14] == q[14] && p[15] == q[15] && p[16] == q[16];
  }

  /** Under the identifier of a stored review no other row is valid: whichever field is altered, the hash no longer
      fits, short of a collision between the two texts. */
  lemma AlteredReviewIsRefused(codec: Codec, a: Row, b: Row)
    requires codec.Good() && ValidReview(codec, a) && b.id == a.id && Separable(codec, a) && Separable(codec, b)
    requires codec.timestamp(a.createdAt) == codec.timestamp(b.createdAt) ==> a.createdAt == b.createdAt
    requires codec.sha(ReviewText(codec, a)) == codec.sha(ReviewText(codec, b)) ==>
               ReviewText(codec, a) == ReviewText(codec, b)
    ensures ValidReview(codec, b) <==> b == a
  {
    if ValidReview(codec, b) {
      TextIsTheJoin(codec, a);
      TextIsTheJoin(codec, b);
      PartsAreSeparable(codec, a);
      PartsAreSeparable(codec, b);
      JoinInjectiveAround(ReviewParts(codec, a), ReviewParts(codec, b), COMMENT_PART, '\0');
      SamePartsSameRow(codec, a, b);
    }
  }

  // ----- sets of reviews -----

  /** A case identifier and a digest that can be told apart when put together. */
  predicate Pairable(row: Row) {
    && NulFree(row.caseId) && row.caseId != "" && !IsSpace(row.caseId[0])
    && Hex(row.reviewSha) && row.reviewSha != ""
  }

  ghost predicate AllPairable(rows: seq<Row>) {
    forall row | row in rows :: Pairable(row)
  }

  /** What one review adds to the hash of a set. */
  ghost predicate Pair(input: string) {
    exists id, sha :: input == id + NUL + sha && NulFree(id) && id != "" && !IsSpace(id[0]) && Hex(sha) && sha != ""
  }

  ghost predicate Pairs(inputs: seq<string>) {
    forall i | 0 <= i < |inputs| :: Pair(inputs[i])
  }

  lemma HexIsPlain(sha: string)
    requires Hex(sha) && sha != ""
    ensures NulFree(sha) && !IsSpace(sha[|sha| - 1])
  {
  }

  lemma PairHasOneNul(input: string)
    requires Pair(input)
    ensures Occurrences(input, '\0') == 1 && input != "" && Trimmed(input)
  {
    var id, sha :| input == id + NUL + sha && NulFree(id) && id != "" && !IsSpace(id[0]) && Hex(sha) && sha != "";
    HexIsPlain(sha);
    FreeOfSeparator(id, '\0');
    FreeOfSeparator(sha, '\0');
    OccurrencesAppend(id + NUL, sha, '\0');
    OccurrencesAppend(id, NUL, '\0');
    assert Occurrences(NUL, '\0') == 1 by {
      assert NUL[..0] == "";
    }
    assert input[0] == id[0] && input[|input| - 1] == sha[|sha| - 1];
  }

  lemma {:induction false} PairsHaveOneNulEach(inputs: seq<string>)
    requires Pairs(inputs)
    ensures TotalOccurrences(inputs, '\0') == |inputs|
  {
    if inputs != [] {
      PairHasOneNul(inputs[0]);
      PairsHaveOneNulEach(inputs[1..]);
    }
  }

  lemma {:induction false} PairsJoinTrimmed(inputs: seq<string>)
    requires Pairs(inputs) && inputs != []
    ensures var text := Join(inputs, NUL); text != "" && Trimmed(text)
  {
    PairHasOneNul(inputs[0]);
    if |inputs| > 1 {
      PairsJoinTrimmed(inputs[1..]);
      var rest := Join(inputs[1..], NUL);
      assert Join(inputs, NUL) == inputs[0] + NUL + rest;
      assert Join(inputs, NUL)[|Join(inputs, NUL)| - 1] == rest[|rest| - 1];
    }
  }

  /** What follows a pair in a join. */
  function Tail(inputs: seq<string>): string {
    if inputs == [] then "" else NUL + Join(inputs, NUL)
  }

  lemma PairThenTail(inputs: seq<string>)
    requires inputs != []
    ensures Join(inputs, NUL) == inputs[0] + Tail(inputs[1..])
  {
    if |inputs| == 1 {
      assert inputs[0] + "" == inputs[0];
    } else {
      assert inputs[0] + NUL + Join(inputs[1..], NUL) == inputs[0] + (NUL + Join(inputs[1..], NUL));
    }
  }

  lemma SameHeads(a: string, p: string, u: string, b: string, q: string, v: string)
    requires NulFree(a) && NulFree(b) && (a + NUL + p) + u == (b + NUL + q) + v
    ensures a == b && p + u == q + v
  {
    assert (a + NUL + p) + u == a + NUL + (p + u) && (b + NUL + q) + v == b + NUL + (q + v);
    FirstPart(a, b, p + u, q + v, '\0');
  }

  lemma SameDigests(p: string, q: string, s: seq<string>, t: seq<string>)
    requires NulFree(p) && NulFree(q) && |s| == |t| && p + Tail(s) == q + Tail(t)
    ensures p == q && Tail(s) == Tail(t)
  {
    if s == [] {
      assert p + "" == p && q + "" == q;
    } else {
      assert p + Tail(s) == p + NUL + Join(s, NUL) && q + Tail(t) == q + NUL + Join(t, NUL);
      FirstPart(p, q, Join(s, NUL), Join(t, NUL), '\0');
    }
  }

  lemma SameFirstPair(x: string, y: string, s: seq<string>, t: seq<string>)
    requires Pair(x) && Pair(y) && |s| == |t| && x + Tail(s) == y + Tail(t)
    ensures x == y && Tail(s) == Tail(t)
  {
    var a, p :| x == a + NUL + p && NulFree(a) && a != "" && !IsSpace(a[0]) && Hex(p) && p != "";
    var b, q :| y == b + NUL + q && NulFree(b) && b != "" && !IsSpace(b[0]) && Hex(q) && q != "";
    HexIsPlain(p);
    HexIsPlain(q);
    SameHeads(a, p, Tail(s), b, q, Tail(t));
    SameDigests(p, q, s, t);
  }

  lemma {:induction false} PairsJoinInjective(x: seq<string>, y: seq<string>)
    requires Pairs(x) && Pairs(y) && |x| == |y| && Join(x, NUL) == Join(y, NUL)
    ensures x == y
  {
    if x != [] {
      PairThenTail(x);
      PairThenTail(y);
      SameFirstPair(x[0], y[0], x[1..], y[1..]);
      if |x| > 1 {
        assert Join(x[1..], NUL) == Tail(x[1..])[1..] && Join(y[1..], NUL) == Tail(y[1..])[1..];
      }
      PairsJoinInjective(x[1..], y[1..]);
      assert x == [x[0]] + x[1..] && y == [y[0]] + y[1..];
    }
  }

  lemma PairsJoinCounts(x: seq<string>, y: seq<string>)
    requires Pairs(x) && Pairs(y) && Join(x, NUL) == Join(y, NUL)
    ensures |x| == |y|
  {
    if x != [] {
      PairsJoinTrimmed(x);
      PairsHaveOneNulEach(x);
      OccurrencesOfJoin(x, '\0');
    }
    if y != [] {
      PairsJoinTrimmed(y);
      PairsHaveOneNulEach(y);
      OccurrencesOfJoin(y, '\0');
    }
  }

  function SetText(rows: seq<Row>): string {
    Trim(Join(SortStrings(SetInputs(rows)), NUL))
  }

  lemma SortedInputsArePairs(rows: seq<Row>)
    requires AllPairable(rows)
    ensures Pairs(SortStrings(SetInputs(rows)))
    ensures SetText(rows) == Join(SortStrings(SetInputs(rows)), NUL)
  {
    var inputs, sorted := SetInputs(rows), SortStrings(SetInputs(rows));
    SortBySorts(Itself, inputs);
    forall i | 0 <= i < |sorted| ensures Pair(sorted[i]) {
      SameMembers(sorted, inputs, sorted[i]);
      var k :| 0 <= k < |inputs| && inputs[k] == sorted[i];
      MapAt(RowInput, rows, k);
      assert rows[k] in rows && inputs[k] == rows[k].caseId + NUL + rows[k].reviewSha;
    }
    if sorted != [] {
      PairsJoinTrimmed(sorted);
    }
    TrimIsTrimmed(Join(sorted, NUL));
  }

  /** The hash of a set of reviews tells sets apart: two lists of reviews share it if and only if they hold the same
      cases under the same review hashes, short of a collision between the two texts. */
  lemma SetHashDecidesReviews(codec: Codec, a: seq<Row>, b: seq<Row>)
    requires AllPairable(a) && AllPairable(b)
    requires codec.sha(SetText(a)) == codec.sha(SetText(b)) ==> SetText(a) == SetText(b)
    ensures ReviewSetSha(codec, SetInputs(a)) == ReviewSetSha(codec, SetInputs(b)) <==>
            multiset(SetInputs(a)) == multiset(SetInputs(b))
  {
    var x, y := SortStrings(SetInputs(a)), SortStrings(SetInputs(b));
    SortedInputsArePairs(a);
    SortedInputsArePairs(b);
    SortBySorts(Itself, SetInputs(a));
    SortBySorts(Itself, SetInputs(b));
    if SetText(a) == SetText(b) {
      PairsJoinCounts(x, y);
      PairsJoinInjective(x, y);
    }
    if multiset(SetInputs(a)) == multiset(SetInputs(b)) {
      SortForgetsOrder(Itself, SetInputs(a), SetInputs(b));
    }
  }
}
