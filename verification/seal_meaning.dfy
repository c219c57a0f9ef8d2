/** What a sealed directory proves, what sealing writes into it, and how one Seal goes. */
module SealMeaning {
  import opened Text
  import opened Sequences
  import opened Options
  import opened BoundedLog
  import opened Seal
  import opened SealRace

  // ----- an accepted directory -----

  predicate HoldsEntry(codec: Codec, dir: Dir, entry: FileEntry) {
    entry.path in dir && |dir[entry.path]| == entry.bytes && codec.sha(dir[entry.path]) == entry.sha
  }

  predicate SoundReport(codec: Codec, r: Report) {
    && r.schemaVersion == "evaluation-catalog-seal-v1" && r.status == "sealed_candidate_ready"
    && |r.sealId| == 45 && r.sealId[..13] == "catalog-seal-"
    && r.caseCount == r.approvedCases == 320 && r.createdAt != 0
    && |r.sourceCatalogSha| == |r.sourceReviewManifestSha| == |r.sourceReviewSetSha| == |r.reviewerHash| == 64
    && |r.files| == 11 && (forall i, j | 0 <= i < j < 11 :: r.files[i].path != r.files[j].path)
    && (forall entry | entry in r.files :: entry.bytes > 0 && entry.path != "" && entry.path[0] != '/')
    && r.sealSha == codec.sha(codec.compact(r.(sealSha := "")))
  }

  /** The directory holds the report, the files it lists with their lengths and digests, and nothing else; and the
      evaluation validators pass the two manifests whose digests the report gives. */
  predicate Proves(codec: Codec, dir: Dir, r: Report) {
    && SoundReport(codec, r)
    && SEAL_FILE in dir && 0 < |dir[SEAL_FILE]| <= 0x10_0000 && codec.decode(dir[SEAL_FILE]) == Some(r)
    && (forall entry | entry in r.files :: HoldsEntry(codec, dir, entry))
    && (forall path | path in dir :: path == SEAL_FILE || exists entry | entry in r.files :: entry.path == path)
    && codec.checks(dir).Some?
    && var c := codec.checks(dir).value;
       && c.catalogPassed && c.reviewPassed && c.baselineEligible
       && c.catalogSha == r.outputCatalogSha && c.reviewSha == r.outputReviewSha
  }

  lemma ReadReportIsSound(codec: Codec, encoded: Bytes)
    ensures ReadReport(codec, encoded).Some? ==>
              && 0 < |encoded| <= 0x10_0000 && codec.decode(encoded) == ReadReport(codec, encoded)
              && SoundReport(codec, ReadReport(codec, encoded).value)
  {
    var read := ReadReport(codec, encoded);
    if read.Some? {
      var r := read.value;
      assert Finalize(codec, r).value.sealSha == r.sealSha;
      forall entry | entry in r.files ensures entry.bytes > 0 && entry.path != "" && entry.path[0] != '/' {
        var i :| 0 <= i < |r.files| && r.files[i] == entry;
        assert EntryOk(r.files[i]);
      }
    }
  }

  /** Soundness of the validator: an accepted directory proves its report. */
  lemma ValidProves(codec: Codec, dir: Dir)
    ensures Validated(codec, dir).Valid? ==> Proves(codec, dir, Validated(codec, dir).report)
  {
    if Validated(codec, dir).Valid? {
      var r := Validated(codec, dir).report;
      ReadReportIsSound(codec, dir[SEAL_FILE]);
      forall entry | entry in r.files ensures HoldsEntry(codec, dir, entry) {
        var i :| 0 <= i < |r.files| && r.files[i] == entry;
        assert FileMatches(codec, dir, r.files[i]);
      }
      forall path | path in dir ensures path == SEAL_FILE || exists entry | entry in r.files :: entry.path == path {
        assert path in Expected(r.files);
      }
    }
  }

  lemma OneReport(codec: Codec, dir: Dir, r: Report, dir': Dir, r': Report)
    requires Proves(codec, dir, r) && Proves(codec, dir', r') && dir[SEAL_FILE] == dir'[SEAL_FILE]
    ensures r == r'
  {
  }

  /** A sealed file may not be altered: other bytes in place of a listed one are refused, unless they have its length
      and digest. */
  lemma AlteredFileIsRefused(codec: Codec, dir: Dir, r: Report, entry: FileEntry, content: Bytes)
    requires Validated(codec, dir) == Valid(r) && entry in r.files && entry.path != SEAL_FILE
    ensures |content| != entry.bytes || codec.sha(content) != entry.sha ==>
              !Validated(codec, dir[entry.path := content]).Valid?
  {
    var altered := dir[entry.path := content];
    ValidProves(codec, dir);
    ValidProves(codec, altered);
    if Validated(codec, altered).Valid? {
      OneReport(codec, dir, r, altered, Validated(codec, altered).report);
      assert HoldsEntry(codec, altered, entry);
    }
  }

  lemma SameReportSameFiles(codec: Codec, dir: Dir, r: Report, dir': Dir)
    requires Proves(codec, dir, r) && Proves(codec, dir', r)
    ensures dir.Keys <= dir'.Keys
  {
    forall path | path in dir ensures path in dir' {
      if path != SEAL_FILE {
        var entry :| entry in r.files && entry.path == path;
        assert HoldsEntry(codec, dir', entry);
      }
    }
  }

  /** Two valid directories with one report have the same files. */
  lemma ValidFilesAreListed(codec: Codec, dir: Dir, dir': Dir)
    requires SEAL_FILE in dir && SEAL_FILE in dir' && dir[SEAL_FILE] == dir'[SEAL_FILE]
    ensures Validated(codec, dir).Valid? && Validated(codec, dir').Valid? ==> dir.Keys == dir'.Keys
  {
    if Validated(codec, dir).Valid? && Validated(codec, dir').Valid? {
      ValidProves(codec, dir);
      ValidProves(codec, dir');
      var r := Validated(codec, dir).report;
      OneReport(codec, dir, r, dir', Validated(codec, dir').report);
      SameReportSameFiles(codec, dir, r, dir');
      SameReportSameFiles(codec, dir', r, dir);
    }
  }

  /** Nor removed, nor joined by another. */
  lemma OtherFilesAreRefused(codec: Codec, dir: Dir, path: string, content: Bytes)
    requires Validated(codec, dir).Valid?
    ensures path in dir ==> !Validated(codec, dir - {path}).Valid?
    ensures path !in dir ==> !Validated(codec, dir[path := content]).Valid?
  {
    if path !in dir {
      ValidFilesAreListed(codec, dir, dir[path := content]);
    } else if path != SEAL_FILE {
      ValidFilesAreListed(codec, dir, dir - {path});
    }
  }

  // ----- what is written -----

  /** The entries say what is in the directory, and every item is there as it was given. */
  predicate HoldsItems(codec: Codec, items: seq<Item>, w: Work) {
    && |w.entries| == |items|
    && forall i | 0 <= i < |items| ::
         && "evals/" + items[i].name in w.dir && w.dir["evals/" + items[i].name] == items[i].content
         && w.entries[i] == FileEntry("evals/" + items[i].name, codec.sha(items[i].content), |items[i].content|)
  }

  lemma {:induction false} ItemsAreWritten(codec: Codec, items: seq<Item>)
    ensures WriteItems(codec, items).Some? ==> HoldsItems(codec, items, WriteItems(codec, items).value)
  {
    if items != [] {
      ItemsAreWritten(codec, items[..|items| - 1]);
    }
  }

  /** A finished directory: the items, the two manifests made from their entries, and the report. */
  predicate HoldsAll(codec: Codec, header: Header, sources: Sources, w: Work, dir: Dir, r: Report) {
    var catalog := sources.catalogOf(w.entries);
    && HoldsItems(codec, sources.items, w)
    && (forall path | path in w.dir :: path in dir && dir[path] == w.dir[path])
    && CATALOG_FILE in dir && dir[CATALOG_FILE] == catalog
    && REVIEW_FILE in dir && dir[REVIEW_FILE] == sources.reviewOf(w.entries, codec.sha(catalog))
    && SEAL_FILE in dir && dir[SEAL_FILE] == codec.pretty(r)
    && dir.Keys == w.dir.Keys + {CATALOG_FILE, REVIEW_FILE, SEAL_FILE} && |dir| == |sources.items| + 3
    && r.outputCatalogSha == codec.sha(dir[CATALOG_FILE]) && r.outputReviewSha == codec.sha(dir[REVIEW_FILE])
  }

  /** What the report says of the request. */
  predicate ReportsHeader(header: Header, r: Report) {
    && r.sealId == header.sealId && r.createdAt == header.createdAt && r.datasetVersion == header.datasetVersion
    && r.sourceCatalogSha == header.sourceCatalogSha && r.sourceReviewSetSha == header.sourceReviewSetSha
    && r.sourceReviewManifestSha == header.sourceReviewManifestSha && r.reviewerHash == header.reviewerHash
    && r.caseCount == header.caseCount && r.approvedCases == header.approvedCases && r.nextGate == header.nextGate
    && r.guardrails == header.guardrails
  }

  lemma {:induction false} ItemsHaveOneFileEach(codec: Codec, items: seq<Item>)
    ensures WriteItems(codec, items).Some? ==> |WriteItems(codec, items).value.dir| == |items|
  {
    if items != [] {
      ItemsHaveOneFileEach(codec, items[..|items| - 1]);
    }
  }

  lemma ManifestsAreWritten(codec: Codec, sources: Sources) returns (w: Work, written: Work)
    requires WriteManifests(codec, sources).Some?
    ensures WriteItems(codec, sources.items) == Some(w) && WriteManifests(codec, sources) == Some(written)
    ensures var catalog := sources.catalogOf(w.entries);
            var review := sources.reviewOf(w.entries, codec.sha(catalog));
            && CATALOG_FILE !in w.dir && REVIEW_FILE !in w.dir
            && written.dir == w.dir[CATALOG_FILE := catalog][REVIEW_FILE := review]
  {
    w, written := WriteItems(codec, sources.items).value, WriteManifests(codec, sources).value;
    assert CATALOG_FILE != REVIEW_FILE;
  }

  lemma MaterializedIsReported(codec: Codec, header: Header, sources: Sources, written: Work)
    requires Materialized(codec, header, sources).Some? && WriteManifests(codec, sources) == Some(written)
    ensures var (dir, r) := Materialized(codec, header, sources).value;
            && SEAL_FILE !in written.dir && dir == written.dir[SEAL_FILE := codec.pretty(r)] && ReportsHeader(header, r)
            && CATALOG_FILE in written.dir && r.outputCatalogSha == codec.sha(written.dir[CATALOG_FILE])
            && REVIEW_FILE in written.dir && r.outputReviewSha == codec.sha(written.dir[REVIEW_FILE])
  {
  }

  /** Building writes exactly what it was given and reports exactly what it wrote. */
  lemma MaterializedHoldsAll(codec: Codec, header: Header, sources: Sources) returns (w: Work)
    requires Materialized(codec, header, sources).Some?
    ensures var (dir, r) := Materialized(codec, header, sources).value;
            WriteItems(codec, sources.items) == Some(w) && HoldsAll(codec, header, sources, w, dir, r)
            && ReportsHeader(header, r)
  {
    var written;
    w, written := ManifestsAreWritten(codec, sources);
    ItemsAreWritten(codec, sources.items);
    ItemsHaveOneFileEach(codec, sources.items);
    MaterializedIsReported(codec, header, sources, written);
    assert CATALOG_FILE != SEAL_FILE && REVIEW_FILE != SEAL_FILE;
  }

  // ----- one Seal -----

  /** What has to be reviewed before anything is looked at. */
  predicate FullyReviewed(counts: Counts) {
    counts.ready && counts.total == counts.approved == 320 && counts.rejected == counts.pending == 0
  }

  predicate ReviewedThis(r: Request, command: Command) {
    Trim(command.catalogSha) == r.identity.catalogSha && Trim(command.reviewSetSha) == r.identity.reviewSetSha
  }

  /** How a Seal nobody interferes with goes. */
  predicate GoesAs(codec: Codec, published: map<string, Dir>, r: Request, published': map<string, Dir>,
                   outcome: Outcome)
    requires codec.Good()
  {
    var id := SealId(codec, r.identity);
    var found := if id in published then Validated(codec, published[id]) else Missing;
    var built := Materialized(codec, HeaderOf(codec, r), r.sources);
    match found
    case Valid(report) =>
      && published' == published
      && outcome == if && report.sourceCatalogSha == r.identity.catalogSha
                       && report.sourceReviewSetSha == r.identity.reviewSetSha
                       && report.reviewerHash == r.identity.reviewerHash
                    then Reused(report) else Failed(InvalidArtifact)
    case Invalid => published' == published && outcome == Failed(InvalidArtifact)
    case Missing =>
      if built.None? then published' == published && outcome == Failed(InvalidArtifact)
      else if id in published then published' == published && outcome == Failed(Unavailable)
      else
        && published' == published[id := built.value.0]
        && outcome == if |codec.pretty(built.value.1)| <= 0x10_0000 then Created(built.value.1)
                      else Failed(InvalidArtifact)
  }

  lemma BuiltReadsBack(codec: Codec, r: Request)
    requires codec.Good()
    ensures var built := Materialized(codec, HeaderOf(codec, r), r.sources);
            built.Some? ==>
              Validated(codec, built.value.0)
              == if |codec.pretty(built.value.1)| <= 0x10_0000 then Valid(built.value.1) else Invalid
  {
    if Materialized(codec, HeaderOf(codec, r), r.sources).Some? {
      MaterializedIsValid(codec, HeaderOf(codec, r), r.sources);
    }
  }

  /** A command that is not acknowledged, that reviewed something else, or whose review is not complete is refused, in
      this order; every other reuses the artifact of its identity if there is one and otherwise makes it. */
  lemma SealExactly(codec: Codec, published: map<string, Dir>, r: Request, command: Command, counts: Counts)
    requires codec.Good()
    ensures Guard(r, command, counts)
         == if !command.acknowledged then Some(InvalidCommand)
            else if !ReviewedThis(r, command) then Some(StaleReview)
            else if !FullyReviewed(counts) then Some(ReviewIncomplete)
            else None
    ensures var after := SealAlone(RulesOf(codec), published, r); GoesAs(codec, published, r, after.0, after.1)
  {
    BuiltReadsBack(codec, r);
  }

  /** The report that a request is sealed with tells the request. */
  lemma SealedReportTells(codec: Codec, r: Request)
    requires codec.Good() && Materialized(codec, HeaderOf(codec, r), r.sources).Some?
    ensures var report := Materialized(codec, HeaderOf(codec, r), r.sources).value.1;
            && report.sealId == SealId(codec, r.identity) && report.createdAt == r.createdAt
            && report.sourceCatalogSha == r.identity.catalogSha && report.sourceReviewSetSha == r.identity.reviewSetSha
            && report.reviewerHash == r.identity.reviewerHash && report.sourceReviewManifestSha == r.manifestSha
            && report.datasetVersion == r.datasetVersion && report.caseCount == r.caseCount
            && report.approvedCases == r.approvedCases && report.nextGate == r.nextGate
            && report.guardrails == r.guardrails
  {
    var _ := MaterializedHoldsAll(codec, HeaderOf(codec, r), r.sources);
  }

  /** Sealing again under the same identity, whatever else the request says, changes nothing and returns the report that
      was created. */
  lemma SealAgainReuses(codec: Codec, published: map<string, Dir>, r: Request, again: Request)
    requires codec.Good() && again.identity == r.identity
    requires SealAlone(RulesOf(codec), published, r).1.Created?
    ensures var (published', outcome) := SealAlone(RulesOf(codec), published, r);
            SealAlone(RulesOf(codec), published', again) == (published', Reused(outcome.report))
  {
    var (published', outcome) := SealAlone(RulesOf(codec), published, r);
    BuiltReadsBack(codec, r);
    CreatedIsPublished(codec, published, r);
    SealedReportTells(codec, r);
  }

  lemma CreatedIsPublished(codec: Codec, published: map<string, Dir>, r: Request)
    requires codec.Good() && SealAlone(RulesOf(codec), published, r).1.Created?
    ensures var (published', outcome) := SealAlone(RulesOf(codec), published, r);
            var built := Materialized(codec, HeaderOf(codec, r), r.sources);
            && built.Some? && published' == published[SealId(codec, r.identity) := built.value.0]
            && outcome == Created(built.value.1) && Validated(codec, built.value.0) == Valid(built.value.1)
  {
    BuiltReadsBack(codec, r);
  }

  function IdText(i: Identity): string {
    Join([SCHEMA_VERSION, i.catalogSha, i.reviewSetSha, i.reviewerHash], ['\0'])
  }

  /** Identities of one seal id are one identity, short of a collision of their digests' first half. */
  lemma SealIdDecidesIdentity(codec: Codec, i: Identity, j: Identity)
    requires codec.Good()
    requires '\0' !in i.catalogSha && '\0' !in i.reviewSetSha && '\0' !in j.catalogSha && '\0' !in j.reviewSetSha
    requires codec.digest(IdText(i))[..32] == codec.digest(IdText(j))[..32] ==> IdText(i) == IdText(j)
    ensures SealId(codec, i) == SealId(codec, j) <==> i == j
  {
    if SealId(codec, i) == SealId(codec, j) {
      var a, b := codec.digest(IdText(i))[..32], codec.digest(IdText(j))[..32];
      assert (ID_PREFIX + a)[|ID_PREFIX|..] == a && (ID_PREFIX + b)[|ID_PREFIX|..] == b;
      var p := [SCHEMA_VERSION, i.catalogSha, i.reviewSetSha, i.reviewerHash];
      var q := [SCHEMA_VERSION, j.catalogSha, j.reviewSetSha, j.reviewerHash];
      assert '\0' !in SCHEMA_VERSION;
      JoinInjective(p, q, '\0');
      assert p[1] == q[1] && p[2] == q[2] && p[3] == q[3];
    }
  }
}
