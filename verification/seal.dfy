/** Create-once sealing: the artifact a caller builds, its validator, and the race to publish it. */
module Seal {
  import opened Text
  import opened Sequences
  import opened Options
  import opened BoundedLog

  /** Nanoseconds since the zero time. */
  type Time = int

  /** A directory of regular files, by path relative to its root. */
  type Dir = map<string, Bytes>

  datatype FileEntry = FileEntry(path: string, sha: string, bytes: int)

  datatype Report = Report(
    schemaVersion: string, sealSha: string, sealId: string, status: string, createdAt: Time, datasetVersion: string,
    sourceCatalogSha: string, sourceReviewManifestSha: string, sourceReviewSetSha: string, reviewerHash: string,
    caseCount: int, approvedCases: int, outputCatalogSha: string, outputReviewSha: string, files: seq<FileEntry>,
    nextGate: string, guardrails: seq<string>)

  /** What the evaluation validators say of the catalog and the review manifest in a directory. */
  datatype Checks = Checks(
    catalogPassed: bool, catalogTotal: int, catalogSha: string, reviewPassed: bool, humanReviewed: bool,
    baselineEligible: bool, reviewedCases: int, reviewSha: string)

  /** Hashing, JSON and the evaluation validators, which sealing calls but does not define. */
  datatype Codec = Codec(
    sha: Bytes -> string, compact: Report -> Bytes, pretty: Report -> Bytes, decode: Bytes -> Option<Report>,
    checks: Dir -> Option<Checks>, digest: string -> string)
  {
    /** The validators read only the evaluation files and hash the two manifests they are given. */
    ghost predicate Good() {
      && (forall b :: |sha(b)| == 64)
      && (forall r :: pretty(r) != [] && decode(pretty(r)) == Some(r))
      && (forall s :: |digest(s)| == 64)
      && (forall dir: Dir, other: Dir | dir - {SEAL_FILE} == other - {SEAL_FILE} :: checks(dir) == checks(other))
      && (forall dir: Dir :: checks(dir).Some? ==> CATALOG_FILE in dir && REVIEW_FILE in dir)
      && (forall dir: Dir | CATALOG_FILE in dir && checks(dir).Some? ::
            checks(dir).value.catalogSha == sha(dir[CATALOG_FILE]))
      && (forall dir: Dir | REVIEW_FILE in dir && checks(dir).Some? ::
            checks(dir).value.reviewSha == sha(dir[REVIEW_FILE]))
    }
  }

  const SEAL_FILE := "seal.json"
  const CATALOG_FILE := "evals/devsupport-eval-v1.manifest.json"
  const REVIEW_FILE := "evals/devsupport-eval-v1.review.json"
  const SCHEMA_VERSION := "evaluation-catalog-seal-v1"
  const READY := "sealed_candidate_ready"
  const ID_PREFIX := "catalog-seal-"
  const MAXIMUM_REPORT_BYTES := 0x10_0000
  const CASES := 320

  /** What identifies a seal. */
  datatype Identity = Identity(catalogSha: string, reviewSetSha: string, reviewerHash: string)

  /** sealID. */
  function SealId(codec: Codec, i: Identity): (id: string)
    requires codec.Good()
    ensures |id| == |ID_PREFIX| + 32
  {
    ID_PREFIX + codec.digest(Join([SCHEMA_VERSION, i.catalogSha, i.reviewSetSha, i.reviewerHash], ['\0']))[..32]
  }

  // ----- the report -----

  predicate EntryOk(entry: FileEntry) {
    !Blank(entry.path) && entry.path[0] != '/' && |entry.sha| == 64 && entry.bytes > 0
  }

  predicate FilesOk(files: seq<FileEntry>) {
    && |files| == 11
    && (forall i | 0 <= i < |files| :: files[i].path != "" && EntryOk(files[i]))
    && (forall i | 0 < i < |files| :: Less(files[i - 1].path, files[i].path))
    && (forall i, j | 0 <= i < j < |files| :: files[i].path != files[j].path)
  }

  /** validateReport. */
  predicate ValidReport(r: Report) {
    && r.schemaVersion == SCHEMA_VERSION && ID_PREFIX <= r.sealId && |r.sealId| == |ID_PREFIX| + 32 && r.status == READY
    && r.createdAt != 0 && !Blank(r.datasetVersion) && |r.sourceCatalogSha| == 64 && |r.sourceReviewManifestSha| == 64
    && |r.sourceReviewSetSha| == 64 && |r.reviewerHash| == 64 && r.caseCount == CASES && r.approvedCases == CASES
    && |r.outputCatalogSha| == 64 && |r.outputReviewSha| == 64 && r.guardrails != [] && !Blank(r.nextGate)
    && |r.sealSha| == 64 && FilesOk(r.files)
  }

  const ZEROS: string := seq(64, i => '0')

  /** finalizeReport: check with a placeholder, then hash without it. */
  function Finalize(codec: Codec, r: Report): Option<Report> {
    if !ValidReport(r.(sealSha := ZEROS)) then None
    else Some(r.(sealSha := codec.sha(codec.compact(r.(sealSha := "")))))
  }

  lemma FinalizeIsStable(codec: Codec, r: Report)
    requires codec.Good() && Finalize(codec, r).Some?
    ensures var sealed := Finalize(codec, r).value;
            ValidReport(sealed) && Finalize(codec, sealed) == Some(sealed)
  {
    var sealed := Finalize(codec, r).value;
    assert sealed.(sealSha := ZEROS) == r.(sealSha := ZEROS);
    assert sealed.(sealSha := "") == r.(sealSha := "");
  }

  // ----- the validator of a directory -----

  datatype Loaded = Missing | Invalid | Valid(report: Report)

  predicate FileMatches(codec: Codec, dir: Dir, entry: FileEntry) {
    entry.path in dir && |dir[entry.path]| == entry.bytes && codec.sha(dir[entry.path]) == entry.sha
  }

  function Expected(files: seq<FileEntry>): set<string> {
    {SEAL_FILE} + set entry | entry in files :: entry.path
  }

  /** The report found in a directory, if it is one the service could have written. */
  function ReadReport(codec: Codec, encoded: Bytes): Option<Report> {
    if encoded == [] || |encoded| > MAXIMUM_REPORT_BYTES then None
    else
      match codec.decode(encoded)
      case None => None
      case Some(report) =>
        if ValidReport(report) && Finalize(codec, report) == Some(report) then Some(report) else None
  }

  predicate ChecksAgree(codec: Codec, dir: Dir, report: Report) {
    match codec.checks(dir)
    case None => false
    case Some(c) =>
      c.catalogPassed && c.reviewPassed && c.baselineEligible && c.catalogSha == report.outputCatalogSha
      && c.reviewSha == report.outputReviewSha
  }

  function Validated(codec: Codec, dir: Dir): Loaded {
    if SEAL_FILE !in dir then Missing
    else
      match ReadReport(codec, dir[SEAL_FILE])
      case None => Invalid
      case Some(report) =>
        if && (forall i | 0 <= i < |report.files| :: FileMatches(codec, dir, report.files[i]))
           && dir.Keys == Expected(report.files)
           && ChecksAgree(codec, dir, report)
        then Valid(report) else Invalid
  }

  lemma CountDecides(a: set<string>, b: set<string>)
    ensures a <= b && |a| == |b| <==> a == b
  {
    if a <= b && |a| == |b| {
      SameSizeSameSet(a, b);
    }
  }

  /** ValidateArtifact, walking the entries and then the directory. */
  method ValidateArtifact(codec: Codec, dir: Dir) returns (loaded: Loaded)
    ensures loaded == Validated(codec, dir)
  {
    if SEAL_FILE !in dir {
      return Missing;
    }
    var read := ReadReport(codec, dir[SEAL_FILE]);
    if read.None? {
      return Invalid;
    }
    var report := read.value;
    var expected := {SEAL_FILE};
    for i := 0 to |report.files|
      invariant forall k | 0 <= k < i :: FileMatches(codec, dir, report.files[k])
      invariant expected == Expected(report.files[..i])
    {
      assert report.files[..i + 1] == report.files[..i] + [report.files[i]];
      expected := expected + {report.files[i].path};
      if !FileMatches(codec, dir, report.files[i]) {
        return Invalid;
      }
    }
    assert report.files[..|report.files|] == report.files;
    CountDecides(dir.Keys, expected);
    if !(dir.Keys <= expected) || |dir| != |expected| {
      return Invalid;
    }
    return if ChecksAgree(codec, dir, report) then Valid(report) else Invalid;
  }

  // ----- the builder -----

  /** One file to write below evals/; names are clean relative paths. */
  datatype Item = Item(name: string, content: Bytes)

  /** What a report says beyond its files. */
  datatype Header = Header(
    sealId: string, createdAt: Time, datasetVersion: string, sourceCatalogSha: string, sourceReviewManifestSha: string,
    sourceReviewSetSha: string, reviewerHash: string, caseCount: int, approvedCases: int, nextGate: string,
    guardrails: seq<string>)

  /** The slices and fixtures, and how the two manifests are made from what was written. */
  datatype Sources = Sources(items: seq<Item>, catalogOf: seq<FileEntry> -> Bytes,
                             reviewOf: (seq<FileEntry>, string) -> Bytes)

  function EntryOf(codec: Codec, path: string, content: Bytes): FileEntry {
    FileEntry(path, codec.sha(content), |content|)
  }

  /** The directory and the entries so far. */
  datatype Work = Work(dir: Dir, entries: seq<FileEntry>)

  /** An exclusive write and its entry. */
  function Write(codec: Codec, work: Option<Work>, path: string, content: Bytes): Option<Work> {
    match work
    case None => None
    case Some(w) =>
      if path in w.dir then None else Some(Work(w.dir[path := content], w.entries + [EntryOf(codec, path, content)]))
  }

  function WriteItems(codec: Codec, items: seq<Item>): Option<Work> {
    if items == [] then Some(Work(map[], []))
    else
      var last := items[|items| - 1];
      Write(codec, WriteItems(codec, items[..|items| - 1]), "evals/" + last.name, last.content)
  }

  function WriteManifests(codec: Codec, sources: Sources): Option<Work> {
    match WriteItems(codec, sources.items)
    case None => None
    case Some(w) =>
      var catalog := sources.catalogOf(w.entries);
      var review := sources.reviewOf(w.entries, codec.sha(catalog));
      Write(codec, Write(codec, Some(w), CATALOG_FILE, catalog), REVIEW_FILE, review)
  }

  predicate ChecksPass(codec: Codec, dir: Dir) {
    match codec.checks(dir)
    case None => false
    case Some(c) =>
      c.catalogPassed && c.catalogTotal == CASES && c.reviewPassed && c.humanReviewed && c.baselineEligible
      && c.reviewedCases == CASES
  }

  function PathOf(entry: FileEntry): string {
    entry.path
  }

  function ReportOf(codec: Codec, header: Header, w: Work): Report
    requires CATALOG_FILE in w.dir && REVIEW_FILE in w.dir
  {
    Report(
      SCHEMA_VERSION, "", header.sealId, READY, header.createdAt, header.datasetVersion, header.sourceCatalogSha,
      header.sourceReviewManifestSha, header.sourceReviewSetSha, header.reviewerHash, header.caseCount,
      header.approvedCases,
      codec.sha(w.dir[CATALOG_FILE]), codec.sha(w.dir[REVIEW_FILE]), SortBy(PathOf, w.entries), header.nextGate,
      header.guardrails)
  }

  /** materialize: the finished directory and its report, or None for any of its errors. */
  function Materialized(codec: Codec, header: Header, sources: Sources): Option<(Dir, Report)> {
    match WriteManifests(codec, sources)
    case None => None
    case Some(w) =>
      if CATALOG_FILE !in w.dir || REVIEW_FILE !in w.dir || !ChecksPass(codec, w.dir) then None
      else
        match Finalize(codec, ReportOf(codec, header, w))
        case None => None
        case Some(report) =>
          if SEAL_FILE in w.dir then None else Some((w.dir[SEAL_FILE := codec.pretty(report)], report))
  }

  method Materialize(codec: Codec, header: Header, sources: Sources) returns (result: Option<(Dir, Report)>)
    ensures result == Materialized(codec, header, sources)
  {
    var work := Some(Work(map[], []));
    for i := 0 to |sources.items|
      invariant work == WriteItems(codec, sources.items[..i])
      invariant work.Some?
    {
      assert sources.items[..i + 1][..i] == sources.items[..i];
      var item := sources.items[i];
      work := Write(codec, work, "evals/" + item.name, item.content);
      if work.None? {
        NoneStays(codec, sources.items, i + 1);
        return None;
      }
    }
    assert sources.items[..|sources.items|] == sources.items;
    var catalog := sources.catalogOf(work.value.entries);
    var review := sources.reviewOf(work.value.entries, codec.sha(catalog));
    work := Write(codec, Write(codec, work, CATALOG_FILE, catalog), REVIEW_FILE, review);
    if work.None? {
      return None;
    }
    var w := work.value;
    if CATALOG_FILE !in w.dir || REVIEW_FILE !in w.dir || !ChecksPass(codec, w.dir) {
      return None;
    }
    var report := Finalize(codec, ReportOf(codec, header, w));
    if report.None? || SEAL_FILE in w.dir {
      return None;
    }
    return Some((w.dir[SEAL_FILE := codec.pretty(report.value)], report.value));
  }

  lemma {:induction false} NoneStays(codec: Codec, items: seq<Item>, i: nat)
    requires i <= |items| && WriteItems(codec, items[..i]).None?
    ensures WriteItems(codec, items).None?
    decreases |items| - i
  {
    if i < |items| {
      assert items[..i + 1][..i] == items[..i];
      NoneStays(codec, items, i + 1);
    } else {
      assert items[..i] == items;
    }
  }

  // ----- the builder satisfies the validator -----

  /** Every file has its entry and every entry its file. */
  ghost predicate Tracks(codec: Codec, w: Work) {
    && (forall i | 0 <= i < |w.entries| :: FileMatches(codec, w.dir, w.entries[i]))
    && w.dir.Keys == set entry | entry in w.entries :: entry.path
  }

  lemma WriteTracks(codec: Codec, w: Work, path: string, content: Bytes)
    requires Tracks(codec, w) && Write(codec, Some(w), path, content).Some?
    ensures Tracks(codec, Write(codec, Some(w), path, content).value)
  {
    var w' := Write(codec, Some(w), path, content).value;
    forall i | 0 <= i < |w'.entries| ensures FileMatches(codec, w'.dir, w'.entries[i]) {
      if i < |w.entries| {
        assert FileMatches(codec, w.dir, w.entries[i]);
      }
    }
    forall p ensures p in w'.dir.Keys <==> p in (set entry | entry in w'.entries :: entry.path) {
    }
  }

  lemma {:induction false} WriteItemsTracks(codec: Codec, items: seq<Item>)
    requires WriteItems(codec, items).Some?
    ensures Tracks(codec, WriteItems(codec, items).value)
  {
    if items != [] {
      WriteItemsTracks(codec, items[..|items| - 1]);
      var last := items[|items| - 1];
      WriteTracks(codec, WriteItems(codec, items[..|items| - 1]).value, "evals/" + last.name, last.content);
    }
  }

  lemma WriteManifestsTracks(codec: Codec, sources: Sources)
    requires WriteManifests(codec, sources).Some?
    ensures Tracks(codec, WriteManifests(codec, sources).value)
  {
    WriteItemsTracks(codec, sources.items);
    var w := WriteItems(codec, sources.items).value;
    var catalog := sources.catalogOf(w.entries);
    WriteTracks(codec, w, CATALOG_FILE, catalog);
    WriteTracks(codec, Write(codec, Some(w), CATALOG_FILE, catalog).value, REVIEW_FILE,
                sources.reviewOf(w.entries, codec.sha(catalog)));
  }

  lemma SortedEntriesMatch(codec: Codec, w: Work, b: Bytes)
    requires Tracks(codec, w) && SEAL_FILE !in w.dir
    ensures var dir, files := w.dir[SEAL_FILE := b], SortBy(PathOf, w.entries);
            && (forall i | 0 <= i < |files| :: FileMatches(codec, dir, files[i]))
            && dir.Keys == Expected(files)
  {
    var dir, files := w.dir[SEAL_FILE := b], SortBy(PathOf, w.entries);
    SortBySorts(PathOf, w.entries);
    forall i | 0 <= i < |files| ensures FileMatches(codec, dir, files[i]) {
      SameMembers(files, w.entries, files[i]);
      var k :| 0 <= k < |w.entries| && w.entries[k] == files[i];
      assert FileMatches(codec, w.dir, w.entries[k]);
    }
    forall entry ensures entry in files <==> entry in w.entries {
      MemberIsCounted(files, entry);
      MemberIsCounted(w.entries, entry);
    }
  }

  /** What materialize leaves is accepted by ValidateArtifact, with the same report, if and only if the encoded
      report is within the validator's size limit. */
  lemma MaterializedIsValid(codec: Codec, header: Header, sources: Sources)
    requires codec.Good() && Materialized(codec, header, sources).Some?
    ensures var (dir, report) := Materialized(codec, header, sources).value;
            && Validated(codec, dir) == (if |codec.pretty(report)| <= MAXIMUM_REPORT_BYTES then Valid(report)
                                         else Invalid)
            && report.sealId == header.sealId && report.sourceCatalogSha == header.sourceCatalogSha
            && report.sourceReviewSetSha == header.sourceReviewSetSha && report.reviewerHash == header.reviewerHash
  {
    var w := WriteManifests(codec, sources).value;
    var (dir, report) := Materialized(codec, header, sources).value;
    WriteManifestsTracks(codec, sources);
    FinalizeIsStable(codec, ReportOf(codec, header, w));
    SortedEntriesMatch(codec, w, codec.pretty(report));
    assert dir - {SEAL_FILE} == w.dir - {SEAL_FILE};
    assert codec.checks(dir) == codec.checks(w.dir);
    assert ChecksAgree(codec, dir, report);
    assert codec.decode(codec.pretty(report)) == Some(report);
  }

  /** A document is at least as long as the dataset version in it. */
  ghost predicate KeepsDatasetVersion(codec: Codec) {
    forall r: Report :: |r.datasetVersion| <= |codec.pretty(r)|
  }

  /** An artifact over the limit: whatever can be sealed can be sealed under a dataset version of more than a
      mebibyte too, and what is left then is invalid. */
  lemma LongDatasetVersionIsRefused(codec: Codec, header: Header, sources: Sources, text: string)
    requires codec.Good() && KeepsDatasetVersion(codec) && Materialized(codec, header, sources).Some?
    requires !Blank(text) && |text| > MAXIMUM_REPORT_BYTES
    ensures var longer := header.(datasetVersion := text);
            && Materialized(codec, longer, sources).Some?
            && Validated(codec, Materialized(codec, longer, sources).value.0) == Invalid
  {
    var longer := header.(datasetVersion := text);
    var w := WriteManifests(codec, sources).value;
    assert ReportOf(codec, longer, w) == ReportOf(codec, header, w).(datasetVersion := text);
    LongerReportFinalizes(codec, ReportOf(codec, header, w), text);
    MaterializedIsValid(codec, longer, sources);
  }

  lemma LongerReportFinalizes(codec: Codec, r: Report, text: string)
    requires Finalize(codec, r).Some? && !Blank(text)
    ensures Finalize(codec, r.(datasetVersion := text)).Some?
    ensures Finalize(codec, r.(datasetVersion := text)).value.datasetVersion == text
  {
  }
}
