/** The recommend-only controller: from anomalies to immutable decisions, and the store that keeps them. */
module Recommendation {
  import opened Text
  import opened Sequences
  import opened Separators
  import opened Options
  import opened PolicyCandidate

  /** Nanoseconds since the zero time. */
  type Time = int

  datatype Detected = Detected(mode: string, action: string, applied: bool, incidentKey: string)
  datatype Analysis = Analysis(detectorVersion: string, decisionStatus: string, recommendation: Detected)
  datatype Series = Series(metric: string, strategy: string, dataStatus: string, latest: string,
                           analysis: Option<Analysis>)
  datatype Batch = Batch(simulation: bool, batchId: string, rulesVersion: string, rulesSha: string, series: seq<Series>)
  datatype Gate = Gate(
    source: string, runId: string, candidateVersion: string, reportSha: string, technical: bool, human: bool,
    baseline: bool)
  datatype Active = Active(version: string, sha: string, status: string, document: Policy)

  /** What a decision was based on; its JSON is stored with it. */
  datatype Basis = Basis(
    source: string, simulation: bool, batchId: string, rulesVersion: string, rulesSha: string, series: Series,
    gate: Gate, parentVersion: string, parentSha: string)

  datatype Status = Recommended | Blocked

  datatype Record = Record(
    id: string, mode: string, status: Status, simulation: bool, source: string, incidentKey: string, batchId: string,
    metric: string, strategy: string, intent: string, parentVersion: string, parentSha: string,
    candidateVersion: string,
    candidateSha: string, candidateJson: string, before: int, proposed: int, fallback: string, fallbackBefore: int,
    fallbackProposed: int, delta: int, reason: Reason, evidenceJson: string, evidenceSha: string, runId: string,
    reportSha: string, baseline: bool, detectorVersion: string, rulesVersion: string, rulesSha: string, applied: bool,
    createdAt: Time)

  /** Hashing and JSON, which the controller calls but does not define. */
  datatype Codec = Codec(sha: string -> string, basisJson: Basis -> string, policyJson: Policy -> string,
                         validJson: string -> bool)
  {
    ghost predicate Good() {
      && (forall s :: |sha(s)| == 64)
      && (forall b :: validJson(basisJson(b)))
      && (forall p :: validJson(policyJson(p)))
    }
  }

  const ID_PREFIX := "control-recommendation-v1|"
  const MODE_RECOMMEND_ONLY := "recommend_only"
  const PRODUCTION_SOURCE := "production_metric_window"

  /** What makes two decisions the same decision. */
  datatype Identity = Identity(
    incidentKey: string, metric: string, strategy: string, parentVersion: string, parentSha: string, reportSha: string,
    rulesSha: string, source: string)

  function Parts(i: Identity): seq<string> {
    [i.incidentKey, i.metric, i.strategy, i.parentVersion, i.parentSha, i.reportSha, i.rulesSha, i.source]
  }

  function IdText(i: Identity): string {
    ID_PREFIX + Join(Parts(i), "|")
  }

  function IdOf(codec: Codec, i: Identity): string {
    codec.sha(IdText(i))
  }

  function IdentityOf(r: Record): Identity {
    Identity(r.incidentKey, r.metric, r.strategy, r.parentVersion, r.parentSha, r.reportSha, r.rulesSha, r.source)
  }

  // ----- building a decision -----

  predicate SeriesEligible(series: Series) {
    && series.analysis.Some?
    && var a := series.analysis.value;
       a.decisionStatus == "anomalous" && !a.recommendation.applied && a.recommendation.mode == MODE_RECOMMEND_ONLY
       && a.recommendation.action == "reduce_candidate_weight"
  }

  predicate GateOk(gate: Gate) {
    && !Blank(gate.source) && !Blank(gate.runId) && !Blank(gate.candidateVersion) && |gate.reportSha| == 64
    && (gate.baseline ==> gate.technical && gate.human)
  }

  predicate ParentOk(active: Active) {
    active.version != "" && |active.sha| == 64 && active.status == "active"
  }

  /** The record as it stands when nothing has been decided in its favour. */
  function BlockedRecord(codec: Codec, batch: Batch, series: Series, active: Active, gate: Gate, simulation: bool,
                         source: string, now: Time): Record
    requires series.analysis.Some?
  {
    var a := series.analysis.value;
    var json := codec.basisJson(
      Basis(source, simulation, batch.batchId, batch.rulesVersion, batch.rulesSha, series, gate, active.version,
            active.sha));
    var identity := Identity(a.recommendation.incidentKey, series.metric, series.strategy, active.version, active.sha,
                             gate.reportSha, batch.rulesSha, source);
    Record(
      IdOf(codec, identity), MODE_RECOMMEND_ONLY, Blocked, simulation, source, a.recommendation.incidentKey,
      batch.batchId, series.metric, series.strategy, "", active.version, active.sha, "", "", "", 0, 0, "", 0, 0, 0,
      BaselineNotEligible,
      json, codec.sha(json), gate.runId, gate.reportSha, gate.baseline, a.detectorVersion, batch.rulesVersion,
      batch.rulesSha, false, now)
  }

  /** The record once a candidate was attempted for an intent. */
  function WithAttempt(codec: Codec, blocked: Record, intent: string, attempt: Attempt, candidate: Policy): Record
    requires attempt.Attempt?
  {
    var weighed := blocked.(
      intent := intent, before := attempt.before, proposed := attempt.after, fallbackBefore := attempt.fallbackBefore,
      fallbackProposed := attempt.fallbackAfter, fallback := attempt.fallback, delta := attempt.after - attempt.before,
      reason := attempt.reason);
    if attempt.reason != CandidateCreated then weighed
    else
      var json := codec.policyJson(candidate);
      weighed.(status := Recommended, candidateVersion := candidate.version, candidateSha := codec.sha(json),
               candidateJson := json)
  }

  /** The end of buildDecision: the candidate for the intent found; None stands for its error. */
  function AttemptDecision(codec: Codec, registry: Registry, blocked: Record, p: Policy, intent: string): Option<Record>
    requires intent in p.rules && |blocked.id| >= 16
  {
    var (attempt, candidate) := AttemptOf(p, registry, intent, blocked.strategy, blocked.id);
    if attempt.Invalid? then None else Some(WithAttempt(codec, blocked, intent, attempt, candidate))
  }

  /** buildDecision; None stands for its errors. */
  ghost function DecisionOf(codec: Codec, registry: Registry, batch: Batch, series: Series, active: Active, gate: Gate,
                            simulation: bool, source: string, now: Time): Option<Record>
    requires codec.Good()
  {
    if !SeriesEligible(series) || !ParentOk(active) || !GateOk(gate) then None
    else
      var blocked := BlockedRecord(codec, batch, series, active, gate, simulation, source, now);
      if !gate.technical || !gate.human || !gate.baseline then Some(blocked)
      else
        match ActiveIntent(active.document, series.strategy)
        case None => Some(blocked.(reason := StrategyNotInPolicy))
        case Some(intent) => AttemptDecision(codec, registry, blocked, active.document, intent)
  }

  /** The active policy as the controller holds it. */
  datatype ActiveRef = ActiveRef(version: string, sha: string, status: string, document: Document)

  function ActiveView(active: ActiveRef): Active
    reads Arrays(active.document.rules)
  {
    Active(active.version, active.sha, active.status, View(active.document))
  }

  method TryCandidate(codec: Codec, registry: Registry, blocked: Record, document: Document, intent: string)
    returns (decision: Option<Record>)
    requires intent in document.rules && |blocked.id| >= 16
    ensures decision == AttemptDecision(codec, registry, blocked, old(View(document)), intent)
  {
    var attempt, candidate := BuildCandidatePolicy(document, registry, intent, blocked.strategy, blocked.id);
    if attempt.Invalid? {
      return None;
    }
    return Some(WithAttempt(codec, blocked, intent, attempt, View(candidate)));
  }

  method BuildDecision(codec: Codec, registry: Registry, batch: Batch, series: Series, active: ActiveRef, gate: Gate,
                       simulation: bool, source: string, now: Time)
    returns (decision: Option<Record>)
    requires codec.Good()
    ensures decision == DecisionOf(codec, registry, batch, series, old(ActiveView(active)), gate, simulation, source,
                                   now)
  {
    var value := ActiveView(active);
    if !SeriesEligible(series) || !ParentOk(value) || !GateOk(gate) {
      return None;
    }
    var blocked := BlockedRecord(codec, batch, series, value, gate, simulation, source, now);
    if !gate.technical || !gate.human || !gate.baseline {
      return Some(blocked);
    }
    var intent := FindActiveRule(value.document, series.strategy);
    if intent.None? {
      return Some(blocked.(reason := StrategyNotInPolicy));
    }
    assert View(active.document) == value.document;
    decision := TryCandidate(codec, registry, blocked, active.document, intent.value);
    assert decision == AttemptDecision(codec, registry, blocked, value.document, intent.value);
  }

  // ----- the store -----

  predicate RecommendedOk(codec: Codec, r: Record) {
    && r.reason == CandidateCreated && r.intent != "" && -MAXIMUM_STEP <= r.delta < 0
    && r.proposed - r.before == r.delta && r.fallback != "" && r.fallbackProposed - r.fallbackBefore == -r.delta
    && r.candidateVersion != "" && |r.candidateSha| == 64 && codec.validJson(r.candidateJson)
    && codec.sha(r.candidateJson) == r.candidateSha
  }

  predicate BlockedOk(r: Record) {
    r.candidateVersion == "" && r.candidateSha == "" && r.candidateJson == "" && r.delta == 0
  }

  /** validateRecord. */
  predicate ValidRecord(codec: Codec, r: Record) {
    && |r.id| == 64 && r.mode == MODE_RECOMMEND_ONLY
    && !Blank(r.source) && !Blank(r.incidentKey) && |r.batchId| == 64 && !Blank(r.metric) && !Blank(r.strategy)
    && !Blank(r.parentVersion) && |r.parentSha| == 64 && |r.evidenceSha| == 64 && !Blank(r.detectorVersion)
    && !Blank(r.rulesVersion) && |r.rulesSha| == 64 && !r.applied && r.createdAt != 0 && codec.validJson(r.evidenceJson)
    && codec.sha(r.evidenceJson) == r.evidenceSha
    && (if r.status == Recommended then RecommendedOk(codec, r) else BlockedOk(r))
  }

  datatype Stored = Created | Ignored | Rejected

  predicate HasId(rows: seq<Record>, id: string) {
    exists i | 0 <= i < |rows| :: rows[i].id == id
  }

  /** Insert, or ignore when the primary key is taken. */
  function CreateStep(codec: Codec, rows: seq<Record>, r: Record): (seq<Record>, Stored) {
    if !ValidRecord(codec, r) then (rows, Rejected)
    else if HasId(rows, r.id) then (rows, Ignored)
    else (rows + [r], Created)
  }

  class Store {
    var rows: seq<Record>

    constructor ()
      ensures rows == []
    {
      rows := [];
    }

    method Create(codec: Codec, r: Record) returns (stored: Stored)
      modifies this
      ensures (rows, stored) == CreateStep(codec, old(rows), r)
    {
      if !ValidRecord(codec, r) {
        return Rejected;
      }
      if HasId(rows, r.id) {
        return Ignored;
      }
      rows := rows + [r];
      return Created;
    }
  }

  // ----- the builder satisfies the store -----

  /** The identity fields a snapshot and a policy must fill in. */
  predicate Named(batch: Batch, series: Series, active: Active, source: string) {
    && !Blank(source) && !Blank(series.metric) && !Blank(series.strategy) && !Blank(active.version)
    && |batch.batchId| == 64 && !Blank(batch.rulesVersion) && |batch.rulesSha| == 64
    && series.analysis.Some? && !Blank(series.analysis.value.detectorVersion)
    && !Blank(series.analysis.value.recommendation.incidentKey)
  }

  ghost predicate PolicyOk(registry: Registry, active: Active) {
    RegistryOk(registry) && ValidPolicy(registry, active.document)
  }

  lemma AttemptedRecordOk(codec: Codec, registry: Registry, blocked: Record, p: Policy, intent: string,
                          strategy: string)
    requires codec.Good() && RegistryOk(registry) && ValidPolicy(registry, p) && Uses(p, intent, strategy)
             && |blocked.id| == 64
    requires blocked.status == Blocked && BlockedOk(blocked)
    requires AttemptOf(p, registry, intent, strategy, blocked.id).0.Attempt?
    ensures var (attempt, candidate) := AttemptOf(p, registry, intent, strategy, blocked.id);
            var r := WithAttempt(codec, blocked, intent, attempt, candidate);
            && (if r.status == Recommended then RecommendedOk(codec, r) else BlockedOk(r))
            && (r.status == Recommended <==> Creates(p, registry, intent, strategy, blocked.id))
  {
    AnswersExactly(p, registry, intent, strategy, blocked.id);
    assert RuleValid(registry, intent, p.rules[intent]);
    IdentifierIsTrimmed(p.rules[intent].fallback);
    if Creates(p, registry, intent, strategy, blocked.id) {
      CandidateConserves(p, registry, intent, strategy, blocked.id);
      CreatedVersion(p, registry, intent, strategy, blocked.id);
    }
  }

  lemma CreatedVersion(p: Policy, registry: Registry, intent: string, strategy: string, id: string)
    requires intent in p.rules && |id| >= 16 && Creates(p, registry, intent, strategy, id)
    ensures AttemptOf(p, registry, intent, strategy, id).1.version != ""
  {
    LiteralVersion(id);
  }

  lemma BlockedFieldsOk(codec: Codec, batch: Batch, series: Series, active: Active, gate: Gate, simulation: bool,
                        source: string, now: Time)
    requires codec.Good() && series.analysis.Some? && ParentOk(active)
    ensures var r := BlockedRecord(codec, batch, series, active, gate, simulation, source, now);
            && (ValidRecord(codec, r) <==> Named(batch, series, active, source) && now != 0)
            && |r.id| == 64 && r.status == Blocked && BlockedOk(r) && !r.applied
            && r.fallbackProposed - r.fallbackBefore == -r.delta
  {
  }

  lemma AttemptKeepsValidity(codec: Codec, blocked: Record, intent: string, attempt: Attempt, candidate: Policy)
    requires attempt.Attempt?
    requires var r := WithAttempt(codec, blocked, intent, attempt, candidate);
             if r.status == Recommended then RecommendedOk(codec, r) else BlockedOk(r)
    requires blocked.status == Blocked && BlockedOk(blocked)
    ensures ValidRecord(codec, WithAttempt(codec, blocked, intent, attempt, candidate)) <==> ValidRecord(codec, blocked)
  {
  }

  /** Every decision the controller builds, blocked for whatever reason or recommended, passes the store's
      validator if and only if the identity fields are filled in and the clock is set; none is marked applied,
      and the fallback gains exactly what the strategy loses. */
  lemma BuilderSatisfiesStore(codec: Codec, registry: Registry, batch: Batch, series: Series, active: Active,
                              gate: Gate, simulation: bool, source: string, now: Time)
    requires codec.Good() && PolicyOk(registry, active)
    requires DecisionOf(codec, registry, batch, series, active, gate, simulation, source, now).Some?
    ensures var r := DecisionOf(codec, registry, batch, series, active, gate, simulation, source, now).value;
            && (ValidRecord(codec, r) <==> Named(batch, series, active, source) && now != 0)
            && !r.applied && r.fallbackProposed - r.fallbackBefore == -r.delta
            && r.id == IdOf(codec, IdentityOf(r)) && IdentityOf(r) == IdentityIn(batch, series, active, gate, source)
            && (r.status == Recommended ==> gate.baseline && gate.technical && gate.human)
  {
    var blocked := BlockedRecord(codec, batch, series, active, gate, simulation, source, now);
    BlockedFieldsOk(codec, batch, series, active, gate, simulation, source, now);
    var found := ActiveIntent(active.document, series.strategy);
    if gate.technical && gate.human && gate.baseline && found.Some? {
      AttemptedDecisionOk(codec, registry, blocked, active.document, found.value);
    }
  }

  lemma AttemptedDecisionOk(codec: Codec, registry: Registry, blocked: Record, p: Policy, intent: string)
    requires codec.Good() && RegistryOk(registry) && ValidPolicy(registry, p) && Uses(p, intent, blocked.strategy)
    requires |blocked.id| == 64 && blocked.status == Blocked && BlockedOk(blocked)
    requires AttemptDecision(codec, registry, blocked, p, intent).Some?
    ensures var r := AttemptDecision(codec, registry, blocked, p, intent).value;
            && (ValidRecord(codec, r) <==> ValidRecord(codec, blocked))
            && r.applied == blocked.applied && r.fallbackProposed - r.fallbackBefore == -r.delta
            && r.id == blocked.id && IdentityOf(r) == IdentityOf(blocked)
  {
    AttemptBalances(registry, p, intent, blocked.strategy, blocked.id);
    AttemptedRecordOk(codec, registry, blocked, p, intent, blocked.strategy);
    var (attempt, candidate) := AttemptOf(p, registry, intent, blocked.strategy, blocked.id);
    AttemptKeepsValidity(codec, blocked, intent, attempt, candidate);
  }

  lemma AttemptBalances(registry: Registry, p: Policy, intent: string, strategy: string, id: string)
    requires RegistryOk(registry) && ValidPolicy(registry, p) && Uses(p, intent, strategy) && |id| >= 16
    ensures var attempt := AttemptOf(p, registry, intent, strategy, id).0;
            attempt.Attempt? ==> attempt.fallbackAfter - attempt.fallbackBefore == attempt.before - attempt.after
  {
    AnswersExactly(p, registry, intent, strategy, id);
  }

  /** The identity a series is decided under. */
  function IdentityIn(batch: Batch, series: Series, active: Active, gate: Gate, source: string): Identity
    requires series.analysis.Some?
  {
    Identity(series.analysis.value.recommendation.incidentKey, series.metric, series.strategy, active.version,
             active.sha, gate.reportSha, batch.rulesSha, source)
  }

  // ----- one cycle -----

  datatype Counters = Counters(examined: nat, recommended: nat, blocked: nat, duplicate: nat)

  /** Which series a cycle examines. */
  predicate Examines(series: Series) {
    series.analysis.Some? && series.dataStatus == "observed" && series.analysis.value.decisionStatus == "anomalous"
  }

  /** The rows, the counters, and how many series failed. */
  datatype Progress = Progress(rows: seq<Record>, counters: Counters, failures: nat)

  /** What became of one series before the store saw it. */
  datatype Verdict = Skipped | Failed | Decided(record: Record)

  function Tally(codec: Codec, p: Progress, v: Verdict): Progress {
    var examined := p.counters.(examined := p.counters.examined + 1);
    match v
    case Skipped => p
    case Failed => p.(counters := examined, failures := p.failures + 1)
    case Decided(r) =>
      var (rows, stored) := CreateStep(codec, p.rows, r);
      match stored
      case Rejected => p.(counters := examined, failures := p.failures + 1)
      case Ignored => p.(counters := examined.(duplicate := examined.duplicate + 1))
      case Created =>
        Progress(rows, if r.status == Recommended then examined.(recommended := examined.recommended + 1)
                       else examined.(blocked := examined.blocked + 1), p.failures)
  }

  function Fold(codec: Codec, rows: seq<Record>, verdicts: seq<Verdict>): Progress {
    if verdicts == [] then Progress(rows, Counters(0, 0, 0, 0), 0)
    else Tally(codec, Fold(codec, rows, verdicts[..|verdicts| - 1]), verdicts[|verdicts| - 1])
  }

  /** What one cycle decides on: everything but the clock. */
  datatype Input = Input(batch: Batch, active: Active, gate: Gate)

  predicate BatchOk(batch: Batch) {
    !batch.simulation && |batch.batchId| == 64 && batch.rulesVersion != "" && |batch.rulesSha| == 64
  }

  ghost function VerdictOn(codec: Codec, registry: Registry, input: Input, series: Series, now: Time): Verdict
    requires codec.Good()
  {
    if !Examines(series) then Skipped
    else
      match DecisionOf(codec, registry, input.batch, series, input.active, input.gate, false, PRODUCTION_SOURCE, now)
      case None => Failed
      case Some(r) => Decided(r)
  }

  /** The verdicts of a cycle, the clock read once for each series. */
  ghost function Verdicts(codec: Codec, registry: Registry, input: Input, clock: nat -> Time): seq<Verdict>
    requires codec.Good()
  {
    seq(|input.batch.series|, k requires 0 <= k < |input.batch.series| =>
      VerdictOn(codec, registry, input, input.batch.series[k], clock(k)))
  }

  ghost function CycleOf(codec: Codec, registry: Registry, input: Input, clock: nat -> Time, rows: seq<Record>)
    : Progress
    requires codec.Good()
  {
    Fold(codec, rows, Verdicts(codec, registry, input, clock))
  }

  class Controller {
    const codec: Codec
    const registry: Registry
    const store: Store

    constructor (codec: Codec, registry: Registry, store: Store)
      ensures this.codec == codec && this.registry == registry && this.store == store
    {
      this.codec, this.registry, this.store := codec, registry, store;
    }

    /** Reconcile; None when the batch is refused, otherwise the counters and how many series failed. */
    method Reconcile(batch: Batch, active: ActiveRef, gate: Gate, clock: nat -> Time)
      returns (result: Option<(Counters, nat)>)
      requires codec.Good()
      modifies store
      ensures result.Some? <==>
                !batch.simulation && |batch.batchId| == 64 && batch.rulesVersion != "" && |batch.rulesSha| == 64
      ensures result.None? ==> store.rows == old(store.rows)
      ensures result.Some? ==>
                CycleOf(codec, registry, Input(batch, old(ActiveView(active)), gate), clock, old(store.rows))
                == Progress(store.rows, result.value.0, result.value.1)
    {
      if batch.simulation || |batch.batchId| != 64 || batch.rulesVersion == "" || |batch.rulesSha| != 64 {
        return None;
      }
      ghost var input := Input(batch, ActiveView(active), gate);
      ghost var verdicts := Verdicts(codec, registry, input, clock);
      var counters, failures := Counters(0, 0, 0, 0), 0;
      for n := 0 to |batch.series|
        invariant ActiveView(active) == input.active
        invariant Fold(codec, old(store.rows), verdicts[..n]) == Progress(store.rows, counters, failures)
      {
        FoldStep(codec, old(store.rows), verdicts, n);
        var verdict := Decide(batch, batch.series[n], active, gate, clock(n));
        assert verdict == verdicts[n];
        counters, failures := Count(counters, failures, verdict);
      }
      FullPrefix(verdicts);
      return Some((counters, failures));
    }

    method Decide(batch: Batch, series: Series, active: ActiveRef, gate: Gate, now: Time) returns (verdict: Verdict)
      requires codec.Good()
      ensures verdict == VerdictOn(codec, registry, Input(batch, old(ActiveView(active)), gate), series, now)
    {
      if !Examines(series) {
        return Skipped;
      }
      var decision := BuildDecision(codec, registry, batch, series, active, gate, false, PRODUCTION_SOURCE, now);
      return if decision.None? then Failed else Decided(decision.value);
    }

    /** One series of the cycle: store its decision and count what became of it. */
    method Count(counters: Counters, failures: nat, verdict: Verdict) returns (counters': Counters, failures': nat)
      modifies store
      ensures Progress(store.rows, counters', failures')
           == Tally(codec, Progress(old(store.rows), counters, failures), verdict)
    {
      counters', failures' := counters, failures;
      if verdict.Skipped? {
        return;
      }
      counters' := counters.(examined := counters.examined + 1);
      if verdict.Failed? {
        failures' := failures + 1;
        return;
      }
      var stored := store.Create(codec, verdict.record);
      match stored
      case Rejected => failures' := failures + 1;
      case Ignored => counters' := counters'.(duplicate := counters'.duplicate + 1);
      case Created =>
        if verdict.record.status == Recommended {
          counters' := counters'.(recommended := counters'.recommended + 1);
        } else {
          counters' := counters'.(blocked := counters'.blocked + 1);
        }
    }
  }

  lemma FoldStep(codec: Codec, rows: seq<Record>, verdicts: seq<Verdict>, n: nat)
    requires n < |verdicts|
    ensures Fold(codec, rows, verdicts[..n + 1]) == Tally(codec, Fold(codec, rows, verdicts[..n]), verdicts[n])
  {
    assert verdicts[..n + 1][..n] == verdicts[..n];
  }

  // ----- what a cycle does to the table -----

  ghost predicate UniqueIds(rows: seq<Record>) {
    forall i, j | 0 <= i < j < |rows| :: rows[i].id != rows[j].id
  }

  /** Filed under the hash of its own identity. */
  predicate Filed(codec: Codec, r: Record) {
    r.id == IdOf(codec, IdentityOf(r))
  }

  ghost predicate TableOk(codec: Codec, rows: seq<Record>) {
    UniqueIds(rows) && forall i | 0 <= i < |rows| :: Filed(codec, rows[i])
  }

  /** Counted once each: what was examined either made a row, met an older one, or failed. */
  predicate Adds(before: seq<Record>, p: Progress) {
    && p.counters.examined == p.counters.recommended + p.counters.blocked + p.counters.duplicate + p.failures
    && |p.rows| == |before| + p.counters.recommended + p.counters.blocked
    && before <= p.rows
  }

  lemma CreateKeeps(codec: Codec, rows: seq<Record>, r: Record)
    requires TableOk(codec, rows) && Filed(codec, r)
    ensures TableOk(codec, CreateStep(codec, rows, r).0)
  {
    if !HasId(rows, r.id) {
      AppendKeepsTable(codec, rows, r);
    }
  }

  lemma AppendKeepsTable(codec: Codec, rows: seq<Record>, r: Record)
    requires TableOk(codec, rows) && Filed(codec, r) && !HasId(rows, r.id)
    ensures TableOk(codec, rows + [r])
  {
  }

  lemma TallyKeeps(codec: Codec, before: seq<Record>, p: Progress, v: Verdict)
    requires TableOk(codec, p.rows) && Adds(before, p) && (v.Decided? ==> Filed(codec, v.record))
    ensures TableOk(codec, Tally(codec, p, v).rows) && Adds(before, Tally(codec, p, v))
  {
    if v.Decided? {
      CreateKeeps(codec, p.rows, v.record);
    }
  }

  ghost predicate AllFiled(codec: Codec, verdicts: seq<Verdict>) {
    forall k | 0 <= k < |verdicts| && verdicts[k].Decided? :: Filed(codec, verdicts[k].record)
  }

  lemma {:induction false} FoldKeeps(codec: Codec, rows: seq<Record>, verdicts: seq<Verdict>)
    requires TableOk(codec, rows) && AllFiled(codec, verdicts)
    ensures TableOk(codec, Fold(codec, rows, verdicts).rows) && Adds(rows, Fold(codec, rows, verdicts))
  {
    if verdicts != [] {
      var front := verdicts[..|verdicts| - 1];
      FoldKeeps(codec, rows, front);
      TallyKeeps(codec, rows, Fold(codec, rows, front), verdicts[|verdicts| - 1]);
    }
  }

  lemma VerdictIsFiled(codec: Codec, registry: Registry, input: Input, series: Series, now: Time)
    requires codec.Good() && PolicyOk(registry, input.active)
    ensures var v := VerdictOn(codec, registry, input, series, now);
            v.Decided? ==>
              && Filed(codec, v.record) && Examines(series)
              && IdentityOf(v.record) == IdentityIn(input.batch, series, input.active, input.gate, PRODUCTION_SOURCE)
              && (ValidRecord(codec, v.record) <==>
                    Named(input.batch, series, input.active, PRODUCTION_SOURCE) && now != 0)
  {
    if VerdictOn(codec, registry, input, series, now).Decided? {
      BuilderSatisfiesStore(codec, registry, input.batch, series, input.active, input.gate, false, PRODUCTION_SOURCE,
                            now);
    }
  }

  lemma VerdictsAreFiled(codec: Codec, registry: Registry, input: Input, clock: nat -> Time)
    requires codec.Good() && PolicyOk(registry, input.active)
    ensures AllFiled(codec, Verdicts(codec, registry, input, clock))
  {
    forall k | 0 <= k < |input.batch.series|
      ensures Verdicts(codec, registry, input, clock)[k].Decided? ==>
                Filed(codec, Verdicts(codec, registry, input, clock)[k].record)
    {
      VerdictIsFiled(codec, registry, input, input.batch.series[k], clock(k));
    }
  }

  /** A cycle never alters a stored row, keeps one row per identity, and accounts for every series it examines. */
  lemma CycleIsSafe(codec: Codec, registry: Registry, input: Input, clock: nat -> Time, rows: seq<Record>)
    requires codec.Good() && PolicyOk(registry, input.active) && TableOk(codec, rows)
    ensures var p := CycleOf(codec, registry, input, clock, rows);
            TableOk(codec, p.rows) && Adds(rows, p)
  {
    VerdictsAreFiled(codec, registry, input, clock);
    FoldKeeps(codec, rows, Verdicts(codec, registry, input, clock));
  }

  /** A batch whose rules version is only white space gets past the guard of a cycle, and then stores nothing: every
      series examined is a failure. */
  lemma BlankRulesVersionStoresNothing(codec: Codec, registry: Registry, input: Input, clock: nat -> Time,
                                       rows: seq<Record>)
    requires codec.Good() && PolicyOk(registry, input.active)
    requires BatchOk(input.batch) && Blank(input.batch.rulesVersion)
    ensures var p := CycleOf(codec, registry, input, clock, rows);
            p.rows == rows && p.failures == p.counters.examined
  {
    var verdicts := Verdicts(codec, registry, input, clock);
    forall k | 0 <= k < |verdicts| ensures verdicts[k].Decided? ==> !ValidRecord(codec, verdicts[k].record) {
      VerdictIsFiled(codec, registry, input, input.batch.series[k], clock(k));
    }
    FoldOfInvalid(codec, rows, verdicts);
  }

  lemma {:induction false} FoldOfInvalid(codec: Codec, rows: seq<Record>, verdicts: seq<Verdict>)
    requires forall k | 0 <= k < |verdicts| :: verdicts[k].Decided? ==> !ValidRecord(codec, verdicts[k].record)
    ensures var p := Fold(codec, rows, verdicts); p.rows == rows && p.failures == p.counters.examined
  {
    if verdicts != [] {
      FoldOfInvalid(codec, rows, verdicts[..|verdicts| - 1]);
    }
  }

  /** One anomalous series under such a rules version: the cycle runs, examines it, fails once and stores nothing. */
  lemma BlankRulesVersionFails(codec: Codec, registry: Registry, input: Input, clock: nat -> Time, series: Series)
    requires codec.Good() && PolicyOk(registry, input.active)
    requires BatchOk(input.batch.(rulesVersion := " ", series := [series])) && Examines(series)
    ensures var blank := input.(batch := input.batch.(rulesVersion := " ", series := [series]));
            BatchOk(blank.batch) && CycleOf(codec, registry, blank, clock, []) == Progress([], Counters(1, 0, 0, 0), 1)
  {
    var blank := input.(batch := input.batch.(rulesVersion := " ", series := [series]));
    assert Blank(" ") by {
      assert TrimLeft(" ") == TrimLeft("");
    }
    BlankRulesVersionStoresNothing(codec, registry, blank, clock, []);
    var verdicts := Verdicts(codec, registry, blank, clock);
    FoldStep(codec, [], verdicts, 0);
    assert verdicts[..1] == verdicts && verdicts[..0] == [];
  }

  // ----- any number of cycles -----

  datatype Cycle = Cycle(input: Input, clock: nat -> Time)

  /** The table after a run of cycles; a refused batch leaves it alone. */
  ghost function RunOf(codec: Codec, registry: Registry, cycles: seq<Cycle>): seq<Record>
    requires codec.Good()
  {
    if cycles == [] then []
    else
      var rows, c := RunOf(codec, registry, cycles[..|cycles| - 1]), cycles[|cycles| - 1];
      if !BatchOk(c.input.batch) then rows else CycleOf(codec, registry, c.input, c.clock, rows).rows
  }

  ghost predicate PoliciesOk(registry: Registry, cycles: seq<Cycle>) {
    forall i | 0 <= i < |cycles| :: PolicyOk(registry, cycles[i].input.active)
  }

  lemma {:induction false} RunIsSafe(codec: Codec, registry: Registry, cycles: seq<Cycle>)
    requires codec.Good() && PoliciesOk(registry, cycles)
    ensures TableOk(codec, RunOf(codec, registry, cycles))
  {
    if cycles != [] {
      var last := |cycles| - 1;
      RunIsSafe(codec, registry, cycles[..last]);
      if BatchOk(cycles[last].input.batch) {
        CycleIsSafe(codec, registry, cycles[last].input, cycles[last].clock, RunOf(codec, registry, cycles[..last]));
      }
    }
  }

  lemma LastCycleKeepsRows(codec: Codec, registry: Registry, cycles: seq<Cycle>)
    requires codec.Good() && PoliciesOk(registry, cycles) && cycles != []
    ensures RunOf(codec, registry, cycles[..|cycles| - 1]) <= RunOf(codec, registry, cycles)
  {
    var before, c := cycles[..|cycles| - 1], cycles[|cycles| - 1];
    RunIsSafe(codec, registry, before);
    if BatchOk(c.input.batch) {
      CycleIsSafe(codec, registry, c.input, c.clock, RunOf(codec, registry, before));
    }
  }

  /** However many cycles follow, the rows of a run stay as they are. */
  lemma {:induction false} RowsAreNeverAltered(codec: Codec, registry: Registry, cycles: seq<Cycle>, later: seq<Cycle>)
    requires codec.Good() && PoliciesOk(registry, cycles + later)
    ensures RunOf(codec, registry, cycles) <= RunOf(codec, registry, cycles + later)
    decreases |later|
  {
    if later == [] {
      assert cycles + later == cycles;
    } else {
      var all := cycles + later;
      assert all[..|all| - 1] == cycles + later[..|later| - 1];
      RowsAreNeverAltered(codec, registry, cycles, later[..|later| - 1]);
      LastCycleKeepsRows(codec, registry, all);
    }
  }

  /** Over any run, each identity has at most one row, whatever batches it came in. */
  lemma OneRowPerIdentity(codec: Codec, registry: Registry, cycles: seq<Cycle>, i: nat, j: nat)
    requires codec.Good() && PoliciesOk(registry, cycles)
    requires var rows := RunOf(codec, registry, cycles);
             i < |rows| && j < |rows| && IdentityOf(rows[i]) == IdentityOf(rows[j])
    ensures i == j
  {
    RunIsSafe(codec, registry, cycles);
    var rows := RunOf(codec, registry, cycles);
    assert Filed(codec, rows[i]) && Filed(codec, rows[j]);
  }

  // ----- deciding the same thing again -----

  lemma HasIdGrows(rows: seq<Record>, more: seq<Record>, id: string)
    requires rows <= more && HasId(rows, id)
    ensures HasId(more, id)
  {
    var i :| 0 <= i < |rows| && rows[i].id == id;
    assert more[i].id == id;
  }

  lemma TallyFiles(codec: Codec, p: Progress, v: Verdict)
    ensures p.rows <= Tally(codec, p, v).rows
    ensures v.Decided? && ValidRecord(codec, v.record) ==> HasId(Tally(codec, p, v).rows, v.record.id)
  {
    if v.Decided? && ValidRecord(codec, v.record) && !HasId(p.rows, v.record.id) {
      assert (p.rows + [v.record])[|p.rows|].id == v.record.id;
    }
  }

  /** After a cycle, every decision it could store is in the table. */
  lemma {:induction false} FoldFiles(codec: Codec, rows: seq<Record>, verdicts: seq<Verdict>, k: nat)
    requires k < |verdicts| && verdicts[k].Decided? && ValidRecord(codec, verdicts[k].record)
    ensures HasId(Fold(codec, rows, verdicts).rows, verdicts[k].record.id)
    decreases |verdicts|
  {
    var last := |verdicts| - 1;
    TallyFiles(codec, Fold(codec, rows, verdicts[..last]), verdicts[last]);
    if k < last {
      FoldFiles(codec, rows, verdicts[..last], k);
      HasIdGrows(Fold(codec, rows, verdicts[..last]).rows, Fold(codec, rows, verdicts).rows, verdicts[k].record.id);
    }
  }

  /** Nothing new: each decision is either already filed or not acceptable. */
  ghost predicate AllKnown(codec: Codec, rows: seq<Record>, verdicts: seq<Verdict>) {
    forall k | 0 <= k < |verdicts| && verdicts[k].Decided? ::
      ValidRecord(codec, verdicts[k].record) ==> HasId(rows, verdicts[k].record.id)
  }

  lemma {:induction false} FoldOfKnown(codec: Codec, rows: seq<Record>, verdicts: seq<Verdict>)
    requires AllKnown(codec, rows, verdicts)
    ensures var p := Fold(codec, rows, verdicts);
            p.rows == rows && p.counters.recommended == 0 && p.counters.blocked == 0
  {
    if verdicts != [] {
      FoldOfKnown(codec, rows, verdicts[..|verdicts| - 1]);
    }
  }

  /** Only the evidence and the time of a decision depend on the batch id and the clock. */
  lemma SameVerdictLater(codec: Codec, registry: Registry, input: Input, batchId: string, series: Series, now: Time,
                         later: Time)
    requires codec.Good() && PolicyOk(registry, input.active) && |batchId| == |input.batch.batchId| && now != 0
    ensures var other := input.(batch := input.batch.(batchId := batchId));
            var first := VerdictOn(codec, registry, input, series, now);
            var second := VerdictOn(codec, registry, other, series, later);
            second.Decided? ==>
              && first.Decided? && first.record.id == second.record.id
              && (ValidRecord(codec, second.record) ==> ValidRecord(codec, first.record))
  {
    var other := input.(batch := input.batch.(batchId := batchId));
    VerdictIsFiled(codec, registry, input, series, now);
    VerdictIsFiled(codec, registry, other, series, later);
    if VerdictOn(codec, registry, other, series, later).Decided? {
      DecidedAlike(codec, registry, input, other, series, now, later);
    }
  }

  lemma DecidedAlike(codec: Codec, registry: Registry, input: Input, other: Input, series: Series, now: Time,
                     later: Time)
    requires codec.Good() && other == input.(batch := input.batch.(batchId := other.batch.batchId))
    ensures VerdictOn(codec, registry, input, series, now).Decided?
         == VerdictOn(codec, registry, other, series, later).Decided?
  {
  }

  /** A persistent anomaly does not flood the table: repeating a cycle under another batch id and any clock adds
      no row, whatever was stored in between. */
  lemma RepeatedCycleAddsNothing(codec: Codec, registry: Registry, input: Input, clock: nat -> Time, rows: seq<Record>,
                                 batchId: string, later: nat -> Time, now: seq<Record>)
    requires codec.Good() && PolicyOk(registry, input.active) && |batchId| == |input.batch.batchId|
    requires forall k: nat :: clock(k) != 0
    requires CycleOf(codec, registry, input, clock, rows).rows <= now
    ensures var p := CycleOf(codec, registry, input.(batch := input.batch.(batchId := batchId)), later, now);
            p.rows == now && p.counters.recommended == 0 && p.counters.blocked == 0
  {
    var other := input.(batch := input.batch.(batchId := batchId));
    var first, second := Verdicts(codec, registry, input, clock), Verdicts(codec, registry, other, later);
    forall k | 0 <= k < |second| && second[k].Decided? && ValidRecord(codec, second[k].record)
      ensures HasId(now, second[k].record.id)
    {
      SameVerdictLater(codec, registry, input, batchId, input.batch.series[k], clock(k), later(k));
      FoldFiles(codec, rows, first, k);
      HasIdGrows(CycleOf(codec, registry, input, clock, rows).rows, now, second[k].record.id);
    }
    FoldOfKnown(codec, now, second);
  }

  // ----- how well the id tells identities apart -----

  function FromParts(p: seq<string>): Identity
    requires |p| == 8
  {
    Identity(p[0], p[1], p[2], p[3], p[4], p[5], p[6], p[7])
  }

  lemma PartsAreFields(a: Identity, b: Identity)
    requires Parts(a) == Parts(b)
    ensures a == b
  {
    var p, q := Parts(a), Parts(b);
    assert p[0] == q[0] && p[1] == q[1] && p[2] == q[2] && p[3] == q[3];
    assert p[4] == q[4] && p[5] == q[5] && p[6] == q[6] && p[7] == q[7];
  }

  lemma TextIsTheJoin(a: Identity, b: Identity)
    ensures IdText(a) == IdText(b) <==> Join(Parts(a), "|") == Join(Parts(b), "|")
  {
    assert Join(Parts(a), "|") == IdText(a)[|ID_PREFIX|..] && Join(Parts(b), "|") == IdText(b)[|ID_PREFIX|..];
  }

  /** An identity shares its text, and so its id under every hash, with another one if and only if one of its parts
      holds the separator. */
  lemma SharedIffBarred(a: Identity)
    ensures (exists b :: b != a && IdText(b) == IdText(a)) <==> exists k | 0 <= k < 8 :: '|' in Parts(a)[k]
  {
    if k: nat :| k < 8 && '|' in Parts(a)[k] {
      var other := BarredJoinIsShared(Parts(a), k, '|');
      var b := FromParts(other);
      assert Parts(b) == other;
      TextIsTheJoin(a, b);
      assert b != a && IdText(b) == IdText(a);
    } else {
      forall b | IdText(b) == IdText(a) ensures b == a {
        TextIsTheJoin(a, b);
        FreeJoinIsUnique(Parts(a), Parts(b), '|');
        PartsAreFields(a, b);
      }
    }
  }

  /** These two texts do not happen to hash alike. */
  predicate NoCollision(codec: Codec, a: Identity, b: Identity) {
    codec.sha(IdText(a)) == codec.sha(IdText(b)) ==> IdText(a) == IdText(b)
  }

  /** An identity free of the separator shares its id with no other, whatever the other holds, short of a hash
      collision between the two texts. */
  lemma FreeIdentityIsAlone(codec: Codec, a: Identity, b: Identity)
    requires AllFree(Parts(a), '|') && NoCollision(codec, a, b)
    ensures IdOf(codec, a) == IdOf(codec, b) <==> a == b
  {
    SharedIffBarred(a);
  }

  /** Nor do two identities that hold the separator in the same one part only, whichever that is. */
  lemma IdDecidesIdentity(codec: Codec, a: Identity, b: Identity, m: nat)
    requires FreeBut(Parts(a), m, '|') && FreeBut(Parts(b), m, '|') && NoCollision(codec, a, b)
    ensures IdOf(codec, a) == IdOf(codec, b) <==> a == b
  {
    if IdOf(codec, a) == IdOf(codec, b) {
      TextIsTheJoin(a, b);
      JoinInjectiveAround(Parts(a), Parts(b), m, '|');
      PartsAreFields(a, b);
    }
  }

  predicate HexChar(c: char) {
    '0' <= c <= '9' || 'a' <= c <= 'f' || 'A' <= c <= 'F'
  }

  predicate HexText(s: string) {
    forall i | 0 <= i < |s| :: HexChar(s[i])
  }

  const INCIDENT_PREFIX := "incident-"

  /** The identities production decisions are filed under: the incident key is a prefix and a digest, metric and
      strategy are identifiers, hashes are hexadecimal, the source is fixed. Only the version of the policy is free. */
  predicate FromDetector(i: Identity) {
    && INCIDENT_PREFIX <= i.incidentKey && HexText(i.incidentKey[|INCIDENT_PREFIX|..])
    && Identifier(i.metric) && Identifier(i.strategy)
    && HexText(i.parentSha) && HexText(i.reportSha) && HexText(i.rulesSha) && i.source == PRODUCTION_SOURCE
  }

  lemma HexIsFree(s: string)
    requires HexText(s)
    ensures '|' !in s
  {
    forall i | 0 <= i < |s| ensures s[i] != '|' {
      assert HexChar(s[i]);
    }
  }

  lemma IdentifierIsFree(s: string)
    requires Identifier(s)
    ensures '|' !in s
  {
    forall i | 0 <= i < |s| ensures s[i] != '|' {
      assert IdentifierChar(s[i]);
    }
  }

  lemma DetectorIsFreeBut(i: Identity)
    requires FromDetector(i)
    ensures FreeBut(Parts(i), 3, '|')
  {
    var digest := i.incidentKey[|INCIDENT_PREFIX|..];
    HexIsFree(digest);
    assert i.incidentKey == INCIDENT_PREFIX + digest;
    assert '|' !in INCIDENT_PREFIX && '|' !in PRODUCTION_SOURCE;
    IdentifierIsFree(i.metric);
    IdentifierIsFree(i.strategy);
    HexIsFree(i.parentSha);
    HexIsFree(i.reportSha);
    HexIsFree(i.rulesSha);
  }

  /** So the ids of production decisions tell their identities apart, whatever the policy versions hold. */
  lemma ProductionIdsDecide(codec: Codec, a: Identity, b: Identity)
    requires FromDetector(a) && FromDetector(b) && NoCollision(codec, a, b)
    ensures IdOf(codec, a) == IdOf(codec, b) <==> a == b
  {
    DetectorIsFreeBut(a);
    DetectorIsFreeBut(b);
    IdDecidesIdentity(codec, a, b, 3);
  }

  /** Two series of one batch that share their id text: the first is stored, the second is counted as its duplicate
      and its decision is lost. */
  lemma SharedIdLosesADecision(codec: Codec, registry: Registry, input: Input, clock: nat -> Time, one: Series,
                               other: Series)
    requires codec.Good() && input.batch.series == [one, other] && clock(0) != 0 && clock(1) != 0
    requires ParentOk(input.active) && GateOk(input.gate) && !input.gate.baseline
    requires Examines(one) && SeriesEligible(one) && Named(input.batch, one, input.active, PRODUCTION_SOURCE)
    requires Examines(other) && SeriesEligible(other) && Named(input.batch, other, input.active, PRODUCTION_SOURCE)
    requires IdText(IdentityIn(input.batch, one, input.active, input.gate, PRODUCTION_SOURCE))
          == IdText(IdentityIn(input.batch, other, input.active, input.gate, PRODUCTION_SOURCE))
    ensures var p := CycleOf(codec, registry, input, clock, []);
            && |p.rows| == 1 && p.counters == Counters(2, 0, 1, 1) && p.failures == 0
            && IdentityOf(p.rows[0]) == IdentityIn(input.batch, one, input.active, input.gate, PRODUCTION_SOURCE)
  {
    var verdicts := Verdicts(codec, registry, input, clock);
    BlockedVerdict(codec, registry, input, one, clock(0));
    BlockedVerdict(codec, registry, input, other, clock(1));
    assert verdicts[0] == VerdictOn(codec, registry, input, one, clock(0));
    assert verdicts[1] == VerdictOn(codec, registry, input, other, clock(1));
    StoresThenIgnores(codec, verdicts);
  }

  /** Without an eligible baseline every decision on a named series is stored as blocked, whatever the policy. */
  lemma BlockedVerdict(codec: Codec, registry: Registry, input: Input, series: Series, now: Time)
    requires codec.Good() && now != 0 && ParentOk(input.active) && GateOk(input.gate) && !input.gate.baseline
    requires Examines(series) && SeriesEligible(series) && Named(input.batch, series, input.active, PRODUCTION_SOURCE)
    ensures var v := VerdictOn(codec, registry, input, series, now);
            var identity := IdentityIn(input.batch, series, input.active, input.gate, PRODUCTION_SOURCE);
            && v.Decided? && ValidRecord(codec, v.record) && v.record.status == Blocked
            && IdentityOf(v.record) == identity && v.record.id == IdOf(codec, identity)
  {
    BlockedFieldsOk(codec, input.batch, series, input.active, input.gate, false, PRODUCTION_SOURCE, now);
  }

  lemma StoresThenIgnores(codec: Codec, v: seq<Verdict>)
    requires |v| == 2 && v[0].Decided? && v[1].Decided? && v[0].record.id == v[1].record.id
    requires ValidRecord(codec, v[0].record) && ValidRecord(codec, v[1].record) && v[0].record.status == Blocked
    ensures Fold(codec, [], v) == Progress([v[0].record], Counters(2, 0, 1, 1), 0)
  {
    FoldStep(codec, [], v, 0);
    FoldStep(codec, [], v, 1);
    assert v[..0] == [];
    FullPrefix(v);
    FirstIsStored(codec, v[0].record);
    SameIdIsIgnored(codec, v[0].record, v[1].record);
  }

  lemma FirstIsStored(codec: Codec, r: Record)
    requires ValidRecord(codec, r) && r.status == Blocked
    ensures Tally(codec, Progress([], Counters(0, 0, 0, 0), 0), Decided(r)) == Progress([r], Counters(1, 0, 1, 0), 0)
  {
  }

  lemma SameIdIsIgnored(codec: Codec, a: Record, b: Record)
    requires ValidRecord(codec, b) && a.id == b.id
    ensures Tally(codec, Progress([a], Counters(1, 0, 1, 0), 0), Decided(b)) == Progress([a], Counters(2, 0, 1, 1), 0)
  {
    assert [a][0].id == b.id;
  }

  /** Such a pair: moving a '|' from the incident to the metric does not change the id under any hash. */
  lemma SeparatorConfusesIdentities(codec: Codec, x: string, y: string, z: string, rest: Identity)
    ensures var a, b := rest.(incidentKey := x + "|" + y, metric := z), rest.(incidentKey := x, metric := y + "|" + z);
            a != b && IdText(a) == IdText(b) && IdOf(codec, a) == IdOf(codec, b)
  {
    var a, b := rest.(incidentKey := x + "|" + y, metric := z), rest.(incidentKey := x, metric := y + "|" + z);
    assert |a.incidentKey| > |b.incidentKey|;
    var tail := Parts(rest)[2..];
    assert Parts(a) == [x + "|" + y, z] + tail && Parts(b) == [x, y + "|" + z] + tail;
    JoinTwo(x + "|" + y, z, tail);
    JoinTwo(x, y + "|" + z, tail);
    assert x + "|" + y + "|" + z + "|" + Join(tail, "|") == x + "|" + (y + "|" + z) + "|" + Join(tail, "|");
  }

  lemma JoinTwo(a: string, b: string, tail: seq<string>)
    requires tail != []
    ensures Join([a, b] + tail, "|") == a + "|" + b + "|" + Join(tail, "|")
  {
    assert ([a, b] + tail)[1..] == [b] + tail;
    assert ([b] + tail)[1..] == tail;
    assert Join([b] + tail, "|") == b + "|" + Join(tail, "|");
    assert a + "|" + (b + "|" + Join(tail, "|")) == a + "|" + b + "|" + Join(tail, "|");
  }
}
