/** Which decision each anomaly gets, and what a cycle makes of it. */
module RecommendationOutcome {
  import opened Text
  import opened Sequences
  import opened Options
  import opened PolicyCandidate
  import opened Recommendation

  // ----- one decision -----

  /** An anomaly that calls for less weight, an active policy, and a gate that says where it stands. */
  predicate MayDecide(series: Series, active: Active, gate: Gate) {
    && series.analysis.Some?
    && series.analysis.value.decisionStatus == "anomalous"
    && series.analysis.value.recommendation.mode == "recommend_only"
    && series.analysis.value.recommendation.action == "reduce_candidate_weight"
    && !series.analysis.value.recommendation.applied
    && active.version != "" && |active.sha| == 64 && active.status == "active"
    && Trim(gate.source) != "" && Trim(gate.runId) != "" && Trim(gate.candidateVersion) != "" && |gate.reportSha| == 64
    && (gate.baseline ==> gate.technical && gate.human)
  }

  predicate Lists(rule: Rule, name: string) {
    exists k | 0 <= k < |rule.strategies| :: rule.strategies[k].name == name
  }

  /** The weight of a name in a rule; 0 when it is not listed. */
  function Share(rule: Rule, name: string): int {
    Sum(rule.strategies, Some(name))
  }

  /** The intent decided on: the first in order whose rule lists the strategy. */
  ghost predicate DecidesOn(p: Policy, strategy: string, intent: string) {
    && intent in p.rules && Lists(p.rules[intent], strategy)
    && forall other | other in p.rules && Lists(p.rules[other], strategy) :: LessEq(intent, other)
  }

  ghost predicate Unlisted(p: Policy, strategy: string) {
    forall intent | intent in p.rules :: !Lists(p.rules[intent], strategy)
  }

  /** Weight can be taken: not from the fallback itself, and not from the last five hundred basis points. */
  predicate Reducible(rule: Rule, strategy: string) {
    rule.fallback != strategy && Share(rule, strategy) > 500
  }

  /** Weight can be given: the fallback is listed, or an eighth place is free. */
  predicate HasRoom(rule: Rule) {
    Lists(rule, rule.fallback) || |rule.strategies| < 8
  }

  function Least(a: int, b: int): int {
    if a < b then a else b
  }

  /** What every decision holds, whatever was decided. */
  predicate Grounded(codec: Codec, batch: Batch, series: Series, active: Active, gate: Gate, simulation: bool,
                     source: string, now: Time, r: Record)
    requires series.analysis.Some?
  {
    var basis := Basis(source, simulation, batch.batchId, batch.rulesVersion, batch.rulesSha, series, gate,
                       active.version, active.sha);
    && r.mode == "recommend_only" && !r.applied && r.simulation == simulation && r.source == source
    && r.createdAt == now && r.batchId == batch.batchId && r.rulesVersion == batch.rulesVersion
    && r.rulesSha == batch.rulesSha && r.metric == series.metric && r.strategy == series.strategy
    && r.incidentKey == series.analysis.value.recommendation.incidentKey
    && r.detectorVersion == series.analysis.value.detectorVersion
    && r.parentVersion == active.version && r.parentSha == active.sha
    && r.runId == gate.runId && r.reportSha == gate.reportSha && r.baseline == gate.baseline
    && r.evidenceJson == codec.basisJson(basis) && r.evidenceSha == codec.sha(r.evidenceJson)
    && r.id == IdOf(codec, IdentityIn(batch, series, active, gate, source))
  }

  /** A decision that proposes nothing. */
  predicate Blocks(r: Record, reason: Reason, intent: string, before: int, held: int, fallback: string) {
    && r.status == Blocked && r.reason == reason && r.intent == intent
    && r.before == r.proposed == before && r.fallbackBefore == r.fallbackProposed == held && r.fallback == fallback
    && r.delta == 0 && r.candidateVersion == "" && r.candidateSha == "" && r.candidateJson == ""
  }

  /** A decision that proposes a policy: at most a thousand basis points go from the strategy to the fallback, five
      hundred stay, the document is valid and differs from the active one in nothing else but its version. */
  ghost predicate Recommends(codec: Codec, registry: Registry, p: Policy, intent: string, r: Record)
    requires intent in p.rules
  {
    var rule := p.rules[intent];
    var step := Least(1000, Share(rule, r.strategy) - 500);
    && r.status == Recommended && r.reason == CandidateCreated && r.intent == intent
    && r.before == Share(rule, r.strategy) && r.proposed == r.before - step && r.delta == -step
    && r.fallback == rule.fallback && r.fallbackBefore == Share(rule, rule.fallback)
    && r.fallbackProposed == r.fallbackBefore + step
    && r.candidateVersion == "recommend-" + Prefix(r.id) && r.candidateSha == codec.sha(r.candidateJson)
    && exists candidate ::
         && r.candidateJson == codec.policyJson(candidate) && candidate.version == r.candidateVersion
         && ValidPolicy(registry, candidate) && intent in candidate.rules
         && MovesWeight(p, candidate, intent, r.strategy, step) && ElsewhereEqual(p, candidate, intent)
         && InOrder(rule, candidate.rules[intent])
  }

  /** Every strategy keeps its place; a fallback that was not listed comes last. */
  predicate InOrder(rule: Rule, edited: Rule) {
    var s, t := rule.strategies, edited.strategies;
    && |s| <= |t| && (forall k | 0 <= k < |s| :: t[k].name == s[k].name)
    && if Lists(rule, rule.fallback) then |t| == |s| else |t| == |s| + 1 && t[|s|].name == rule.fallback
  }

  function Prefix(id: string): string {
    if |id| < 16 then id else id[..16]
  }

  /** What was decided, when something was. */
  ghost predicate Decides(codec: Codec, registry: Registry, p: Policy, strategy: string, gate: Gate, r: Record) {
    && (!gate.baseline ==> Blocks(r, BaselineNotEligible, "", 0, 0, ""))
    && (gate.baseline && Unlisted(p, strategy) ==> Blocks(r, StrategyNotInPolicy, "", 0, 0, ""))
    && forall intent | gate.baseline && DecidesOn(p, strategy, intent) ::
         var rule := p.rules[intent];
         if rule.fallback == strategy then Blocks(r, NoFallback, intent, 0, 0, rule.fallback)
         else if Share(rule, strategy) <= 500 then
           Blocks(r, ExplorationFloor, intent, Share(rule, strategy), Share(rule, rule.fallback), rule.fallback)
         else Recommends(codec, registry, p, intent, r)
  }

  /** The one case in which an eligible anomaly gets no decision. */
  ghost predicate Overfull(p: Policy, strategy: string) {
    exists intent :: DecidesOn(p, strategy, intent) && Reducible(p.rules[intent], strategy) && !HasRoom(p.rules[intent])
  }

  lemma ListsIsNames(rule: Rule, name: string)
    ensures Lists(rule, name) <==> Names(rule, name)
  {
    if Names(rule, name) {
      assert rule.strategies[LastIndex(rule.strategies, name)].name == name;
    }
  }

  lemma DecidesOnFirst(p: Policy, strategy: string)
    ensures match ActiveIntent(p, strategy)
            case None => Unlisted(p, strategy)
            case Some(first) => forall intent :: DecidesOn(p, strategy, intent) <==> intent == first
    ensures ActiveIntent(p, strategy).Some? ==> !Unlisted(p, strategy)
  {
    forall intent | intent in p.rules ensures Uses(p, intent, strategy) <==> Lists(p.rules[intent], strategy) {
      ListsIsNames(p.rules[intent], strategy);
    }
    var found := ActiveIntent(p, strategy);
    if found.Some? {
      forall intent ensures DecidesOn(p, strategy, intent) <==> intent == found.value {
        if DecidesOn(p, strategy, intent) {
          LessEqAntisymmetric(intent, found.value);
        }
      }
    }
  }

  lemma BlockedIsGrounded(codec: Codec, batch: Batch, series: Series, active: Active, gate: Gate, simulation: bool,
                          source: string, now: Time)
    requires codec.Good() && series.analysis.Some?
    ensures var r := BlockedRecord(codec, batch, series, active, gate, simulation, source, now);
            && Grounded(codec, batch, series, active, gate, simulation, source, now, r)
            && Blocks(r, BaselineNotEligible, "", 0, 0, "") && r.strategy == series.strategy && |r.id| == 64
  {
  }

  lemma AttemptIsGrounded(codec: Codec, batch: Batch, series: Series, active: Active, gate: Gate, simulation: bool,
                          source: string, now: Time, blocked: Record, intent: string, attempt: Attempt,
                          candidate: Policy)
    requires series.analysis.Some? && attempt.Attempt?
    requires Grounded(codec, batch, series, active, gate, simulation, source, now, blocked)
    ensures Grounded(codec, batch, series, active, gate, simulation, source, now,
                     WithAttempt(codec, blocked, intent, attempt, candidate))
  {
  }

  /** The candidate for the first intent, decided in closed form. */
  lemma AttemptDecides(codec: Codec, registry: Registry, blocked: Record, p: Policy, intent: string)
    requires codec.Good() && RegistryOk(registry) && ValidPolicy(registry, p) && Uses(p, intent, blocked.strategy)
    requires |blocked.id| == 64 && Blocks(blocked, BaselineNotEligible, "", 0, 0, "")
    ensures var rule, strategy := p.rules[intent], blocked.strategy;
            var decision := AttemptDecision(codec, registry, blocked, p, intent);
            && (decision.None? <==> Reducible(rule, strategy) && !HasRoom(rule))
            && (decision.Some? && rule.fallback == strategy ==>
                  Blocks(decision.value, NoFallback, intent, 0, 0, rule.fallback))
            && (decision.Some? && rule.fallback != strategy && Share(rule, strategy) <= 500 ==>
                  Blocks(decision.value, ExplorationFloor, intent, Share(rule, strategy), Share(rule, rule.fallback),
                         rule.fallback))
            && (decision.Some? && Reducible(rule, strategy) ==> Recommends(codec, registry, p, intent, decision.value))
  {
    var rule, strategy := p.rules[intent], blocked.strategy;
    ListsIsNames(rule, rule.fallback);
    AnswersExactly(p, registry, intent, strategy, blocked.id);
    if Reducible(rule, strategy) && HasRoom(rule) {
      AttemptRecommends(codec, registry, blocked, p, intent);
    }
  }

  lemma EditKeepsOrder(registry: Registry, p: Policy, intent: string, strategy: string, id: string)
    requires RegistryOk(registry) && ValidPolicy(registry, p) && Uses(p, intent, strategy) && |id| >= 16
    requires p.rules[intent].fallback != strategy
    ensures var rule := p.rules[intent];
            var si, fi := LastIndex(rule.strategies, strategy), LastIndex(rule.strategies, rule.fallback);
            InOrder(rule, EditedPolicy(p, intent, si, fi, id).rules[intent])
  {
    var rule := p.rules[intent];
    ListsIsNames(rule, rule.fallback);
    assert RuleValid(registry, intent, rule);
    IdentifierIsTrimmed(rule.fallback);
  }

  lemma CandidateFacts(registry: Registry, p: Policy, intent: string, strategy: string, id: string)
    returns (attempt: Attempt, candidate: Policy)
    requires RegistryOk(registry) && ValidPolicy(registry, p) && Uses(p, intent, strategy) && |id| == 64
    requires Reducible(p.rules[intent], strategy) && HasRoom(p.rules[intent])
    ensures (attempt, candidate) == AttemptOf(p, registry, intent, strategy, id)
    ensures attempt == Expected(p.rules[intent], strategy) && attempt.Attempt? && attempt.reason == CandidateCreated
    ensures ValidPolicy(registry, candidate) && intent in candidate.rules
    ensures MovesWeight(p, candidate, intent, strategy, attempt.before - attempt.after)
    ensures ElsewhereEqual(p, candidate, intent) && candidate.version == CandidateVersion(id)
    ensures InOrder(p.rules[intent], candidate.rules[intent])
  {
    EditKeepsOrder(registry, p, intent, strategy, id);
    ListsIsNames(p.rules[intent], p.rules[intent].fallback);
    AnswersExactly(p, registry, intent, strategy, id);
    CandidateConserves(p, registry, intent, strategy, id);
    attempt := AttemptOf(p, registry, intent, strategy, id).0;
    candidate := AttemptOf(p, registry, intent, strategy, id).1;
  }

  lemma CandidateRecommends(codec: Codec, registry: Registry, blocked: Record, p: Policy, intent: string,
                            attempt: Attempt, candidate: Policy)
    requires intent in p.rules && intent in candidate.rules && |blocked.id| == 64
    requires attempt == Expected(p.rules[intent], blocked.strategy)
    requires attempt.Attempt? && attempt.reason == CandidateCreated
    requires ValidPolicy(registry, candidate) && ElsewhereEqual(p, candidate, intent)
    requires InOrder(p.rules[intent], candidate.rules[intent])
    requires MovesWeight(p, candidate, intent, blocked.strategy, attempt.before - attempt.after)
    requires candidate.version == CandidateVersion(blocked.id)
    ensures Recommends(codec, registry, p, intent, WithAttempt(codec, blocked, intent, attempt, candidate))
  {
    var r := WithAttempt(codec, blocked, intent, attempt, candidate);
    assert r.candidateJson == codec.policyJson(candidate);
  }

  lemma AttemptRecommends(codec: Codec, registry: Registry, blocked: Record, p: Policy, intent: string)
    requires codec.Good() && RegistryOk(registry) && ValidPolicy(registry, p) && Uses(p, intent, blocked.strategy)
    requires |blocked.id| == 64 && Reducible(p.rules[intent], blocked.strategy) && HasRoom(p.rules[intent])
    ensures var decision := AttemptDecision(codec, registry, blocked, p, intent);
            decision.Some? && Recommends(codec, registry, p, intent, decision.value)
  {
    var attempt, candidate := CandidateFacts(registry, p, intent, blocked.strategy, blocked.id);
    AttemptIsRecorded(codec, registry, blocked, p, intent, attempt, candidate);
    CandidateRecommends(codec, registry, blocked, p, intent, attempt, candidate);
  }

  lemma AttemptIsRecorded(codec: Codec, registry: Registry, blocked: Record, p: Policy, intent: string,
                          attempt: Attempt, candidate: Policy)
    requires intent in p.rules && |blocked.id| >= 16 && attempt.Attempt?
    requires (attempt, candidate) == AttemptOf(p, registry, intent, blocked.strategy, blocked.id)
    ensures AttemptDecision(codec, registry, blocked, p, intent)
         == Some(WithAttempt(codec, blocked, intent, attempt, candidate))
  {
  }

  /** Eligibility, the gate's flags and the first intent decide what is attempted. */
  lemma DecisionUnfolds(codec: Codec, registry: Registry, batch: Batch, series: Series, active: Active, gate: Gate,
                        simulation: bool, source: string, now: Time) returns (blocked: Record)
    requires codec.Good() && MayDecide(series, active, gate)
    ensures Grounded(codec, batch, series, active, gate, simulation, source, now, blocked)
    ensures Blocks(blocked, BaselineNotEligible, "", 0, 0, "") && blocked.strategy == series.strategy
    ensures |blocked.id| == 64
    ensures var found := ActiveIntent(active.document, series.strategy);
            DecisionOf(codec, registry, batch, series, active, gate, simulation, source, now)
            == if !gate.baseline then Some(blocked)
               else if found.None? then Some(blocked.(reason := StrategyNotInPolicy))
               else AttemptDecision(codec, registry, blocked, active.document, found.value)
  {
    blocked := BlockedRecord(codec, batch, series, active, gate, simulation, source, now);
    BlockedIsGrounded(codec, batch, series, active, gate, simulation, source, now);
  }

  lemma NothingToDecide(codec: Codec, registry: Registry, batch: Batch, series: Series, active: Active, gate: Gate,
                        simulation: bool, source: string, now: Time)
    requires codec.Good()
    ensures !MayDecide(series, active, gate) ==>
              DecisionOf(codec, registry, batch, series, active, gate, simulation, source, now) == None
  {
  }

  lemma AttemptedIsGrounded(codec: Codec, registry: Registry, batch: Batch, series: Series, active: Active, gate: Gate,
                            simulation: bool, source: string, now: Time, blocked: Record, intent: string)
    requires series.analysis.Some? && intent in active.document.rules && |blocked.id| >= 16
    requires Grounded(codec, batch, series, active, gate, simulation, source, now, blocked)
    ensures var decision := AttemptDecision(codec, registry, blocked, active.document, intent);
            decision.Some? ==>
              Grounded(codec, batch, series, active, gate, simulation, source, now, decision.value)
  {
    var (attempt, candidate) := AttemptOf(active.document, registry, intent, blocked.strategy, blocked.id);
    if attempt.Attempt? {
      AttemptIsGrounded(codec, batch, series, active, gate, simulation, source, now, blocked, intent, attempt,
                        candidate);
    }
  }

  lemma FirstIntentDecides(codec: Codec, registry: Registry, blocked: Record, p: Policy, gate: Gate, first: string)
    requires codec.Good() && RegistryOk(registry) && ValidPolicy(registry, p) && gate.baseline
    requires ActiveIntent(p, blocked.strategy) == Some(first)
    requires |blocked.id| == 64 && Blocks(blocked, BaselineNotEligible, "", 0, 0, "")
    ensures var decision := AttemptDecision(codec, registry, blocked, p, first);
            && (decision.None? <==> Overfull(p, blocked.strategy))
            && (decision.Some? ==> Decides(codec, registry, p, blocked.strategy, gate, decision.value))
  {
    DecidesOnFirst(p, blocked.strategy);
    AttemptDecides(codec, registry, blocked, p, first);
    assert DecidesOn(p, blocked.strategy, first);
  }

  lemma PlainDecision(codec: Codec, registry: Registry, blocked: Record, p: Policy, gate: Gate)
    requires Blocks(blocked, BaselineNotEligible, "", 0, 0, "")
    requires !gate.baseline || ActiveIntent(p, blocked.strategy).None?
    ensures gate.baseline ==> !Overfull(p, blocked.strategy)
    ensures Decides(codec, registry, p, blocked.strategy, gate,
                    if gate.baseline then blocked.(reason := StrategyNotInPolicy) else blocked)
  {
    DecidesOnFirst(p, blocked.strategy);
  }

  /** Whether there is a decision and which, for every series, gate and clock under a valid policy: none exactly when
      the anomaly may not be decided or its rule is full; otherwise the one the fields of series, gate and policy call
      for, on the grounds they give. */
  lemma DecisionExactly(codec: Codec, registry: Registry, batch: Batch, series: Series, active: Active, gate: Gate,
                        simulation: bool, source: string, now: Time)
    requires codec.Good() && PolicyOk(registry, active)
    ensures var decision := DecisionOf(codec, registry, batch, series, active, gate, simulation, source, now);
            && (decision.None? <==>
                  !MayDecide(series, active, gate) || (gate.baseline && Overfull(active.document, series.strategy)))
            && (decision.Some? ==>
                  && Grounded(codec, batch, series, active, gate, simulation, source, now, decision.value)
                  && Decides(codec, registry, active.document, series.strategy, gate, decision.value))
  {
    NothingToDecide(codec, registry, batch, series, active, gate, simulation, source, now);
    if MayDecide(series, active, gate) {
      var blocked := DecisionUnfolds(codec, registry, batch, series, active, gate, simulation, source, now);
      var found := ActiveIntent(active.document, series.strategy);
      if gate.baseline && found.Some? {
        FirstIntentDecides(codec, registry, blocked, active.document, gate, found.value);
        AttemptedIsGrounded(codec, registry, batch, series, active, gate, simulation, source, now, blocked,
                            found.value);
      } else {
        PlainDecision(codec, registry, blocked, active.document, gate);
      }
    }
  }

  // ----- one cycle -----

  /** An anomaly the cycle looks at. */
  predicate Anomalous(series: Series) {
    && series.dataStatus == "observed" && series.analysis.Some?
    && series.analysis.value.decisionStatus == "anomalous"
  }

  function Anomalies(series: seq<Series>): nat {
    if series == [] then 0
    else Anomalies(series[..|series| - 1]) + if Anomalous(series[|series| - 1]) then 1 else 0
  }

  function Proposals(rows: seq<Record>): nat {
    if rows == [] then 0
    else Proposals(rows[..|rows| - 1]) + if rows[|rows| - 1].status == Recommended then 1 else 0
  }

  /** The counters after some verdicts count the rows they added, by their status. */
  ghost predicate CountsRows(before: seq<Record>, p: Progress) {
    && before <= p.rows
    && p.counters.recommended == Proposals(p.rows[|before|..])
    && p.counters.blocked == |p.rows| - |before| - Proposals(p.rows[|before|..])
  }

  lemma OneMoreRow(before: seq<Record>, rows: seq<Record>, r: Record)
    requires before <= rows
    ensures Proposals((rows + [r])[|before|..])
         == Proposals(rows[|before|..]) + if r.status == Recommended then 1 else 0
  {
    var added := (rows + [r])[|before|..];
    assert added == rows[|before|..] + [r];
    assert added[..|added| - 1] == rows[|before|..];
  }

  lemma TallyCountsRows(codec: Codec, before: seq<Record>, p: Progress, v: Verdict)
    requires CountsRows(before, p)
    ensures CountsRows(before, Tally(codec, p, v))
  {
    if v.Decided? {
      OneMoreRow(before, p.rows, v.record);
    }
  }

  lemma {:induction false} FoldCountsRows(codec: Codec, rows: seq<Record>, verdicts: seq<Verdict>)
    ensures CountsRows(rows, Fold(codec, rows, verdicts))
  {
    if verdicts == [] {
      assert rows[|rows|..] == [];
    } else {
      var n := |verdicts| - 1;
      FoldCountsRows(codec, rows, verdicts[..n]);
      TallyCountsRows(codec, rows, Fold(codec, rows, verdicts[..n]), verdicts[n]);
    }
  }

  lemma {:induction false} FoldExamines(codec: Codec, rows: seq<Record>, verdicts: seq<Verdict>, series: seq<Series>)
    requires |verdicts| == |series|
    requires forall k | 0 <= k < |series| :: verdicts[k].Skipped? <==> !Anomalous(series[k])
    ensures Fold(codec, rows, verdicts).counters.examined == Anomalies(series)
  {
    if verdicts != [] {
      var n := |verdicts| - 1;
      FoldExamines(codec, rows, verdicts[..n], series[..n]);
    }
  }

  lemma AnomaliesAreExamined(codec: Codec, registry: Registry, input: Input, series: Series, now: Time)
    requires codec.Good()
    ensures VerdictOn(codec, registry, input, series, now).Skipped? <==> !Anomalous(series)
  {
  }

  /** The counters of a cycle are what they say: the anomalies among the observed series, and the rows added for them,
      those that propose a policy and those that do not. */
  lemma CountersAreTrue(codec: Codec, registry: Registry, input: Input, clock: nat -> Time, rows: seq<Record>)
    requires codec.Good()
    ensures var p := CycleOf(codec, registry, input, clock, rows);
            CountsRows(rows, p) && p.counters.examined == Anomalies(input.batch.series)
  {
    var verdicts := Verdicts(codec, registry, input, clock);
    var series := input.batch.series;
    FoldCountsRows(codec, rows, verdicts);
    forall k | 0 <= k < |series| ensures verdicts[k].Skipped? <==> !Anomalous(series[k]) {
      AnomaliesAreExamined(codec, registry, input, series[k], clock(k));
      assert verdicts[k] == VerdictOn(codec, registry, input, series[k], clock(k));
    }
    FoldExamines(codec, rows, verdicts, series);
  }

  lemma NewVerdictIsStored(codec: Codec, rows: seq<Record>, v: Verdict)
    requires v.Decided? && ValidRecord(codec, v.record) && !HasId(rows, v.record.id)
    ensures Fold(codec, rows, [v])
         == Progress(rows + [v.record],
                     if v.record.status == Recommended then Counters(1, 1, 0, 0) else Counters(1, 0, 1, 0), 0)
  {
    FoldStep(codec, rows, [v], 0);
    assert [v][..0] == [] && [v][..1] == [v];
  }

  lemma AnomalyIsDecided(codec: Codec, registry: Registry, input: Input, series: Series, now: Time)
    requires codec.Good() && PolicyOk(registry, input.active) && Anomalous(series) && now != 0
    requires MayDecide(series, input.active, input.gate) && Named(input.batch, series, input.active, PRODUCTION_SOURCE)
    requires input.gate.baseline ==> !Overfull(input.active.document, series.strategy)
    ensures var v := VerdictOn(codec, registry, input, series, now);
            && v.Decided? && ValidRecord(codec, v.record)
            && v.record.id == IdOf(codec, IdentityIn(input.batch, series, input.active, input.gate, PRODUCTION_SOURCE))
            && Grounded(codec, input.batch, series, input.active, input.gate, false, PRODUCTION_SOURCE, now, v.record)
            && Decides(codec, registry, input.active.document, series.strategy, input.gate, v.record)
  {
    DecisionExactly(codec, registry, input.batch, series, input.active, input.gate, false, PRODUCTION_SOURCE, now);
    BuilderSatisfiesStore(codec, registry, input.batch, series, input.active, input.gate, false, PRODUCTION_SOURCE,
                          now);
  }

  lemma OneVerdict(codec: Codec, registry: Registry, input: Input, clock: nat -> Time, rows: seq<Record>,
                   series: Series)
    requires codec.Good() && input.batch.series == [series]
    ensures CycleOf(codec, registry, input, clock, rows)
         == Fold(codec, rows, [VerdictOn(codec, registry, input, series, clock(0))])
  {
    assert Verdicts(codec, registry, input, clock) == [VerdictOn(codec, registry, input, series, clock(0))];
  }

  /** A cycle over one new anomaly stores its decision: a proposal exactly when the baseline is eligible and the first
      rule that lists the strategy has weight to take and room to give it. */
  lemma NewAnomalyIsStored(codec: Codec, registry: Registry, input: Input, clock: nat -> Time, rows: seq<Record>,
                           series: Series)
    requires codec.Good() && PolicyOk(registry, input.active) && Anomalous(series) && clock(0) != 0
    requires MayDecide(series, input.active, input.gate) && Named(input.batch, series, input.active, PRODUCTION_SOURCE)
    requires input.gate.baseline ==> !Overfull(input.active.document, series.strategy)
    requires input.batch.series == [series]
    requires !HasId(rows, IdOf(codec, IdentityIn(input.batch, series, input.active, input.gate, PRODUCTION_SOURCE)))
    ensures var p, document := CycleOf(codec, registry, input, clock, rows), input.active.document;
            && |p.rows| == |rows| + 1 && rows <= p.rows && p.failures == 0
            && Decides(codec, registry, document, series.strategy, input.gate, p.rows[|rows|])
            && p.counters == (if p.rows[|rows|].status == Recommended then Counters(1, 1, 0, 0)
                              else Counters(1, 0, 1, 0))
            && (p.rows[|rows|].status == Recommended <==>
                  input.gate.baseline && exists intent ::
                    DecidesOn(document, series.strategy, intent) && Reducible(document.rules[intent], series.strategy))
  {
    var v := VerdictOn(codec, registry, input, series, clock(0));
    AnomalyIsDecided(codec, registry, input, series, clock(0));
    OneVerdict(codec, registry, input, clock, rows, series);
    NewVerdictIsStored(codec, rows, v);
    ProposedWhenReducible(codec, registry, input.active.document, series.strategy, input.gate, v.record);
  }

  lemma ProposedWhenReducible(codec: Codec, registry: Registry, p: Policy, strategy: string, gate: Gate, r: Record)
    requires Decides(codec, registry, p, strategy, gate, r)
    ensures r.status == Recommended <==>
              gate.baseline && exists intent :: DecidesOn(p, strategy, intent) && Reducible(p.rules[intent], strategy)
  {
    DecidesOnFirst(p, strategy);
  }

  // ----- what the store holds -----

  /** A stored decision: a recommendation only, hashed evidence, and either no proposal at all or one that moves up to a
      thousand basis points to a named fallback in a hashed document. */
  predicate SoundRow(codec: Codec, r: Record) {
    && |r.id| == 64 && r.mode == "recommend_only" && !r.applied && r.createdAt != 0
    && Trim(r.metric) != "" && Trim(r.strategy) != "" && Trim(r.incidentKey) != "" && Trim(r.parentVersion) != ""
    && codec.validJson(r.evidenceJson) && r.evidenceSha == codec.sha(r.evidenceJson)
    && (r.status == Blocked ==>
          r.delta == 0 && r.candidateJson == "" && r.candidateSha == "" && r.candidateVersion == "")
    && (r.status == Recommended ==>
          && r.reason == CandidateCreated && r.intent != "" && r.fallback != "" && r.candidateVersion != ""
          && -1000 <= r.delta < 0 && r.proposed == r.before + r.delta
             && r.fallbackProposed == r.fallbackBefore - r.delta
          && codec.validJson(r.candidateJson) && r.candidateSha == codec.sha(r.candidateJson))
  }

  /** Whatever reaches it, the store takes nothing else. */
  lemma UnsoundRowIsRejected(codec: Codec, rows: seq<Record>, r: Record)
    ensures !SoundRow(codec, r) ==> CreateStep(codec, rows, r) == (rows, Rejected)
  {
  }

  ghost predicate AllSound(codec: Codec, rows: seq<Record>) {
    forall r | r in rows :: SoundRow(codec, r)
  }

  lemma {:induction false} FoldKeepsSound(codec: Codec, rows: seq<Record>, verdicts: seq<Verdict>)
    requires AllSound(codec, rows)
    ensures AllSound(codec, Fold(codec, rows, verdicts).rows)
  {
    if verdicts != [] {
      FoldKeepsSound(codec, rows, verdicts[..|verdicts| - 1]);
    }
  }

  /** After any run of cycles, whatever the policies, every row is sound. */
  lemma {:induction false} StoredRowsAreSound(codec: Codec, registry: Registry, cycles: seq<Cycle>)
    requires codec.Good()
    ensures AllSound(codec, RunOf(codec, registry, cycles))
  {
    if cycles != [] {
      var last := cycles[|cycles| - 1];
      StoredRowsAreSound(codec, registry, cycles[..|cycles| - 1]);
      FoldKeepsSound(codec, RunOf(codec, registry, cycles[..|cycles| - 1]),
                     Verdicts(codec, registry, last.input, last.clock));
    }
  }

  /** Altering one weight of a valid rule makes it invalid: the total no longer fits. */
  lemma AlteredWeightIsRefused(registry: Registry, intent: string, rule: Rule, k: nat, weight: int)
    requires RuleValid(registry, intent, rule) && k < |rule.strategies| && weight != rule.strategies[k].weight
    ensures !RuleValid(registry, intent,
                       rule.(strategies := rule.strategies[k := Weighted(rule.strategies[k].name, weight)]))
  {
    SumUpdate(rule.strategies, k, Weighted(rule.strategies[k].name, weight), None);
  }

  /** In a valid rule every share is between one basis point and what the others leave; a rule of one strategy gives it
      everything. */
  lemma SharesOfValidRule(registry: Registry, intent: string, rule: Rule, k: nat)
    requires RuleValid(registry, intent, rule) && k < |rule.strategies|
    ensures 1 <= Share(rule, rule.strategies[k].name) <= 10_001 - |rule.strategies|
    ensures |rule.strategies| == 1 ==> Share(rule, rule.strategies[k].name) == 10_000
  {
    SumOfDistinct(rule.strategies, k);
    forall i | 0 <= i < |rule.strategies| ensures rule.strategies[i].weight >= 1 {
      assert StrategyOk(registry, intent, rule.strategies[i]);
    }
    OthersTakeSome(rule.strategies, k);
  }

  lemma {:induction false} OthersTakeSome(s: seq<Weighted>, k: nat)
    requires k < |s| && forall i | 0 <= i < |s| :: s[i].weight >= 1
    ensures Sum(s, None) >= s[k].weight + |s| - 1
    ensures |s| == 1 ==> Sum(s, None) == s[k].weight
  {
    if k > 0 {
      OthersTakeSome(s[1..], k - 1);
    } else if |s| > 1 {
      OthersTakeSome(s[1..], 0);
    }
  }
}
