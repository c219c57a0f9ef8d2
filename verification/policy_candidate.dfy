/** Routing policies and the bounded candidate the controller derives from one. */
module PolicyCandidate {
  import opened Text
  import opened Options

  datatype Metadata = Metadata(disabled: bool, intents: seq<string>)
  type Registry = map<string, Metadata>

  datatype Weighted = Weighted(name: string, weight: int)
  datatype Rule = Rule(strategies: seq<Weighted>, fallback: string)
  datatype Policy = Policy(schemaVersion: string, version: string, seedSalt: string, rules: map<string, Rule>)

  const SCHEMA_VERSION := "routing-policy-v1"
  const MAXIMUM_STEP := 1000
  const FLOOR := 500

  predicate IdentifierChar(c: char) {
    'a' <= c <= 'z' || '0' <= c <= '9' || c == '_'
  }

  predicate Identifier(s: string) {
    2 <= |s| <= 64 && 'a' <= s[0] <= 'z' && forall i | 0 <= i < |s| :: IdentifierChar(s[i])
  }

  /** Only identifiers can be registered. */
  predicate RegistryOk(registry: Registry) {
    forall name | name in registry :: Identifier(name)
  }

  predicate Eligible(registry: Registry, name: string, intent: string) {
    name in registry && !registry[name].disabled && intent in registry[name].intents
  }

  /** The weight of one name, or of all. */
  function Sum(s: seq<Weighted>, name: Option<string>): int {
    if s == [] then 0
    else Sum(s[1..], name) + if name.None? || s[0].name == name.value then s[0].weight else 0
  }

  predicate StrategyOk(registry: Registry, intent: string, w: Weighted) {
    Eligible(registry, w.name, intent) && 0 < w.weight <= 10_000
  }

  predicate DistinctNames(s: seq<Weighted>) {
    forall i, j | 0 <= i < j < |s| :: s[i].name != s[j].name
  }

  predicate RuleValid(registry: Registry, intent: string, rule: Rule) {
    && Identifier(intent) && 1 <= |rule.strategies| <= 8
    && (forall i | 0 <= i < |rule.strategies| :: StrategyOk(registry, intent, rule.strategies[i]))
    && DistinctNames(rule.strategies)
    && Sum(rule.strategies, None) == 10_000
    && Eligible(registry, rule.fallback, intent)
  }

  predicate HeaderValid(p: Policy) {
    && p.schemaVersion == SCHEMA_VERSION && !Blank(p.version) && |p.version| <= 64 && !Blank(p.seedSalt)
    && |p.seedSalt| <= 64
    && 1 <= |p.rules| <= 8
  }

  /** RoutingPolicyDocument.Validate. */
  predicate ValidPolicy(registry: Registry, p: Policy) {
    HeaderValid(p) && forall intent | intent in p.rules :: RuleValid(registry, intent, p.rules[intent])
  }

  // ----- what the controller computes -----

  datatype Reason = CandidateCreated | NoFallback | StrategyNotInPolicy | ExplorationFloor | BaselineNotEligible
  datatype Attempt =
    | Attempt(reason: Reason, before: int, after: int, fallbackBefore: int, fallbackAfter: int, fallback: string)
    | Invalid

  /** The last position of a name, or -1. */
  function LastIndex(s: seq<Weighted>, name: string): (i: int)
    ensures -1 <= i < |s| && (i >= 0 ==> s[i].name == name)
    ensures i < 0 ==> forall k | 0 <= k < |s| :: s[k].name != name
  {
    if s == [] then -1
    else if s[|s| - 1].name == name then |s| - 1
    else LastIndex(s[..|s| - 1], name)
  }

  function WeightAt(s: seq<Weighted>, i: int): int
    requires i < |s|
  {
    if i < 0 then 0 else s[i].weight
  }

  function StepFrom(before: int): int {
    if before - MAXIMUM_STEP < FLOOR then before - FLOOR else MAXIMUM_STEP
  }

  function Edited(s: seq<Weighted>, si: int, fi: int, fallback: string, step: int): seq<Weighted>
    requires 0 <= si < |s| && -1 <= fi < |s|
  {
    var reduced := s[si := s[si].(weight := s[si].weight - step)];
    if fi >= 0 then reduced[fi := reduced[fi].(weight := reduced[fi].weight + step)]
    else reduced + [Weighted(fallback, step)]
  }

  function CandidateVersion(id: string): string
    requires |id| >= 16
  {
    "recommend-" + id[..16]
  }

  /** The parent under a new version. */
  function Copied(p: Policy, id: string): Policy
    requires |id| >= 16
  {
    p.(version := CandidateVersion(id))
  }

  function EditedRules(p: Policy, intent: string, si: int, fi: int): map<string, Rule>
    requires intent in p.rules
    requires 0 <= si < |p.rules[intent].strategies| && -1 <= fi < |p.rules[intent].strategies|
  {
    var rule := p.rules[intent];
    var strategies := Edited(rule.strategies, si, fi, Trim(rule.fallback), StepFrom(rule.strategies[si].weight));
    p.rules[intent := rule.(strategies := strategies)]
  }

  /** The candidate of a rule whose strategy and fallback stand at these positions. */
  function EditedPolicy(p: Policy, intent: string, si: int, fi: int, id: string): Policy
    requires intent in p.rules && |id| >= 16
    requires 0 <= si < |p.rules[intent].strategies| && -1 <= fi < |p.rules[intent].strategies|
  {
    Copied(p, id).(rules := EditedRules(p, intent, si, fi))
  }

  /** The answer when no candidate is attempted. */
  function Early(s: seq<Weighted>, strategy: string, fallback: string): Option<Attempt> {
    var si, fi := LastIndex(s, strategy), LastIndex(s, fallback);
    var before, held := WeightAt(s, si), WeightAt(s, fi);
    if fallback == "" || fallback == strategy then Some(Attempt(NoFallback, 0, 0, 0, 0, fallback))
    else if si < 0 then Some(Attempt(StrategyNotInPolicy, 0, 0, held, held, fallback))
    else if StepFrom(before) <= 0 then Some(Attempt(ExplorationFloor, before, before, held, held, fallback))
    else None
  }

  /** What buildCandidatePolicy reports, and the candidate it returns. */
  function AttemptOf(p: Policy, registry: Registry, intent: string, strategy: string, id: string): (Attempt, Policy)
    requires intent in p.rules && |id| >= 16
  {
    var s, fallback := p.rules[intent].strategies, Trim(p.rules[intent].fallback);
    match Early(s, strategy, fallback)
    case Some(attempt) => (attempt, Copied(p, id))
    case None =>
      var si, fi := LastIndex(s, strategy), LastIndex(s, fallback);
      var before, held, step := s[si].weight, WeightAt(s, fi), StepFrom(s[si].weight);
      var candidate := EditedPolicy(p, intent, si, fi, id);
      if !ValidPolicy(registry, candidate) then (Invalid, Policy("", "", "", map[]))
      else (Attempt(CandidateCreated, before, before - step, held, held + step, fallback), candidate)
  }

  // ----- policy documents in memory -----

  datatype RuleRef = RuleRef(strategies: array<Weighted>, fallback: string)
  datatype Document = Document(schemaVersion: string, version: string, seedSalt: string, rules: map<string, RuleRef>)

  ghost function Arrays(rules: map<string, RuleRef>): set<array<Weighted>> {
    set intent | intent in rules :: rules[intent].strategies
  }

  function RuleView(rule: RuleRef): Rule
    reads rule.strategies
  {
    Rule(rule.strategies[..], rule.fallback)
  }

  function RulesView(rules: map<string, RuleRef>): map<string, Rule>
    reads Arrays(rules)
  {
    map intent | intent in rules :: RuleView(rules[intent])
  }

  function View(d: Document): Policy
    reads Arrays(d.rules)
  {
    Policy(d.schemaVersion, d.version, d.seedSalt, RulesView(d.rules))
  }

  /** A rule with slices of its own. */
  method CopyRule(rule: RuleRef) returns (copy: RuleRef)
    ensures fresh(copy.strategies) && RuleView(copy) == RuleView(rule)
  {
    var source := rule.strategies;
    var strategies := new Weighted[source.Length](i requires 0 <= i < source.Length reads source => source[i]);
    copy := RuleRef(strategies, rule.fallback);
    assert strategies[..] == rule.strategies[..];
  }

  method CopyRules(rules: map<string, RuleRef>) returns (copy: map<string, RuleRef>)
    ensures copy.Keys == rules.Keys
    ensures forall intent | intent in copy :: fresh(copy[intent].strategies)
    ensures forall intent, other | intent in copy && other in copy && intent != other ::
              copy[intent].strategies != copy[other].strategies
    ensures RulesView(copy) == RulesView(rules)
  {
    copy := map[];
    var todo := rules.Keys;
    while todo != {}
      invariant todo <= rules.Keys && copy.Keys == rules.Keys - todo
      invariant forall intent | intent in copy :: fresh(copy[intent].strategies)
      invariant forall intent, other | intent in copy && other in copy && intent != other ::
                  copy[intent].strategies != copy[other].strategies
      invariant forall intent | intent in copy :: RuleView(copy[intent]) == RuleView(rules[intent])
    {
      var intent :| intent in todo;
      var rule := CopyRule(rules[intent]);
      copy := copy[intent := rule];
      todo := todo - {intent};
    }
  }

  /** The scan for the strategy and its fallback. */
  method Locate(strategies: array<Weighted>, strategy: string, fallback: string)
    returns (before: int, si: int, held: int, fi: int)
    ensures si == LastIndex(strategies[..], strategy) && before == WeightAt(strategies[..], si)
    ensures fi == LastIndex(strategies[..], fallback) && held == WeightAt(strategies[..], fi)
  {
    before, held, si, fi := 0, 0, -1, -1;
    for i := 0 to strategies.Length
      invariant si == LastIndex(strategies[..i], strategy) && before == WeightAt(strategies[..i], si)
      invariant fi == LastIndex(strategies[..i], fallback) && held == WeightAt(strategies[..i], fi)
    {
      assert strategies[..i + 1][..i] == strategies[..i];
      if strategies[i].name == strategy {
        before, si := strategies[i].weight, i;
      }
      if strategies[i].name == fallback {
        held, fi := strategies[i].weight, i;
      }
    }
    assert strategies[..strategies.Length] == strategies[..];
  }

  /** The edit of one copied rule: in place, or on a longer slice when the fallback is new. */
  method MoveWeight(rule: RuleRef, si: int, fi: int, before: int, step: int, fallback: string)
    returns (updated: RuleRef)
    requires 0 <= si < rule.strategies.Length && -1 <= fi < rule.strategies.Length && si != fi
    requires before == rule.strategies[si].weight
    modifies rule.strategies
    ensures updated.strategies == rule.strategies || fresh(updated.strategies)
    ensures RuleView(updated) == Rule(Edited(old(rule.strategies[..]), si, fi, fallback, step), rule.fallback)
  {
    var strategies := rule.strategies;
    strategies[si] := strategies[si].(weight := before - step);
    if fi >= 0 {
      strategies[fi] := strategies[fi].(weight := strategies[fi].weight + step);
      return rule;
    }
    var longer := new Weighted[strategies.Length + 1](i requires 0 <= i <= strategies.Length reads strategies =>
      if i < strategies.Length then strategies[i] else Weighted(fallback, step));
    assert longer[..] == strategies[..] + [Weighted(fallback, step)];
    return RuleRef(longer, rule.fallback);
  }

  /** The guards before the edit: where the strategy and its fallback stand, and the step between them. */
  method Assess(strategies: array<Weighted>, strategy: string, fallback: string)
    returns (early: Option<Attempt>, before: int, si: int, held: int, fi: int, step: int)
    ensures early == Early(strategies[..], strategy, fallback)
    ensures early.None? ==>
              && si == LastIndex(strategies[..], strategy) >= 0 && fi == LastIndex(strategies[..], fallback) && si != fi
              && before == strategies[si].weight && held == WeightAt(strategies[..], fi) && step == StepFrom(before)
  {
    early, before, si, held, fi, step := None, 0, -1, 0, -1, 0;
    if fallback == "" || fallback == strategy {
      early := Some(Attempt(NoFallback, 0, 0, 0, 0, fallback));
      return;
    }
    before, si, held, fi := Locate(strategies, strategy, fallback);
    if si < 0 {
      early := Some(Attempt(StrategyNotInPolicy, 0, 0, held, held, fallback));
      return;
    }
    step := MAXIMUM_STEP;
    if before - step < FLOOR {
      step := before - FLOOR;
    }
    if step <= 0 {
      early := Some(Attempt(ExplorationFloor, before, before, held, held, fallback));
    }
  }

  method CopyDocument(document: Document, id: string) returns (copy: Document)
    requires |id| >= 16
    ensures View(copy) == Copied(old(View(document)), id)
    ensures copy.rules.Keys == document.rules.Keys
    ensures forall i | i in copy.rules :: fresh(copy.rules[i].strategies)
    ensures forall i, other | i in copy.rules && other in copy.rules && i != other ::
              copy.rules[i].strategies != copy.rules[other].strategies
  {
    var rules := CopyRules(document.rules);
    copy := Document(document.schemaVersion, CandidateVersion(id), document.seedSalt, rules);
  }

  /** buildCandidatePolicy: the parent's rules and slices are left as they were; the candidate has its own. */
  method BuildCandidatePolicy(document: Document, registry: Registry, intent: string, strategy: string, id: string)
    returns (attempt: Attempt, candidate: Document)
    requires intent in document.rules && |id| >= 16
    ensures forall i | i in document.rules :: document.rules[i].strategies[..] == old(document.rules[i].strategies[..])
    ensures forall i | i in candidate.rules :: fresh(candidate.rules[i].strategies)
    ensures (attempt, View(candidate)) == AttemptOf(old(View(document)), registry, intent, strategy, id)
  {
    ghost var parent := View(document);
    var rule := document.rules[intent];
    assert parent.rules[intent] == RuleView(rule);
    var fallback := Trim(rule.fallback);
    var early, before, si, held, fi, step := Assess(rule.strategies, strategy, fallback);
    candidate := CopyDocument(document, id);
    ghost var copied := View(candidate);
    assert copied == Copied(parent, id);
    EarlyAttempt(parent, registry, intent, strategy, id);
    if early.Some? {
      return early.value, candidate;
    }
    attempt, candidate := EditAndValidate(registry, candidate, parent, intent, strategy, id, before, si, held, fi,
                                          step, fallback);
  }

  /** The edit of the copied document and the validation that ends buildCandidatePolicy. */
  method EditAndValidate(registry: Registry, copy: Document, ghost parent: Policy, intent: string, strategy: string,
                         ghost id: string, before: int, si: int, held: int, fi: int, step: int, fallback: string)
    returns (attempt: Attempt, candidate: Document)
    requires intent in parent.rules && |id| >= 16 && View(copy) == Copied(parent, id)
             && fallback == Trim(parent.rules[intent].fallback)
    requires forall i, other | i in copy.rules && other in copy.rules && i != other ::
               copy.rules[i].strategies != copy.rules[other].strategies
    requires var s := parent.rules[intent].strategies;
             && Early(s, strategy, fallback).None? && si == LastIndex(s, strategy) >= 0 && fi == LastIndex(s, fallback)
             && si != fi
             && before == s[si].weight && held == WeightAt(s, fi) && step == StepFrom(before)
    modifies copy.rules[intent].strategies
    ensures forall i | i in candidate.rules ::
              && i in copy.rules
              && (candidate.rules[i].strategies == copy.rules[i].strategies || fresh(candidate.rules[i].strategies))
    ensures (attempt, View(candidate)) == AttemptOf(parent, registry, intent, strategy, id)
  {
    assert RuleView(copy.rules[intent]) == parent.rules[intent];
    candidate := Edit(copy, parent, intent, si, fi, before, step, fallback);
    LateAnswer(parent, registry, intent, strategy, id, before, si, held, fi, step, fallback);
    if !ValidPolicy(registry, View(candidate)) {
      EmptyView();
      return Invalid, Document("", "", "", map[]);
    }
    attempt := Attempt(CandidateCreated, before, before - step, held, held + step, fallback);
  }

  lemma LateAnswer(p: Policy, registry: Registry, intent: string, strategy: string, id: string,
                   before: int, si: int, held: int, fi: int, step: int, fallback: string)
    requires intent in p.rules && |id| >= 16 && fallback == Trim(p.rules[intent].fallback)
    requires var s := p.rules[intent].strategies;
             && Early(s, strategy, fallback).None? && si == LastIndex(s, strategy) >= 0 && fi == LastIndex(s, fallback)
             && before == s[si].weight && held == WeightAt(s, fi) && step == StepFrom(before)
    ensures AttemptOf(p, registry, intent, strategy, id)
            == if ValidPolicy(registry, EditedPolicy(p, intent, si, fi, id)) then
                 (Attempt(CandidateCreated, before, before - step, held, held + step, fallback),
                  EditedPolicy(p, intent, si, fi, id))
               else (Invalid, Policy("", "", "", map[]))
  {
    LateAttempt(p, registry, intent, strategy, id);
  }

  lemma EmptyView()
    ensures View(Document("", "", "", map[])) == Policy("", "", "", map[])
  {
    assert RulesView(map[]) == map[];
  }

  lemma EarlyAttempt(p: Policy, registry: Registry, intent: string, strategy: string, id: string)
    requires intent in p.rules && |id| >= 16
    ensures var early := Early(p.rules[intent].strategies, strategy, Trim(p.rules[intent].fallback));
            early.Some? ==> AttemptOf(p, registry, intent, strategy, id) == (early.value, Copied(p, id))
  {
  }

  lemma LateAttempt(p: Policy, registry: Registry, intent: string, strategy: string, id: string)
    requires intent in p.rules && |id| >= 16
    requires Early(p.rules[intent].strategies, strategy, Trim(p.rules[intent].fallback)).None?
    ensures var s, fallback := p.rules[intent].strategies, Trim(p.rules[intent].fallback);
            var si, fi := LastIndex(s, strategy), LastIndex(s, fallback);
            var candidate, step := EditedPolicy(p, intent, si, fi, id), StepFrom(s[si].weight);
            var (attempt, result) := AttemptOf(p, registry, intent, strategy, id);
            if ValidPolicy(registry, candidate) then
              && result == candidate
              && attempt == Attempt(CandidateCreated, s[si].weight, s[si].weight - step, WeightAt(s, fi),
                                    WeightAt(s, fi) + step, fallback)
            else attempt == Invalid && result == Policy("", "", "", map[])
  {
  }

  /** The edit of the copied document. */
  method Edit(copy: Document, ghost parent: Policy, intent: string, si: int, fi: int, before: int, step: int,
              fallback: string)
    returns (candidate: Document)
    requires intent in copy.rules
    requires forall i, other | i in copy.rules && other in copy.rules && i != other ::
               copy.rules[i].strategies != copy.rules[other].strategies
    requires RulesView(copy.rules) == parent.rules && copy.schemaVersion == parent.schemaVersion
             && copy.seedSalt == parent.seedSalt
    requires 0 <= si < copy.rules[intent].strategies.Length && -1 <= fi < copy.rules[intent].strategies.Length
             && si != fi
    requires before == copy.rules[intent].strategies[si].weight && step == StepFrom(before)
             && fallback == Trim(copy.rules[intent].fallback)
    modifies copy.rules[intent].strategies
    ensures candidate.rules.Keys == copy.rules.Keys
    ensures forall i | i in candidate.rules ::
              candidate.rules[i].strategies == copy.rules[i].strategies || fresh(candidate.rules[i].strategies)
    ensures candidate.version == copy.version && candidate.schemaVersion == parent.schemaVersion
            && candidate.seedSalt == parent.seedSalt
    ensures RulesView(candidate.rules) == EditedRules(parent, intent, si, fi)
  {
    assert RuleView(copy.rules[intent]) == parent.rules[intent];
    var updated := MoveWeight(copy.rules[intent], si, fi, before, step, fallback);
    candidate := copy.(rules := copy.rules[intent := updated]);
    forall i | i in copy.rules && i != intent ensures RuleView(copy.rules[i]) == parent.rules[i] {
      assert parent.rules[i] == old(RulesView(copy.rules))[i];
    }
    EditedView(copy.rules, parent, intent, updated, si, fi);
  }

  lemma EditedView(rules: map<string, RuleRef>, parent: Policy, intent: string, updated: RuleRef, si: int, fi: int)
    requires intent in parent.rules && rules.Keys == parent.rules.Keys
    requires 0 <= si < |parent.rules[intent].strategies| && -1 <= fi < |parent.rules[intent].strategies|
    requires forall i | i in rules && i != intent :: RuleView(rules[i]) == parent.rules[i]
    requires RuleView(updated) == EditedRules(parent, intent, si, fi)[intent]
    ensures RulesView(rules[intent := updated]) == EditedRules(parent, intent, si, fi)
  {
  }

  // ----- weight is conserved and bounded -----

  lemma {:induction false} SumUpdate(s: seq<Weighted>, i: nat, w: Weighted, name: Option<string>)
    requires i < |s| && w.name == s[i].name
    ensures Sum(s[i := w], name) == Sum(s, name) + if name.None? || w.name == name.value then w.weight - s[i].weight
                                                   else 0
  {
    if i > 0 {
      SumUpdate(s[1..], i - 1, w, name);
      assert s[i := w][1..] == s[1..][i - 1 := w];
    } else {
      assert s[i := w][1..] == s[1..];
    }
  }

  lemma {:induction false} SumAppend(s: seq<Weighted>, w: Weighted, name: Option<string>)
    ensures Sum(s + [w], name) == Sum(s, name) + if name.None? || w.name == name.value then w.weight else 0
  {
    if s != [] {
      SumAppend(s[1..], w, name);
      assert (s + [w])[1..] == s[1..] + [w];
    }
  }

  lemma {:induction false} SumOfAbsent(s: seq<Weighted>, name: string)
    requires forall k | 0 <= k < |s| :: s[k].name != name
    ensures Sum(s, Some(name)) == 0
  {
    if s != [] {
      SumOfAbsent(s[1..], name);
    }
  }

  lemma {:induction false} SumOfDistinct(s: seq<Weighted>, i: nat)
    requires DistinctNames(s) && i < |s|
    ensures Sum(s, Some(s[i].name)) == s[i].weight
  {
    if i == 0 {
      SumOfAbsent(s[1..], s[0].name);
    } else {
      SumOfDistinct(s[1..], i - 1);
    }
  }

  lemma {:induction false} PositiveSum(s: seq<Weighted>, i: nat)
    requires i < |s| && forall k | 0 <= k < |s| :: s[k].weight > 0
    ensures 0 < s[i].weight <= Sum(s, None)
  {
    if i == 0 {
      NonNegativeSum(s[1..]);
    } else {
      PositiveSum(s[1..], i - 1);
    }
  }

  lemma {:induction false} NonNegativeSum(s: seq<Weighted>)
    requires forall k | 0 <= k < |s| :: s[k].weight > 0
    ensures Sum(s, None) >= 0
  {
    if s != [] {
      NonNegativeSum(s[1..]);
    }
  }

  /** Editing moves `step` from the strategy to the fallback and touches no other name. */
  lemma EditedSums(s: seq<Weighted>, strategy: string, fallback: string, step: int, name: Option<string>)
    requires strategy != fallback && LastIndex(s, strategy) >= 0
    ensures Sum(Edited(s, LastIndex(s, strategy), LastIndex(s, fallback), fallback, step), name)
            == Sum(s, name) + (if name == Some(strategy) then -step else if name == Some(fallback) then step else 0)
  {
    var si, fi := LastIndex(s, strategy), LastIndex(s, fallback);
    var w := s[si].(weight := s[si].weight - step);
    var reduced := s[si := w];
    SumUpdate(s, si, w, name);
    if fi >= 0 {
      SumUpdate(reduced, fi, reduced[fi].(weight := reduced[fi].weight + step), name);
    } else {
      SumAppend(reduced, Weighted(fallback, step), name);
    }
  }

  lemma IdentifierIsTrimmed(s: string)
    requires Identifier(s)
    ensures Trim(s) == s && !Blank(s)
  {
    assert IdentifierChar(s[0]) && IdentifierChar(s[|s| - 1]);
    TrimIsTrimmed(s);
  }

  /** The edited strategies are still a valid rule, except that there may now be nine of them. */
  lemma EditedRuleValid(registry: Registry, intent: string, rule: Rule, strategy: string)
    requires RuleValid(registry, intent, rule) && rule.fallback != strategy
    requires LastIndex(rule.strategies, strategy) >= 0
    requires rule.strategies[LastIndex(rule.strategies, strategy)].weight > FLOOR
    ensures var si, fi := LastIndex(rule.strategies, strategy), LastIndex(rule.strategies, rule.fallback);
            var edited := Edited(rule.strategies, si, fi, rule.fallback, StepFrom(rule.strategies[si].weight));
            && (RuleValid(registry, intent, rule.(strategies := edited)) <==> fi >= 0 || |rule.strategies| < 8)
            && |edited| == (if fi >= 0 then |rule.strategies| else |rule.strategies| + 1)
            && DistinctNames(edited) && LastIndex(edited, strategy) >= 0 && LastIndex(edited, rule.fallback) >= 0
  {
    var s := rule.strategies;
    var si, fi := LastIndex(s, strategy), LastIndex(s, rule.fallback);
    var step := StepFrom(s[si].weight);
    var edited := Edited(s, si, fi, rule.fallback, step);
    EditedSums(s, strategy, rule.fallback, step, None);
    assert edited[si].name == strategy;
    assert edited[if fi >= 0 then fi else |s|].name == rule.fallback;
    EditedStrategiesOk(registry, intent, rule, strategy);
  }

  lemma EditedStrategiesOk(registry: Registry, intent: string, rule: Rule, strategy: string)
    requires RuleValid(registry, intent, rule) && rule.fallback != strategy
    requires LastIndex(rule.strategies, strategy) >= 0
    requires rule.strategies[LastIndex(rule.strategies, strategy)].weight > FLOOR
    ensures var si, fi := LastIndex(rule.strategies, strategy), LastIndex(rule.strategies, rule.fallback);
            var edited := Edited(rule.strategies, si, fi, rule.fallback, StepFrom(rule.strategies[si].weight));
            DistinctNames(edited) && forall k | 0 <= k < |edited| :: StrategyOk(registry, intent, edited[k])
  {
    var s := rule.strategies;
    var si, fi := LastIndex(s, strategy), LastIndex(s, rule.fallback);
    var step := StepFrom(s[si].weight);
    var edited := Edited(s, si, fi, rule.fallback, step);
    EditedSums(s, strategy, rule.fallback, step, None);
    forall k | 0 <= k < |edited| ensures edited[k].weight > 0 && Eligible(registry, edited[k].name, intent) {
      EditedEntry(registry, intent, s, si, fi, rule.fallback, step, k);
    }
    forall k | 0 <= k < |edited| ensures StrategyOk(registry, intent, edited[k]) {
      PositiveSum(edited, k);
    }
  }

  lemma EditedEntry(registry: Registry, intent: string, s: seq<Weighted>, si: int, fi: int, fallback: string,
                    step: int, k: nat)
    requires 0 <= si < |s| && -1 <= fi < |s| && fi != si && k < |Edited(s, si, fi, fallback, step)|
    requires forall i | 0 <= i < |s| :: StrategyOk(registry, intent, s[i])
    requires Eligible(registry, fallback, intent) && 0 < step < s[si].weight
    ensures var w := Edited(s, si, fi, fallback, step)[k];
            w.weight > 0 && Eligible(registry, w.name, intent) && (k < |s| ==> w.name == s[k].name)
  {
    if k < |s| {
      assert StrategyOk(registry, intent, s[k]);
    }
  }

  lemma LiteralVersion(id: string)
    requires |id| >= 16
    ensures !Blank(CandidateVersion(id)) && |CandidateVersion(id)| <= 64
  {
    assert CandidateVersion(id)[0] == 'r';
    NotBlank(CandidateVersion(id));
  }

  lemma EditedPolicyValid(registry: Registry, p: Policy, intent: string, si: int, fi: int, id: string)
    requires ValidPolicy(registry, p) && intent in p.rules && |id| >= 16
    requires 0 <= si < |p.rules[intent].strategies| && -1 <= fi < |p.rules[intent].strategies|
    ensures var candidate := EditedPolicy(p, intent, si, fi, id);
            ValidPolicy(registry, candidate) <==> RuleValid(registry, intent, candidate.rules[intent])
  {
    LiteralVersion(id);
    var candidate := EditedPolicy(p, intent, si, fi, id);
    assert candidate.rules.Keys == p.rules.Keys;
    assert |candidate.rules| == |candidate.rules.Keys| && |p.rules| == |p.rules.Keys|;
  }

  ghost function WeightOf(p: Policy, intent: string, name: string): int
    requires intent in p.rules
  {
    Sum(p.rules[intent].strategies, Some(name))
  }

  predicate Names(rule: Rule, name: string) {
    LastIndex(rule.strategies, name) >= 0
  }

  /** The answer in closed form, for a strategy of a valid rule. */
  function Expected(rule: Rule, strategy: string): Attempt {
    var weight, held := Sum(rule.strategies, Some(strategy)), Sum(rule.strategies, Some(rule.fallback));
    if rule.fallback == strategy then Attempt(NoFallback, 0, 0, 0, 0, rule.fallback)
    else if weight <= FLOOR then Attempt(ExplorationFloor, weight, weight, held, held, rule.fallback)
    else if !Names(rule, rule.fallback) && |rule.strategies| == 8 then Invalid
    else Attempt(CandidateCreated, weight, weight - StepFrom(weight), held, held + StepFrom(weight), rule.fallback)
  }

  /** Exactly when each answer is given: in particular a candidate is created if and only if the strategy is not
      its own fallback, is above the floor, and the fallback is listed already or there is room to list it. */
  lemma AnswersExactly(p: Policy, registry: Registry, intent: string, strategy: string, id: string)
    requires RegistryOk(registry) && ValidPolicy(registry, p) && intent in p.rules && |id| >= 16
    requires Names(p.rules[intent], strategy)
    ensures AttemptOf(p, registry, intent, strategy, id).0 == Expected(p.rules[intent], strategy)
    ensures var expected := Expected(p.rules[intent], strategy);
            var s := p.rules[intent].strategies;
            expected.Attempt? && expected.reason == CandidateCreated ==>
              AttemptOf(p, registry, intent, strategy, id).1
              == EditedPolicy(p, intent, LastIndex(s, strategy), LastIndex(s, p.rules[intent].fallback), id)
  {
    var rule := p.rules[intent];
    IdentifierIsTrimmed(rule.fallback);
    EarlyExactly(rule, strategy);
    if rule.fallback != strategy && Sum(rule.strategies, Some(strategy)) > FLOOR {
      AttemptedExactly(p, registry, intent, strategy, id);
    }
  }

  lemma AttemptedExactly(p: Policy, registry: Registry, intent: string, strategy: string, id: string)
    requires RegistryOk(registry) && ValidPolicy(registry, p) && intent in p.rules && |id| >= 16
    requires var rule := p.rules[intent];
             && Names(rule, strategy) && rule.fallback != strategy && Trim(rule.fallback) == rule.fallback
             && Sum(rule.strategies, Some(strategy)) > FLOOR && Early(rule.strategies, strategy, rule.fallback).None?
    ensures var rule := p.rules[intent];
            var (attempt, candidate) := AttemptOf(p, registry, intent, strategy, id);
            && attempt == Expected(rule, strategy)
            && (attempt.Attempt? ==>
                  candidate == EditedPolicy(p, intent, LastIndex(rule.strategies, strategy),
                                            LastIndex(rule.strategies, rule.fallback), id))
  {
    PositionsHoldWeights(p.rules[intent], strategy);
    CreatedIffRoom(p, registry, intent, strategy, id);
    LateAttempt(p, registry, intent, strategy, id);
  }

  lemma EarlyExactly(rule: Rule, strategy: string)
    requires DistinctNames(rule.strategies) && Names(rule, strategy) && rule.fallback != ""
    ensures Early(rule.strategies, strategy, rule.fallback)
            == if rule.fallback == strategy || Sum(rule.strategies, Some(strategy)) <= FLOOR
               then Some(Expected(rule, strategy)) else None
  {
    PositionsHoldWeights(rule, strategy);
  }

  lemma PositionsHoldWeights(rule: Rule, strategy: string)
    requires DistinctNames(rule.strategies) && Names(rule, strategy)
    ensures var s := rule.strategies;
            && WeightAt(s, LastIndex(s, strategy)) == Sum(s, Some(strategy))
            && WeightAt(s, LastIndex(s, rule.fallback)) == Sum(s, Some(rule.fallback))
  {
    var si, fi := LastIndex(rule.strategies, strategy), LastIndex(rule.strategies, rule.fallback);
    SumOfDistinct(rule.strategies, si);
    if fi >= 0 {
      SumOfDistinct(rule.strategies, fi);
    } else {
      SumOfAbsent(rule.strategies, rule.fallback);
    }
  }

  lemma CreatedIffRoom(p: Policy, registry: Registry, intent: string, strategy: string, id: string)
    requires RegistryOk(registry) && ValidPolicy(registry, p) && intent in p.rules && |id| >= 16
    requires Names(p.rules[intent], strategy) && p.rules[intent].fallback != strategy
    requires WeightAt(p.rules[intent].strategies, LastIndex(p.rules[intent].strategies, strategy)) > FLOOR
    ensures var rule := p.rules[intent];
            var si, fi := LastIndex(rule.strategies, strategy), LastIndex(rule.strategies, rule.fallback);
            ValidPolicy(registry, EditedPolicy(p, intent, si, fi, id)) <==>
              Names(rule, rule.fallback) || |rule.strategies| < 8
  {
    var rule := p.rules[intent];
    IdentifierIsTrimmed(rule.fallback);
    EditedRuleValid(registry, intent, rule, strategy);
    EditedPolicyValid(registry, p, intent, LastIndex(rule.strategies, strategy),
                      LastIndex(rule.strategies, rule.fallback), id);
  }

  /** 1..1000 basis points moved from the strategy to the fallback, and nothing else changed. */
  ghost predicate MovesWeight(p: Policy, candidate: Policy, intent: string, strategy: string, moved: int)
    requires intent in p.rules && intent in candidate.rules
  {
    var fallback := p.rules[intent].fallback;
    && 1 <= moved <= MAXIMUM_STEP
    && WeightOf(candidate, intent, strategy) == WeightOf(p, intent, strategy) - moved >= FLOOR
    && WeightOf(candidate, intent, fallback) == WeightOf(p, intent, fallback) + moved
    && (forall name | name != strategy && name != fallback ::
          WeightOf(candidate, intent, name) == WeightOf(p, intent, name))
    && Sum(candidate.rules[intent].strategies, None) == Sum(p.rules[intent].strategies, None)
  }

  ghost predicate ElsewhereEqual(p: Policy, candidate: Policy, intent: string)
    requires intent in p.rules && intent in candidate.rules
  {
    && candidate.schemaVersion == p.schemaVersion && candidate.seedSalt == p.seedSalt
    && candidate.rules.Keys == p.rules.Keys && candidate.rules[intent].fallback == p.rules[intent].fallback
    && forall other | other in p.rules && other != intent :: candidate.rules[other] == p.rules[other]
  }

  predicate Creates(p: Policy, registry: Registry, intent: string, strategy: string, id: string)
    requires intent in p.rules && |id| >= 16
  {
    var attempt := AttemptOf(p, registry, intent, strategy, id).0;
    attempt.Attempt? && attempt.reason == CandidateCreated
  }

  /** A created candidate moves a bounded weight, leaves the strategy at least 500, conserves the total, changes
      nothing else, reports exactly what it moved, and is itself a valid policy. */
  lemma CandidateConserves(p: Policy, registry: Registry, intent: string, strategy: string, id: string)
    requires RegistryOk(registry) && ValidPolicy(registry, p) && intent in p.rules && |id| >= 16
    requires Names(p.rules[intent], strategy) && Creates(p, registry, intent, strategy, id)
    ensures var (attempt, candidate) := AttemptOf(p, registry, intent, strategy, id);
            var fallback := p.rules[intent].fallback;
            && ValidPolicy(registry, candidate) && intent in candidate.rules
            && MovesWeight(p, candidate, intent, strategy, attempt.before - attempt.after)
            && ElsewhereEqual(p, candidate, intent)
            && attempt.before == WeightOf(p, intent, strategy)
            && attempt.fallbackBefore == WeightOf(p, intent, fallback)
            && attempt.fallbackAfter == WeightOf(candidate, intent, fallback) && attempt.fallback == fallback
            && Names(candidate.rules[intent], strategy) && Names(candidate.rules[intent], fallback)
  {
    AnswersExactly(p, registry, intent, strategy, id);
    EditedWeights(p, registry, intent, strategy, id);
  }

  lemma EditedWeights(p: Policy, registry: Registry, intent: string, strategy: string, id: string)
    requires RegistryOk(registry) && ValidPolicy(registry, p) && intent in p.rules && |id| >= 16
    requires Names(p.rules[intent], strategy) && p.rules[intent].fallback != strategy
             && WeightOf(p, intent, strategy) > FLOOR
    ensures var rule := p.rules[intent];
            var si, fi := LastIndex(rule.strategies, strategy), LastIndex(rule.strategies, rule.fallback);
            var candidate := EditedPolicy(p, intent, si, fi, id);
            var step := StepFrom(WeightOf(p, intent, strategy));
            && Sum(candidate.rules[intent].strategies, None) == Sum(rule.strategies, None)
            && WeightOf(candidate, intent, strategy) == WeightOf(p, intent, strategy) - step
            && WeightOf(candidate, intent, rule.fallback) == WeightOf(p, intent, rule.fallback) + step
            && (forall name | name != strategy && name != rule.fallback ::
                  WeightOf(candidate, intent, name) == WeightOf(p, intent, name))
            && Names(candidate.rules[intent], strategy) && Names(candidate.rules[intent], rule.fallback)
  {
    var rule := p.rules[intent];
    IdentifierIsTrimmed(rule.fallback);
    PositionsHoldWeights(rule, strategy);
    EditedRuleValid(registry, intent, rule, strategy);
    var si, fi := LastIndex(rule.strategies, strategy), LastIndex(rule.strategies, rule.fallback);
    var candidate, step := EditedPolicy(p, intent, si, fi, id), StepFrom(rule.strategies[si].weight);
    EditedSums(rule.strategies, strategy, rule.fallback, step, None);
    forall name ensures WeightOf(candidate, intent, name)
                     == WeightOf(p, intent, name) + (if name == strategy then -step
                                                     else if name == rule.fallback then step else 0) {
      EditedSums(rule.strategies, strategy, rule.fallback, step, Some(name));
    }
  }

  // ----- repeated candidates -----

  /** Each candidate accepted in its turn becomes the next parent. */
  function Iterated(p: Policy, registry: Registry, intent: string, strategy: string, ids: seq<string>): Policy
    requires forall i | 0 <= i < |ids| :: |ids[i]| >= 16
  {
    if ids == [] then p
    else
      var before := Iterated(p, registry, intent, strategy, ids[..|ids| - 1]);
      if intent !in before.rules then before
      else
        var id := ids[|ids| - 1];
        if Creates(before, registry, intent, strategy, id) then AttemptOf(before, registry, intent, strategy, id).1
        else before
  }

  function Max(a: int, b: int): int {
    if a > b then a else b
  }

  /** How many candidates lead from a weight to the floor: the excess over the floor, in steps, rounded up. */
  function StepsToFloor(weight: int): int {
    (weight - FLOOR + MAXIMUM_STEP - 1) / MAXIMUM_STEP
  }

  /** What holds after n repetitions. */
  ghost predicate Reduced(start: Policy, p: Policy, registry: Registry, intent: string, strategy: string, n: nat)
    requires intent in start.rules
  {
    var fallback := start.rules[intent].fallback;
    && ValidPolicy(registry, p) && intent in p.rules && p.rules[intent].fallback == fallback
    && Names(p.rules[intent], strategy)
    && (Names(p.rules[intent], fallback) || |p.rules[intent].strategies| < 8)
    && WeightOf(p, intent, strategy) == Max(FLOOR, WeightOf(start, intent, strategy) - MAXIMUM_STEP * n)
    && WeightOf(p, intent, fallback)
       == WeightOf(start, intent, fallback) + WeightOf(start, intent, strategy) - WeightOf(p, intent, strategy)
  }

  lemma StepArithmetic(weight: int, n: nat)
    requires weight > FLOOR
    ensures var now := Max(FLOOR, weight - MAXIMUM_STEP * n);
            && (n < StepsToFloor(weight) <==> now > FLOOR)
            && Max(FLOOR, weight - MAXIMUM_STEP * (n + 1)) == if now > FLOOR then now - StepFrom(now) else now
  {
  }

  lemma CreatesExactly(start: Policy, p: Policy, registry: Registry, intent: string, strategy: string, n: nat,
                       id: string)
    requires RegistryOk(registry) && intent in start.rules && start.rules[intent].fallback != strategy && |id| >= 16
    requires WeightOf(start, intent, strategy) > FLOOR && Reduced(start, p, registry, intent, strategy, n)
    ensures var attempt := AttemptOf(p, registry, intent, strategy, id).0;
            var created := Creates(p, registry, intent, strategy, id);
            && created == (n < StepsToFloor(WeightOf(start, intent, strategy)))
            && (!created ==> attempt.Attempt? && attempt.reason == ExplorationFloor)
            && (created ==> attempt.before - attempt.after == StepFrom(WeightOf(p, intent, strategy)))
  {
    AnswersExactly(p, registry, intent, strategy, id);
    StepArithmetic(WeightOf(start, intent, strategy), n);
  }

  lemma StepReduces(start: Policy, p: Policy, registry: Registry, intent: string, strategy: string, n: nat, id: string)
    requires RegistryOk(registry) && intent in start.rules && start.rules[intent].fallback != strategy && |id| >= 16
    requires WeightOf(start, intent, strategy) > FLOOR && Reduced(start, p, registry, intent, strategy, n)
    ensures var created := Creates(p, registry, intent, strategy, id);
            var next := if created then AttemptOf(p, registry, intent, strategy, id).1 else p;
            Reduced(start, next, registry, intent, strategy, n + 1)
  {
    CreatesExactly(start, p, registry, intent, strategy, n, id);
    StepArithmetic(WeightOf(start, intent, strategy), n);
    if Creates(p, registry, intent, strategy, id) {
      CandidateConserves(p, registry, intent, strategy, id);
      MovedReduces(start, p, AttemptOf(p, registry, intent, strategy, id).1, registry, intent, strategy, n);
    }
  }

  lemma MovedReduces(start: Policy, p: Policy, candidate: Policy, registry: Registry, intent: string, strategy: string,
                     n: nat)
    requires intent in start.rules && Reduced(start, p, registry, intent, strategy, n)
    requires ValidPolicy(registry, candidate) && intent in candidate.rules && ElsewhereEqual(p, candidate, intent)
    requires MovesWeight(p, candidate, intent, strategy, StepFrom(WeightOf(p, intent, strategy)))
    requires Names(candidate.rules[intent], strategy) && Names(candidate.rules[intent], p.rules[intent].fallback)
    requires WeightOf(start, intent, strategy) > FLOOR && WeightOf(p, intent, strategy) > FLOOR
    ensures Reduced(start, candidate, registry, intent, strategy, n + 1)
  {
    StepArithmetic(WeightOf(start, intent, strategy), n);
  }

  /** From a weight w above the floor, repeated candidates are created exactly ceil((w - 500) / 1000) times; the
      strategy ends at 500 with the rest gained by the fallback; from then on the floor is reported. */
  lemma {:induction false} RepeatedCandidatesTerminate(p: Policy, registry: Registry, intent: string, strategy: string,
                                                       ids: seq<string>, next: string)
    requires RegistryOk(registry) && ValidPolicy(registry, p) && intent in p.rules && |next| >= 16
    requires forall i | 0 <= i < |ids| :: |ids[i]| >= 16
    requires Names(p.rules[intent], strategy) && p.rules[intent].fallback != strategy
    requires Names(p.rules[intent], p.rules[intent].fallback) || |p.rules[intent].strategies| < 8
    requires WeightOf(p, intent, strategy) > FLOOR
    ensures var reached := Iterated(p, registry, intent, strategy, ids);
            && Reduced(p, reached, registry, intent, strategy, |ids|)
            && (Creates(reached, registry, intent, strategy, next) <==>
                |ids| < StepsToFloor(WeightOf(p, intent, strategy)))
            && (!Creates(reached, registry, intent, strategy, next) ==>
                  var attempt := AttemptOf(reached, registry, intent, strategy, next).0;
                  attempt.Attempt? && attempt.reason == ExplorationFloor)
    decreases |ids|
  {
    if ids != [] {
      var last := |ids| - 1;
      RepeatedCandidatesTerminate(p, registry, intent, strategy, ids[..last], ids[last]);
      var before := Iterated(p, registry, intent, strategy, ids[..last]);
      StepReduces(p, before, registry, intent, strategy, last, ids[last]);
    }
    CreatesExactly(p, Iterated(p, registry, intent, strategy, ids), registry, intent, strategy, |ids|, next);
  }

  // ----- a rule with no room for its fallback -----

  function FullName(i: nat): string
    requires i < 8
  {
    ['s', 'a' + i as char]
  }

  /** Eight strategies of weight 1250. */
  function FullStrategies(): seq<Weighted> {
    seq(8, i requires 0 <= i < 8 => Weighted(FullName(i), 1250))
  }

  function FullNames(): set<string> {
    {"fb"} + set i: nat | i < 8 :: FullName(i)
  }

  function FullRegistry(): Registry {
    map name | name in FullNames() :: Metadata(false, ["in"])
  }

  function FullPolicy(): Policy {
    Policy(SCHEMA_VERSION, "v", "s", map["in" := Rule(FullStrategies(), "fb")])
  }

  lemma {:induction false} SumOfEqual(s: seq<Weighted>, weight: int)
    requires forall i | 0 <= i < |s| :: s[i].weight == weight
    ensures Sum(s, None) == weight * |s|
  {
    if s != [] {
      SumOfEqual(s[1..], weight);
    }
  }

  lemma FullRegistryIsOk()
    ensures RegistryOk(FullRegistry()) && Eligible(FullRegistry(), "fb", "in")
    ensures forall i: nat | i < 8 :: Eligible(FullRegistry(), FullName(i), "in")
  {
    assert FullRegistry()["fb"] == Metadata(false, ["in"]) && ["in"][0] == "in";
    forall i: nat | i < 8 ensures Eligible(FullRegistry(), FullName(i), "in") {
      assert FullName(i) in FullNames();
    }
  }

  lemma FullStrategiesAreOk()
    ensures var s := FullStrategies();
            DistinctNames(s) && forall i | 0 <= i < |s| :: StrategyOk(FullRegistry(), "in", s[i])
  {
    FullRegistryIsOk();
    var s := FullStrategies();
    forall i, j | 0 <= i < j < 8 ensures s[i].name != s[j].name {
      assert s[i].name[1] != s[j].name[1];
    }
    forall i | 0 <= i < 8 ensures StrategyOk(FullRegistry(), "in", s[i]) {
      assert s[i].name == FullName(i);
    }
  }

  lemma FullRuleIsValid()
    ensures RuleValid(FullRegistry(), "in", Rule(FullStrategies(), "fb"))
  {
    FullStrategiesAreOk();
    FullRegistryIsOk();
    SumOfEqual(FullStrategies(), 1250);
  }

  lemma FullPositions()
    ensures LastIndex(FullStrategies(), "sa") == 0 && LastIndex(FullStrategies(), "fb") == -1
  {
    var s := FullStrategies();
    forall i | 0 <= i < 8 ensures s[i].name[0] == 's' && s[i].name[1] == 'a' + i as char {
    }
    assert s[0].name == "sa";
    assert "sa"[1] == 'a' && "fb"[0] == 'f';
  }

  lemma FullPolicyIsValid()
    ensures RegistryOk(FullRegistry()) && ValidPolicy(FullRegistry(), FullPolicy())
  {
    FullRegistryIsOk();
    FullRuleIsValid();
    NotBlank("v");
    NotBlank("s");
  }

  /** So an eligible reduction can end in an error rather than a recorded decision: eight strategies, a healthy
      fallback that is not among them, and a strategy well above the floor. */
  lemma FullRuleIsRefused(id: string)
    requires |id| >= 16
    ensures var (attempt, _) := AttemptOf(FullPolicy(), FullRegistry(), "in", "sa", id);
            attempt == Invalid && ValidPolicy(FullRegistry(), FullPolicy())
            && WeightOf(FullPolicy(), "in", "sa") == 1250
  {
    FullPolicyIsValid();
    FullRuleExpectsNothing();
    AnswersExactly(FullPolicy(), FullRegistry(), "in", "sa", id);
  }

  lemma FullRuleExpectsNothing()
    ensures var rule := Rule(FullStrategies(), "fb");
            Names(rule, "sa") && Sum(rule.strategies, Some("sa")) == 1250 && Expected(rule, "sa") == Invalid
  {
    FullStrategiesAreOk();
    FullPositions();
    SumOfDistinct(FullStrategies(), 0);
    assert "sa"[0] != "fb"[0];
  }

  // ----- which rule is active -----

  predicate Uses(p: Policy, intent: string, strategy: string) {
    intent in p.rules && Names(p.rules[intent], strategy)
  }

  /** The alphabetically first intent that uses the strategy. */
  ghost predicate FirstUse(p: Policy, strategy: string, found: Option<string>) {
    match found
    case None => forall intent | intent in p.rules :: !Uses(p, intent, strategy)
    case Some(first) =>
      Uses(p, first, strategy)
      && forall intent | intent in p.rules && Uses(p, intent, strategy) :: LessEq(first, intent)
  }

  lemma FirstUseIsUnique(p: Policy, strategy: string, a: Option<string>, b: Option<string>)
    requires FirstUse(p, strategy, a) && FirstUse(p, strategy, b)
    ensures a == b
  {
    if a.Some? && b.Some? {
      LessEqAntisymmetric(a.value, b.value);
    }
  }

  ghost function LeastOf(s: set<string>): string
    requires s != {}
  {
    var x :| x in s;
    if s == {x} then x
    else
      var rest := LeastOf(s - {x});
      if LessEq(x, rest) then x else rest
  }

  lemma {:induction false} LeastIsLeast(s: set<string>)
    requires s != {}
    ensures LeastOf(s) in s && forall y | y in s :: LessEq(LeastOf(s), y)
    decreases |s|
  {
    var x :| x in s && LeastOf(s) == if s == {x} then x
                                     else if LessEq(x, LeastOf(s - {x})) then x else LeastOf(s - {x});
    LessEqReflexive(x);
    if s != {x} {
      LeastIsLeast(s - {x});
      var rest := LeastOf(s - {x});
      LessEqTotal(x, rest);
      forall y | y in s ensures LessEq(LeastOf(s), y) {
        if y != x && LessEq(x, rest) {
          LessEqTransitive(x, rest, y);
        }
      }
    }
  }

  /** The intent findActiveRule settles on. */
  ghost function ActiveIntent(p: Policy, strategy: string): (found: Option<string>)
    ensures FirstUse(p, strategy, found)
  {
    var users := set intent | intent in p.rules && Uses(p, intent, strategy);
    if users == {} then
      assert forall intent | intent in p.rules :: Uses(p, intent, strategy) ==> intent in users;
      None
    else
      LeastIsLeast(users);
      Some(LeastOf(users))
  }

  method SortedIntents(rules: map<string, Rule>) returns (intents: seq<string>)
    ensures forall intent :: intent in intents <==> intent in rules
    ensures SortedBy(Itself, intents)
  {
    var keys: seq<string> := [];
    var todo := rules.Keys;
    while todo != {}
      invariant todo <= rules.Keys
      invariant forall intent :: intent in keys <==> intent in rules.Keys - todo
    {
      var intent :| intent in todo;
      keys := keys + [intent];
      todo := todo - {intent};
    }
    intents := SortStrings(keys);
    SortBySorts(Itself, keys);
    forall intent ensures intent in intents <==> intent in keys {
      assert intent in multiset(intents) <==> intent in multiset(keys);
    }
  }

  /** findActiveRule. */
  method FindActiveRule(p: Policy, strategy: string) returns (found: Option<string>)
    ensures found == ActiveIntent(p, strategy)
  {
    var intents := SortedIntents(p.rules);
    for i := 0 to |intents|
      invariant forall k | 0 <= k < i :: !Uses(p, intents[k], strategy)
    {
      if RuleNames(p.rules[intents[i]], strategy) {
        forall intent | intent in p.rules && Uses(p, intent, strategy) ensures LessEq(intents[i], intent) {
          var k :| 0 <= k < |intents| && intents[k] == intent;
          LessEqReflexive(intent);
        }
        FirstUseIsUnique(p, strategy, Some(intents[i]), ActiveIntent(p, strategy));
        return Some(intents[i]);
      }
    }
    FirstUseIsUnique(p, strategy, None, ActiveIntent(p, strategy));
    return None;
  }

  predicate RuleNames(rule: Rule, strategy: string)
    ensures RuleNames(rule, strategy) == Names(rule, strategy)
  {
    exists k | 0 <= k < |rule.strategies| :: rule.strategies[k].name == strategy
  }
}
