/** Seal, alone and in a race: at most one directory is ever published for an identity. */
module SealRace {
  import opened Text
  import opened Options
  import opened Seal

  /** One caller's request, its review snapshot already loaded. */
  datatype Request = Request(
    identity: Identity, createdAt: Time, datasetVersion: string, manifestSha: string, caseCount: int,
    approvedCases: int, nextGate: string, guardrails: seq<string>, sources: Sources)

  function HeaderOf(codec: Codec, r: Request): Header
    requires codec.Good()
  {
    Header(SealId(codec, r.identity), r.createdAt, r.datasetVersion, r.identity.catalogSha, r.manifestSha,
           r.identity.reviewSetSha, r.identity.reviewerHash, r.caseCount, r.approvedCases, r.nextGate, r.guardrails)
  }

  datatype Error = StaleReview | InvalidCommand | ReviewIncomplete | InvalidArtifact | Unavailable
  datatype Outcome = Created(report: Report) | Reused(report: Report) | Failed(error: Error)

  /** Where one caller stands. */
  datatype Pc =
    | Start
    | Absent
    | Built(dir: Dir, report: Report)
    | Won(report: Report)
    | Lost
    | Done(outcome: Outcome)

  /** What a caller does by itself: reading a directory back, building one, and naming the target. */
  datatype Rules = Rules(
    validate: Dir -> Loaded, build: Request -> Option<(Dir, Report)>, idOf: Identity -> string)

  function RulesOf(codec: Codec): Rules
    requires codec.Good()
  {
    Rules(dir => Validated(codec, dir), r => Materialized(codec, HeaderOf(codec, r), r.sources), i => SealId(codec, i))
  }

  /** The target as it is found; a missing directory and a directory without a report read alike. */
  function Look(rules: Rules, published: map<string, Dir>, id: string): Loaded {
    if id in published then rules.validate(published[id]) else Missing
  }

  /** The first look at the target. */
  function Checked(rules: Rules, published: map<string, Dir>, r: Request): Pc
  {
    match Look(rules, published, rules.idOf(r.identity))
    case Missing => Absent
    case Invalid => Done(Failed(InvalidArtifact))
    case Valid(report) =>
      if Identity(report.sourceCatalogSha, report.sourceReviewSetSha, report.reviewerHash) == r.identity
      then Done(Reused(report))
      else Done(Failed(InvalidArtifact))
  }

  /** Building in a directory of one's own. */
  function BuiltBy(rules: Rules, r: Request): Pc
  {
    match rules.build(r)
    case None => Done(Failed(InvalidArtifact))
    case Some((dir, report)) => Built(dir, report)
  }

  /** Reading back what was just published. */
  function Confirmed(rules: Rules, published: map<string, Dir>, id: string, report: Report): Outcome {
    var loaded := Look(rules, published, id);
    if loaded.Valid? && loaded.report.sealSha == report.sealSha then Created(loaded.report) else Failed(InvalidArtifact)
  }

  /** Reading what someone else published first. */
  function Reread(rules: Rules, published: map<string, Dir>, id: string): Outcome {
    var loaded := Look(rules, published, id);
    if loaded.Valid? && loaded.report.sealId == id then Reused(loaded.report) else Failed(Unavailable)
  }

  // ----- one caller -----

  /** What the caller claims to have reviewed, and the progress it is checked against. */
  datatype Command = Command(catalogSha: string, reviewSetSha: string, acknowledged: bool)
  datatype Counts = Counts(ready: bool, total: int, approved: int, rejected: int, pending: int)

  function Guard(r: Request, command: Command, counts: Counts): Option<Error> {
    if !command.acknowledged then Some(InvalidCommand)
    else if Trim(command.catalogSha) != r.identity.catalogSha
            || Trim(command.reviewSetSha) != r.identity.reviewSetSha then
      Some(StaleReview)
    else if !counts.ready || counts.total != CASES || counts.approved != counts.total || counts.rejected != 0
            || counts.pending != 0 then
      Some(ReviewIncomplete)
    else None
  }

  /** Seal as it goes when nobody interferes. */
  function SealAlone(rules: Rules, published: map<string, Dir>, r: Request): (map<string, Dir>, Outcome)
  {
    var id := rules.idOf(r.identity);
    match Checked(rules, published, r)
    case Done(outcome) => (published, outcome)
    case _ =>
      match BuiltBy(rules, r)
      case Built(dir, report) =>
        if id in published then (published, Reread(rules, published, id))
        else (published[id := dir], Confirmed(rules, published[id := dir], id, report))
      case Done(outcome) => (published, outcome)
      case _ => (published, Failed(Unavailable))
  }

  class SealRoot {
    var published: map<string, Dir>

    constructor ()
      ensures published == map[]
    {
      published := map[];
    }

    method Seal(codec: Codec, r: Request, command: Command, counts: Counts) returns (outcome: Outcome)
      requires codec.Good()
      modifies this
      ensures Guard(r, command, counts).Some? ==>
                published == old(published) && outcome == Failed(Guard(r, command, counts).value)
      ensures Guard(r, command, counts).None? ==> (published, outcome) == SealAlone(RulesOf(codec), old(published), r)
    {
      var refused := Guard(r, command, counts);
      if refused.Some? {
        return Failed(refused.value);
      }
      var first := LookFirst(codec, r);
      if first.Done? {
        return first.outcome;
      }
      var built := Materialize(codec, HeaderOf(codec, r), r.sources);
      if built.None? {
        return Failed(InvalidArtifact);
      }
      outcome := Publish(codec, SealId(codec, r.identity), built.value.0, built.value.1);
    }

    /** The first look at the target: reuse, an error, or nothing there. */
    method LookFirst(codec: Codec, r: Request) returns (pc: Pc)
      requires codec.Good()
      ensures pc == Checked(RulesOf(codec), published, r)
      ensures pc.Done? || pc.Absent?
    {
      var id := SealId(codec, r.identity);
      var target := Missing;
      if id in published {
        target := ValidateArtifact(codec, published[id]);
      }
      if target.Missing? {
        return Absent;
      }
      if || target.Invalid? || target.report.sourceCatalogSha != r.identity.catalogSha
         || target.report.sourceReviewSetSha != r.identity.reviewSetSha
         || target.report.reviewerHash != r.identity.reviewerHash
      {
        return Done(Failed(InvalidArtifact));
      }
      return Done(Reused(target.report));
    }

    /** The rename, and what is read back after it. */
    method Publish(codec: Codec, id: string, dir: Dir, report: Report) returns (outcome: Outcome)
      requires codec.Good()
      modifies this
      ensures id in old(published) ==> published == old(published) && outcome == Reread(RulesOf(codec), published, id)
      ensures id !in old(published) ==>
                published == old(published)[id := dir] && outcome == Confirmed(RulesOf(codec), published, id, report)
    {
      if id in published {
        var existing := ValidateArtifact(codec, published[id]);
        return if existing.Valid? && existing.report.sealId == id then Reused(existing.report) else Failed(Unavailable);
      }
      published := published[id := dir];
      var validated := ValidateArtifact(codec, published[id]);
      if !validated.Valid? || validated.report.sealSha != report.sealSha {
        return Failed(InvalidArtifact);
      }
      return Created(validated.report);
    }
  }

  // ----- any number of callers, interleaved -----

  datatype Caller = Caller(request: Request, pc: Pc)
  datatype State = State(published: map<string, Dir>, callers: map<nat, Caller>)

  datatype Action =
    | Arrive(c: nat, request: Request)
    | Check(c: nat)
    | Build(c: nat)
    | Rename(c: nat)
    | Finish(c: nat)

  function To(s: State, c: nat, pc: Pc): State
    requires c in s.callers
  {
    s.(callers := s.callers[c := s.callers[c].(pc := pc)])
  }

  function IdOf(rules: Rules, s: State, c: nat): string
    requires c in s.callers
  {
    rules.idOf(s.callers[c].request.identity)
  }

  /** One step; the rename is atomic and fails when the target exists. */
  function Next(rules: Rules, s: State, a: Action): State
  {
    match a
    case Arrive(c, request) => if c in s.callers then s else s.(callers := s.callers[c := Caller(request, Start)])
    case Check(c) =>
      if c in s.callers && s.callers[c].pc.Start? then To(s, c, Checked(rules, s.published, s.callers[c].request))
      else s
    case Build(c) =>
      if c in s.callers && s.callers[c].pc.Absent? then To(s, c, BuiltBy(rules, s.callers[c].request)) else s
    case Rename(c) =>
      if c in s.callers && s.callers[c].pc.Built? then
        var id, pc := IdOf(rules, s, c), s.callers[c].pc;
        if id in s.published then To(s, c, Lost) else To(s.(published := s.published[id := pc.dir]), c, Won(pc.report))
      else s
    case Finish(c) =>
      if c in s.callers && s.callers[c].pc.Won? then
        To(s, c, Done(Confirmed(rules, s.published, IdOf(rules, s, c), s.callers[c].pc.report)))
      else if c in s.callers && s.callers[c].pc.Lost? then To(s, c, Done(Reread(rules, s.published, IdOf(rules, s, c))))
      else s
  }

  function Run(rules: Rules, actions: seq<Action>): State
  {
    if actions == [] then State(map[], map[]) else Next(rules, Run(rules, actions[..|actions| - 1]),
                                                        actions[|actions| - 1])
  }

  /** A directory some caller built for this id. */
  ghost predicate Genuine(rules: Rules, id: string, dir: Dir)
  {
    exists r: Request, report :: rules.idOf(r.identity) == id && BuiltBy(rules, r) == Built(dir, report)
  }

  predicate HasWon(pc: Pc) {
    pc.Won? || (pc.Done? && pc.outcome.Created?)
  }

  ghost predicate CallerOk(rules: Rules, published: map<string, Dir>, caller: Caller)
  {
    var id := rules.idOf(caller.request.identity);
    match caller.pc
    case Built(dir, report) => BuiltBy(rules, caller.request) == Built(dir, report)
    case Won(report) => id in published && BuiltBy(rules, caller.request) == Built(published[id], report)
    case Lost => id in published
    case Done(Created(report)) => Look(rules, published, id) == Valid(report)
    case Done(Reused(report)) => Look(rules, published, id) == Valid(report)
    case _ => true
  }

  ghost predicate Inv(rules: Rules, s: State)
  {
    && (forall id | id in s.published :: Genuine(rules, id, s.published[id]))
    && (forall c | c in s.callers :: CallerOk(rules, s.published, s.callers[c]))
    && OneWinner(rules, s)
  }

  /** Published directories stay as they are. */
  predicate Keeps(before: map<string, Dir>, after: map<string, Dir>) {
    forall id | id in before :: id in after && after[id] == before[id]
  }

  lemma CallerStays(rules: Rules, before: map<string, Dir>, after: map<string, Dir>, caller: Caller)
    requires Keeps(before, after) && CallerOk(rules, before, caller)
    ensures CallerOk(rules, after, caller)
  {
  }

  ghost predicate OneWinner(rules: Rules, s: State) {
    forall c, d | c in s.callers && d in s.callers && HasWon(s.callers[c].pc) && HasWon(s.callers[d].pc)
                  && IdOf(rules, s, c) == IdOf(rules, s, d) :: c == d
  }

  lemma MoveKeepsWinner(rules: Rules, s: State, c: nat, pc: Pc)
    requires OneWinner(rules, s) && c in s.callers && (HasWon(pc) ==> HasWon(s.callers[c].pc))
    ensures OneWinner(rules, To(s, c, pc))
  {
    var s' := To(s, c, pc);
    forall d | d in s'.callers && HasWon(s'.callers[d].pc)
      ensures HasWon(s.callers[d].pc) && IdOf(rules, s', d) == IdOf(rules, s, d)
    {
    }
  }

  lemma MoveKeepsInv(rules: Rules, s: State, c: nat, pc: Pc)
    requires Inv(rules, s) && c in s.callers && CallerOk(rules, s.published, s.callers[c].(pc := pc))
    requires HasWon(pc) ==> HasWon(s.callers[c].pc)
    ensures Inv(rules, To(s, c, pc))
  {
    MoveKeepsWinner(rules, s, c, pc);
  }

  lemma RenameKeepsInv(rules: Rules, s: State, c: nat)
    requires Inv(rules, s) && c in s.callers && s.callers[c].pc.Built? && IdOf(rules, s, c) !in s.published
    ensures Inv(rules, Next(rules, s, Rename(c)))
  {
    var s' := Next(rules, s, Rename(c));
    assert CallerOk(rules, s.published, s.callers[c]);
    assert Genuine(rules, IdOf(rules, s, c), s.callers[c].pc.dir);
    forall d | d in s'.callers ensures CallerOk(rules, s'.published, s'.callers[d]) {
      if d != c {
        CallerStays(rules, s.published, s'.published, s.callers[d]);
      }
    }
    forall d | d in s.callers && HasWon(s.callers[d].pc) ensures IdOf(rules, s, d) != IdOf(rules, s, c) {
      assert CallerOk(rules, s.published, s.callers[d]);
    }
  }

  lemma StepKeepsInv(rules: Rules, s: State, a: Action)
    requires Inv(rules, s)
    ensures Inv(rules, Next(rules, s, a))
  {
    match a
    case Arrive(c, request) =>
      ArriveKeepsInv(rules, s, c, request);
    case Check(c) =>
      if c in s.callers && s.callers[c].pc.Start? {
        MoveKeepsInv(rules, s, c, Checked(rules, s.published, s.callers[c].request));
      }
    case Build(c) =>
      if c in s.callers && s.callers[c].pc.Absent? {
        MoveKeepsInv(rules, s, c, BuiltBy(rules, s.callers[c].request));
      }
    case Rename(c) =>
      if c in s.callers && s.callers[c].pc.Built? {
        if IdOf(rules, s, c) in s.published {
          MoveKeepsInv(rules, s, c, Lost);
        } else {
          RenameKeepsInv(rules, s, c);
        }
      }
    case Finish(c) =>
      FinishKeepsInv(rules, s, c);
  }

  lemma ArriveKeepsInv(rules: Rules, s: State, c: nat, request: Request)
    requires Inv(rules, s)
    ensures Inv(rules, Next(rules, s, Arrive(c, request)))
  {
    var s' := Next(rules, s, Arrive(c, request));
    forall d | d in s'.callers && HasWon(s'.callers[d].pc)
      ensures d in s.callers && HasWon(s.callers[d].pc) && IdOf(rules, s', d) == IdOf(rules, s, d)
    {
    }
  }

  lemma StepKeepsPublished(rules: Rules, s: State, a: Action)
    ensures Keeps(s.published, Next(rules, s, a).published)
  {
  }

  lemma FinishKeepsInv(rules: Rules, s: State, c: nat)
    requires Inv(rules, s)
    ensures Inv(rules, Next(rules, s, Finish(c)))
  {
    if c in s.callers && s.callers[c].pc.Won? {
      MoveKeepsInv(rules, s, c, Done(Confirmed(rules, s.published, IdOf(rules, s, c), s.callers[c].pc.report)));
    } else if c in s.callers && s.callers[c].pc.Lost? {
      MoveKeepsInv(rules, s, c, Done(Reread(rules, s.published, IdOf(rules, s, c))));
    }
  }

  lemma {:induction false} RunKeepsInv(rules: Rules, actions: seq<Action>)
    ensures Inv(rules, Run(rules, actions))
  {
    if actions != [] {
      RunKeepsInv(rules, actions[..|actions| - 1]);
      StepKeepsInv(rules, Run(rules, actions[..|actions| - 1]), actions[|actions| - 1]);
    }
  }

  predicate Succeeded(s: State, c: nat) {
    c in s.callers && s.callers[c].pc.Done? && !s.callers[c].pc.outcome.Failed?
  }

  /** In every interleaving, of the callers with one identity at most one is told Created, and every receipt
      carries the report of the one directory published for that identity. */
  lemma AtMostOneCreated(rules: Rules, actions: seq<Action>, c: nat, d: nat)
    requires var s := Run(rules, actions);
             Succeeded(s, c) && Succeeded(s, d) && s.callers[c].request.identity == s.callers[d].request.identity
    ensures var s := Run(rules, actions);
            var id := IdOf(rules, s, c);
            && id in s.published && rules.validate(s.published[id]) == Valid(s.callers[c].pc.outcome.report)
            && s.callers[c].pc.outcome.report == s.callers[d].pc.outcome.report
            && (s.callers[c].pc.outcome.Created? && s.callers[d].pc.outcome.Created? ==> c == d)
  {
    RunKeepsInv(rules, actions);
    ReceiptIsPublished(rules, Run(rules, actions), c);
    ReceiptIsPublished(rules, Run(rules, actions), d);
  }

  lemma ReceiptIsPublished(rules: Rules, s: State, c: nat)
    requires Inv(rules, s) && Succeeded(s, c)
    ensures Look(rules, s.published, IdOf(rules, s, c)) == Valid(s.callers[c].pc.outcome.report)
  {
    assert CallerOk(rules, s.published, s.callers[c]);
  }

  /** Whatever is published is never changed again. */
  lemma {:induction false} PublishedStays(rules: Rules, before: seq<Action>, later: seq<Action>)
    ensures Keeps(Run(rules, before).published, Run(rules, before + later).published)
    decreases |later|
  {
    if later == [] {
      assert before + later == before;
    } else {
      assert (before + later)[..|before + later| - 1] == before + later[..|later| - 1];
      PublishedStays(rules, before, later[..|later| - 1]);
      StepKeepsPublished(rules, Run(rules, before + later[..|later| - 1]), later[|later| - 1]);
    }
  }

  /** A directory read back right after it was built gives its own report, unless its report is over the limit. */
  ghost predicate Faithful(rules: Rules, fits: Request -> bool) {
    forall r | rules.build(r).Some? ::
      var (dir, report) := rules.build(r).value;
      rules.validate(dir) == (if fits(r) then Valid(report) else Invalid) && report.sealId == rules.idOf(r.identity)
  }

  /** The caller that wins the rename is told Created if its report fits, and InvalidArtifact otherwise. */
  lemma WinnerIsConfirmed(rules: Rules, fits: Request -> bool, actions: seq<Action>, c: nat)
    requires Faithful(rules, fits) && c in Run(rules, actions).callers && Run(rules, actions).callers[c].pc.Won?
    ensures var s := Run(rules, actions);
            Next(rules, s, Finish(c)).callers[c].pc
            == Done(if fits(s.callers[c].request) then Created(s.callers[c].pc.report) else Failed(InvalidArtifact))
  {
    RunKeepsInv(rules, actions);
    assert CallerOk(rules, Run(rules, actions).published, Run(rules, actions).callers[c]);
  }

  /** A caller that loses the rename is given the report of the request that was published, unless that report does
      not fit. */
  lemma LoserGetsTheWinnersReport(rules: Rules, fits: Request -> bool, actions: seq<Action>, c: nat)
    returns (winner: Request)
    requires Faithful(rules, fits) && c in Run(rules, actions).callers && Run(rules, actions).callers[c].pc.Lost?
    ensures var s := Run(rules, actions);
            var id := IdOf(rules, s, c);
            && id in s.published && rules.idOf(winner.identity) == id
            && rules.build(winner).Some? && rules.build(winner).value.0 == s.published[id]
            && Next(rules, s, Finish(c)).callers[c].pc
               == Done(if fits(winner) then Reused(rules.build(winner).value.1) else Failed(Unavailable))
  {
    RunKeepsInv(rules, actions);
    var s := Run(rules, actions);
    assert CallerOk(rules, s.published, s.callers[c]);
    var id := IdOf(rules, s, c);
    assert Genuine(rules, id, s.published[id]);
    var r: Request, report :| rules.idOf(r.identity) == id && BuiltBy(rules, r) == Built(s.published[id], report);
    winner := r;
  }

  predicate Fits(codec: Codec, r: Request)
    requires codec.Good()
  {
    var built := Materialized(codec, HeaderOf(codec, r), r.sources);
    built.Some? ==> |codec.pretty(built.value.1)| <= MAXIMUM_REPORT_BYTES
  }

  /** The service's own builder and validator are faithful, the limit being one mebibyte of encoded report. */
  lemma ServiceIsFaithful(codec: Codec)
    requires codec.Good()
    ensures Faithful(RulesOf(codec), r => Fits(codec, r))
  {
    forall r | RulesOf(codec).build(r).Some?
      ensures var (dir, report) := RulesOf(codec).build(r).value;
              && RulesOf(codec).validate(dir) == (if Fits(codec, r) then Valid(report) else Invalid)
              && report.sealId == RulesOf(codec).idOf(r.identity)
    {
      MaterializedIsValid(codec, HeaderOf(codec, r), r.sources);
    }
  }
}
