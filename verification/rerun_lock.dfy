/** Any number of Execute callers on one seal, interleaved at every file operation. */
module RerunLock {
  import opened Options
  import opened RerunEvidence

  type Caller = nat

  /** How far a caller of Execute has come. A refused caller returned before its deferred removal
      was registered; a leaving one has only that removal left to do. */
  datatype Pc =
    | Start
    | Refused
    | Locked
    | Working(runId: string)
    | Leaving(made: Option<string>)
    | Left(made: Option<string>)

  /** `lock` names the caller whose exclusive create made the lock file. */
  datatype State = State(lock: Option<Caller>, pcs: map<Caller, Pc>, runs: map<string, Files>)

  datatype Action =
    | TryLock(c: Caller)
    | LockWriteFails(c: Caller)
    | MakeDirectory(c: Caller, runId: string)
    | PutFile(c: Caller, name: FileName, entry: Entry)
    | Finish(c: Caller)
    | RemoveLock(c: Caller)

  function PcOf(s: State, c: Caller): Pc {
    if c in s.pcs then s.pcs[c] else Start
  }

  function Become(s: State, c: Caller, pc: Pc): State {
    s.(pcs := s.pcs[c := pc])
  }

  /** One file operation; an action that is not the caller's next one leaves the state alone. */
  function Next(s: State, a: Action): State {
    var pc := PcOf(s, a.c);
    match a
    case TryLock(c) =>
      if pc != Start then s
      else if s.lock.Some? then Become(s, c, Refused)
      else Become(s, c, Locked).(lock := Some(c))
    case LockWriteFails(c) =>
      if pc == Locked then Become(s, c, Leaving(None)) else s
    case MakeDirectory(c, runId) =>
      if pc != Locked then s
      else if runId in s.runs then Become(s, c, Leaving(None))
      else Become(s, c, Working(runId)).(runs := s.runs[runId := map[]])
    case PutFile(c, name, entry) =>
      if pc.Working? && pc.runId in s.runs then s.(runs := s.runs[pc.runId := s.runs[pc.runId][name := entry]]) else s
    case Finish(c) =>
      if pc.Working? then Become(s, c, Leaving(Some(pc.runId))) else s
    case RemoveLock(c) =>
      if pc.Leaving? then Become(s, c, Left(pc.made)).(lock := None) else s
  }

  function Run(s: State, actions: seq<Action>): State {
    if actions == [] then s else Next(Run(s, actions[..|actions| - 1]), actions[|actions| - 1])
  }

  function Initially(runs: map<string, Files>): State {
    State(None, map[], runs)
  }

  /** Between lock creation and deferred removal. */
  predicate Holding(pc: Pc) {
    pc.Locked? || pc.Working? || pc.Leaving?
  }

  function MadeBy(pc: Pc): Option<string> {
    match pc
    case Working(r) => Some(r)
    case Leaving(m) => m
    case Left(m) => m
    case _ => None
  }

  ghost predicate Inv(s: State) {
    && (forall c: Caller :: Holding(PcOf(s, c)) <==> s.lock == Some(c))
    && (forall c: Caller :: MadeBy(PcOf(s, c)).Some? ==> MadeBy(PcOf(s, c)).value in s.runs)
    && (forall c: Caller, d: Caller | c != d && MadeBy(PcOf(s, c)).Some? :: MadeBy(PcOf(s, c)) != MadeBy(PcOf(s, d)))
  }

  lemma NextKeepsInv(s: State, a: Action)
    requires Inv(s)
    ensures Inv(Next(s, a))
  {
    var s' := Next(s, a);
    forall c: Caller ensures PcOf(s', c) == if c == a.c then PcOf(s', a.c) else PcOf(s, c) {
    }
  }

  lemma {:induction false} RunKeepsInv(runs: map<string, Files>, actions: seq<Action>)
    ensures Inv(Run(Initially(runs), actions))
  {
    if actions != [] {
      RunKeepsInv(runs, actions[..|actions| - 1]);
      NextKeepsInv(Run(Initially(runs), actions[..|actions| - 1]), actions[|actions| - 1]);
    }
  }

  /** In every reachable state at most one caller is between lock creation and removal. */
  lemma AtMostOneActive(runs: map<string, Files>, actions: seq<Action>, c: Caller, d: Caller)
    ensures var s := Run(Initially(runs), actions);
            Holding(PcOf(s, c)) && Holding(PcOf(s, d)) ==> c == d
  {
    RunKeepsInv(runs, actions);
  }

  /** Only the caller that created the lock ever removes it; a refused caller changes nothing. */
  lemma OnlyTheHolderUnlocks(runs: map<string, Files>, actions: seq<Action>, a: Action)
    ensures var s := Run(Initially(runs), actions);
            && (s.lock.Some? && Next(s, a).lock != s.lock ==>
                  s.lock == Some(a.c) && a.RemoveLock? && PcOf(s, a.c).Leaving?)
            && (PcOf(s, a.c) == Refused ==> Next(s, a) == s)
  {
    RunKeepsInv(runs, actions);
  }

  /** The directories settled in a state: those that were there first or whose maker has finished. */
  ghost predicate Settled(s: State, runId: string) {
    runId in s.runs && forall c: Caller :: PcOf(s, c) != Working(runId)
  }

  lemma SettledStays(s: State, a: Action, runId: string)
    requires Inv(s) && Settled(s, runId)
    ensures Settled(Next(s, a), runId) && Next(s, a).runs[runId] == s.runs[runId]
  {
    var s' := Next(s, a);
    forall c: Caller ensures PcOf(s', c) == if c == a.c then PcOf(s', a.c) else PcOf(s, c) {
    }
    assert PcOf(s, a.c) != Working(runId);
  }

  /** No later activity, by any number of callers, changes a file of a settled run. */
  lemma {:induction false} NoEvidenceIsLost(runs: map<string, Files>, before: seq<Action>, later: seq<Action>,
                                            runId: string)
    requires Settled(Run(Initially(runs), before), runId)
    ensures Settled(Run(Initially(runs), before + later), runId)
    ensures Run(Initially(runs), before + later).runs[runId] == Run(Initially(runs), before).runs[runId]
    decreases later
  {
    if later == [] {
      assert before + later == before;
    } else {
      var last := |later| - 1;
      NoEvidenceIsLost(runs, before, later[..last], runId);
      RunKeepsInv(runs, before + later[..last]);
      SettledStays(Run(Initially(runs), before + later[..last]), later[last], runId);
      assert (before + later)[..|before + later| - 1] == before + later[..last];
    }
  }
}
