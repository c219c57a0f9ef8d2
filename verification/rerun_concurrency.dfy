/** The engine under concurrent callers: alone it is a sequence of the interleaved machine's actions, and in any
    interleaving a finished run's directory is the one it would have made alone. */
module RerunConcurrency {
  import opened Options
  import opened RerunEvidence
  import opened RerunEngine
  import opened RerunAgreement
  import opened RerunCompletion
  import opened RerunLimits
  import opened RerunLock

  // ----- alone -----

  lemma {:induction false} RunAppend(s: State, a: seq<Action>, b: seq<Action>)
    ensures Run(s, a + b) == Run(Run(s, a), b)
    decreases |b|
  {
    if b == [] {
      assert a + b == a;
    } else {
      assert (a + b)[..|a + b| - 1] == a + b[..|b| - 1];
      RunAppend(s, a, b[..|b| - 1]);
    }
  }

  lemma RunOne(s: State, a: Action)
    ensures Run(s, [a]) == Next(s, a)
  {
    assert [a][..0] == [];
  }

  /** A working caller can put any files into its directory, each name once. */
  lemma {:induction false} PutsMakeFiles(s: State, c: Caller, runId: string, files: Files) returns (puts: seq<Action>)
    requires PcOf(s, c) == Working(runId) && runId in s.runs && s.runs[runId] == map[]
    ensures |puts| == |files| && forall i | 0 <= i < |puts| :: puts[i].PutFile? && puts[i].c == c
    ensures Run(s, puts) == s.(runs := s.runs[runId := files])
    decreases |files|
  {
    if files == map[] {
      puts := [];
      assert s.runs[runId := files] == s.runs;
    } else {
      var name :| name in files;
      var rest := files - {name};
      assert |rest.Keys| < |files.Keys|;
      var front := PutsMakeFiles(s, c, runId, rest);
      var put := PutFile(c, name, files[name]);
      puts := front + [put];
      RunAppend(s, front, [put]);
      RunOne(Run(s, front), put);
      assert rest[name := files[name]] == files;
      assert |files| == |rest| + 1 by {
        assert files.Keys == rest.Keys + {name};
      }
    }
  }

  /** Execute with nobody in between, as its contract has it: locked, a directory of its own or none if the name is
      taken, its files, and the lock gone again. */
  lemma ExecuteAlone(codec: Codec, plan: Plan, behaviour: Behaviour, clock: Readings, taken: nat, s: State, c: Caller)
    returns (actions: seq<Action>)
    requires ValidPlan(codec, plan, true) && PcOf(s, c) == Start
    ensures var started := clock(taken);
            var runId := RunId(codec, plan, started);
            var end := RunSpec(codec, plan, runId, started, behaviour, clock, taken + 1);
            Run(s, actions) ==
              if s.lock.Some? then Become(s, c, Refused)
              else if runId in s.runs then Become(s, c, Left(None))
              else Become(s, c, Left(Some(runId))).(runs := s.runs[runId := end.files])
  {
    var started := clock(taken);
    var runId := RunId(codec, plan, started);
    var files := RunSpec(codec, plan, runId, started, behaviour, clock, taken + 1).files;
    if s.lock.Some? {
      actions := [TryLock(c)];
      RunOne(s, TryLock(c));
    } else if runId in s.runs {
      actions := [TryLock(c)] + [MakeDirectory(c, runId)] + [RemoveLock(c)];
      NameTaken(s, c, runId);
    } else {
      var made := Opened(s, c, runId);
      var puts := PutsMakeFiles(made, c, runId, files);
      actions := [TryLock(c)] + [MakeDirectory(c, runId)] + puts + [Finish(c)] + [RemoveLock(c)];
      Closed(s, c, runId, made, puts, files);
    }
  }

  lemma NameTaken(s: State, c: Caller, runId: string)
    requires PcOf(s, c) == Start && s.lock.None? && runId in s.runs
    ensures Run(s, [TryLock(c)] + [MakeDirectory(c, runId)] + [RemoveLock(c)]) == Become(s, c, Left(None))
  {
    RunOne(s, TryLock(c));
    RunAppend(s, [TryLock(c)], [MakeDirectory(c, runId)]);
    RunOne(Next(s, TryLock(c)), MakeDirectory(c, runId));
    RunAppend(s, [TryLock(c)] + [MakeDirectory(c, runId)], [RemoveLock(c)]);
    RunOne(Next(Next(s, TryLock(c)), MakeDirectory(c, runId)), RemoveLock(c));
  }

  lemma Opened(s: State, c: Caller, runId: string) returns (made: State)
    requires PcOf(s, c) == Start && s.lock.None? && runId !in s.runs
    ensures made == Become(s, c, Working(runId)).(lock := Some(c), runs := s.runs[runId := map[]])
    ensures Run(s, [TryLock(c)] + [MakeDirectory(c, runId)]) == made
  {
    made := Become(s, c, Working(runId)).(lock := Some(c), runs := s.runs[runId := map[]]);
    RunOne(s, TryLock(c));
    RunAppend(s, [TryLock(c)], [MakeDirectory(c, runId)]);
    RunOne(Next(s, TryLock(c)), MakeDirectory(c, runId));
  }

  lemma Closed(s: State, c: Caller, runId: string, made: State, puts: seq<Action>, files: Files)
    requires PcOf(s, c) == Start && s.lock.None? && runId !in s.runs
    requires made == Become(s, c, Working(runId)).(lock := Some(c), runs := s.runs[runId := map[]])
    requires Run(s, [TryLock(c)] + [MakeDirectory(c, runId)]) == made
    requires Run(made, puts) == made.(runs := made.runs[runId := files])
    ensures Run(s, [TryLock(c)] + [MakeDirectory(c, runId)] + puts + [Finish(c)] + [RemoveLock(c)])
         == Become(s, c, Left(Some(runId))).(runs := s.runs[runId := files])
  {
    var open := [TryLock(c)] + [MakeDirectory(c, runId)];
    RunAppend(s, open, puts);
    var filled := Run(made, puts);
    RunAppend(s, open + puts, [Finish(c)]);
    RunOne(filled, Finish(c));
    RunAppend(s, open + puts + [Finish(c)], [RemoveLock(c)]);
    RunOne(Next(filled, Finish(c)), RemoveLock(c));
  }

  // ----- interleaved -----

  /** What a caller itself has put into its directory. */
  ghost function WrittenBy(runs: map<string, Files>, actions: seq<Action>, c: Caller): Files {
    if actions == [] then map[]
    else
      var front, a := actions[..|actions| - 1], actions[|actions| - 1];
      var files := WrittenBy(runs, front, c);
      if a.PutFile? && a.c == c && PcOf(Run(Initially(runs), front), c).Working? then files[a.name := a.entry]
      else files
  }

  /** The directory of a run holds what its own caller put there, and nothing else. */
  lemma {:induction false} OnlyItsOwnFiles(runs: map<string, Files>, actions: seq<Action>, c: Caller)
    ensures var s := Run(Initially(runs), actions);
            var made := MadeBy(PcOf(s, c));
            if made.Some? then made.value in s.runs && s.runs[made.value] == WrittenBy(runs, actions, c)
            else WrittenBy(runs, actions, c) == map[]
  {
    if actions != [] {
      var front, a := actions[..|actions| - 1], actions[|actions| - 1];
      OnlyItsOwnFiles(runs, front, c);
      RunKeepsInv(runs, front);
      StepWritesOwnFiles(Run(Initially(runs), front), a, c);
    }
  }

  /** A directory gains the file its caller puts, and is otherwise left alone. */
  ghost predicate StepWrites(s: State, s': State, a: Action, c: Caller, runId: string) {
    && runId in s.runs && runId in s'.runs
    && s'.runs[runId] == if a.PutFile? && a.c == c && PcOf(s, c).Working? then s.runs[runId][a.name := a.entry]
                         else s.runs[runId]
  }

  /** One step, seen from one caller. */
  lemma StepWritesOwnFiles(s: State, a: Action, c: Caller)
    requires Inv(s)
    ensures var s' := Next(s, a);
            var was, made := MadeBy(PcOf(s, c)), MadeBy(PcOf(s', c));
            && (was.Some? ==> made == was && StepWrites(s, s', a, c, was.value))
            && (was.None? && made.Some? ==> made.value in s'.runs && s'.runs[made.value] == map[] && !a.PutFile?)
            && (was.None? ==> !PcOf(s, c).Working?)
  {
    var s' := Next(s, a);
    assert a.c != c ==> PcOf(s', c) == PcOf(s, c);
    if a.c != c && MadeBy(PcOf(s, c)).Some? {
      assert MadeBy(PcOf(s, a.c)) != MadeBy(PcOf(s, c));
    }
  }

  /** In any interleaving, a caller that has put the files of a run of its plan and finished has left a directory the
      validator answers as it would the run alone: with the report of that run if the plan's document fits. */
  lemma InterleavedRunIsAccepted(codec: Codec, runs: map<string, Files>, actions: seq<Action>, c: Caller, plan: Plan,
                                 behaviour: Behaviour, clock: Readings, taken: nat)
    requires codec.Good() && Economical(codec) && ValidPlan(codec, plan, true) && |plan.releaseId| <= MAX_RELEASE_ID
    requires Confined(plan, behaviour) && Physical(behaviour) && Monotone(clock) && PrintableClock(clock)
    requires MadeBy(PcOf(Run(Initially(runs), actions), c)) == Some(RunId(codec, plan, clock(taken)))
    requires WrittenBy(runs, actions, c)
          == RunSpec(codec, plan, RunId(codec, plan, clock(taken)), clock(taken), behaviour, clock, taken + 1).files
    ensures var s := Run(Initially(runs), actions);
            var runId := RunId(codec, plan, clock(taken));
            var end := RunSpec(codec, plan, runId, clock(taken), behaviour, clock, taken + 1);
            && runId in s.runs && end.outcome.Finished?
            && AcceptedReport(codec, runId, s.runs[runId])
            == if PlanFits(codec, plan) then Some(end.outcome.report) else None
  {
    OnlyItsOwnFiles(runs, actions, c);
    AgreementIsKnownBeforehand(codec, plan, behaviour, clock, taken);
  }
}
