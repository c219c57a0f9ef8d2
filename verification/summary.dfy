/** The incremental summariser: one flag, one index, any number of callers. */
module Summary {
  import opened Options
  import opened Tokens

  /** The mutable fields of a SummaryMemory. */
  datatype Fields = Fields(cached: string, upTo: nat, tokens: nat, busy: bool)

  /** The chunk one run would summarise: from the last index to the start of the kept messages. */
  function PlannedStart(han: Han, fields: Fields, messages: seq<Message>, budget: int): Option<nat> {
    var start := KeptFrom(han, messages, budget);
    if start <= fields.upTo then None else Some(start)
  }

  function Committed(han: Han, fields: Fields, text: string, start: nat): Fields {
    fields.(cached := text, upTo := start, tokens := Estimate(han, text))
  }

  class SummaryMemory {
    const han: Han
    var cachedSummary: string
    var summarizedUpTo: nat
    var summaryTokens: nat
    var isSummarizing: bool

    constructor (han: Han)
      ensures this.han == han && View() == Fields("", 0, 0, false)
    {
      this.han := han;
      cachedSummary, summarizedUpTo, summaryTokens, isSummarizing := "", 0, 0, false;
    }

    function View(): Fields
      reads this
    {
      Fields(cachedSummary, summarizedUpTo, summaryTokens, isSummarizing)
    }

    /** The guarded entry of TrySummarize. */
    method Claim() returns (claimed: bool)
      modifies this
      ensures claimed == !old(isSummarizing) && View() == old(View()).(busy := true)
    {
      claimed := !isSummarizing;
      isSummarizing := true;
    }

    /** What is to be summarised, if anything. */
    method Plan(messages: seq<Message>, budget: int) returns (start: Option<nat>)
      ensures start == PlannedStart(han, View(), messages, budget)
    {
      var recent := TruncateByTokenBudget(han, messages, budget);
      var recentStart := |messages| - |recent|;
      if recentStart <= summarizedUpTo {
        return None;
      }
      return Some(recentStart);
    }

    /** The update after the model has answered. */
    method Commit(text: string, start: nat)
      modifies this
      ensures View() == Committed(han, old(View()), text, start)
    {
      cachedSummary := text;
      summarizedUpTo := start;
      summaryTokens := EstimateTokenCount(han, text);
    }

    method Release()
      modifies this
      ensures View() == old(View()).(busy := false)
    {
      isSummarizing := false;
    }

    /** One call with nobody else around; the model answers with a text or fails. */
    method TrySummarize(messages: seq<Message>, budget: int, answer: Option<string>) returns (chunk: seq<Message>)
      modifies this
      ensures old(isSummarizing) ==> View() == old(View()) && chunk == []
      ensures !old(isSummarizing) ==>
                var start := KeptFrom(han, messages, budget);
                if start <= old(summarizedUpTo) || answer.None? then View() == old(View()) && chunk == []
                else
                  && cachedSummary == answer.value && summaryTokens == Estimate(han, answer.value)
                  && summarizedUpTo == start && !isSummarizing && chunk == messages[old(summarizedUpTo)..start]
    {
      chunk := [];
      var claimed := Claim();
      if !claimed {
        return;
      }
      var start := Plan(messages, budget);
      if start.Some? && answer.Some? {
        chunk := messages[summarizedUpTo..start.value];
        Commit(answer.value, start.value);
      }
      Release();
    }
  }

  // ----- any number of callers, interleaved -----

  /** Where one call stands. */
  datatype Job =
    | Claimed(messages: seq<Message>, budget: int)
    | Asking(start: nat, chunk: seq<Message>)
    | Leaving
    | Gone

  /** `chunks` records what was handed to the model and answered, in order. */
  datatype State = State(history: seq<Message>, fields: Fields, jobs: map<nat, Job>, chunks: seq<seq<Message>>)

  datatype Action =
    | Grow(message: Message)
    | Call(job: nat, budget: int)
    | Plan(job: nat)
    | Answer(job: nat, text: Option<string>)
    | Leave(job: nat)

  function To(s: State, j: nat, job: Job): State {
    s.(jobs := s.jobs[j := job])
  }

  function Next(han: Han, s: State, a: Action): State {
    match a
    case Grow(message) => s.(history := s.history + [message])
    case Call(j, budget) =>
      if j in s.jobs then s
      else if s.fields.busy then To(s, j, Gone)
      else To(s.(fields := s.fields.(busy := true)), j, Claimed(s.history, budget))
    case Plan(j) =>
      if j !in s.jobs || !s.jobs[j].Claimed? then s
      else
        var job := s.jobs[j];
        (match PlannedStart(han, s.fields, job.messages, job.budget)
         case None => To(s, j, Leaving)
         case Some(start) => To(s, j, Asking(start, job.messages[s.fields.upTo..start])))
    case Answer(j, text) =>
      if j !in s.jobs || !s.jobs[j].Asking? then s
      else if text.None? then To(s, j, Leaving)
      else
        var job := s.jobs[j];
        To(s.(fields := Committed(han, s.fields, text.value, job.start), chunks := s.chunks + [job.chunk]), j, Leaving)
    case Leave(j) =>
      if j !in s.jobs || !s.jobs[j].Leaving? then s
      else To(s.(fields := s.fields.(busy := false)), j, Gone)
  }

  function Run(han: Han, actions: seq<Action>): State {
    if actions == [] then State([], Fields("", 0, 0, false), map[], [])
    else Next(han, Run(han, actions[..|actions| - 1]), actions[|actions| - 1])
  }

  /** Between claiming the flag and giving it back. */
  predicate InFlight(s: State, j: nat) {
    j in s.jobs && !s.jobs[j].Gone?
  }

  function Concat(chunks: seq<seq<Message>>): seq<Message> {
    if chunks == [] then [] else Concat(chunks[..|chunks| - 1]) + chunks[|chunks| - 1]
  }

  ghost predicate JobOk(s: State, job: Job) {
    match job
    case Claimed(messages, _) => messages <= s.history
    case Asking(start, chunk) => s.fields.upTo < start <= |s.history| && chunk == s.history[s.fields.upTo..start]
    case _ => true
  }

  ghost predicate Inv(s: State) {
    && (s.fields.busy <==> exists j :: InFlight(s, j))
    && (forall i, j | InFlight(s, i) && InFlight(s, j) :: i == j)
    && (forall j | j in s.jobs :: JobOk(s, s.jobs[j]))
    && s.fields.upTo <= |s.history| && Concat(s.chunks) == s.history[..s.fields.upTo]
  }

  lemma JobStays(s: State, s': State, job: Job)
    requires JobOk(s, job) && s.history <= s'.history && (job.Asking? ==> s'.fields.upTo == s.fields.upTo)
    ensures JobOk(s', job)
  {
  }

  lemma GrowKeepsInv(han: Han, s: State, message: Message)
    requires Inv(s)
    ensures Inv(Next(han, s, Grow(message)))
  {
    var s' := Next(han, s, Grow(message));
    forall j | j in s'.jobs ensures JobOk(s', s'.jobs[j]) {
      JobStays(s, s', s.jobs[j]);
    }
    forall j ensures InFlight(s', j) == InFlight(s, j) {
    }
    assert s'.history[..s.fields.upTo] == s.history[..s.fields.upTo];
  }

  lemma CallKeepsInv(han: Han, s: State, j: nat, budget: int)
    requires Inv(s) && j !in s.jobs
    ensures Inv(Next(han, s, Call(j, budget)))
  {
    var s' := Next(han, s, Call(j, budget));
    forall i | i != j ensures InFlight(s', i) == InFlight(s, i) {
    }
    assert InFlight(s', j) == !s.fields.busy;
    assert s'.fields.busy;
    forall i | i in s'.jobs ensures JobOk(s', s'.jobs[i]) {
      if i != j {
        JobStays(s, s', s.jobs[i]);
      }
    }
  }

  lemma MoveKeepsInv(s: State, s': State, j: nat, job: Job)
    requires Inv(s) && InFlight(s, j) && s' == To(s, j, job) && !job.Gone? && JobOk(s', job)
    ensures Inv(s')
  {
    forall i ensures InFlight(s', i) == InFlight(s, i) {
    }
    forall i | i in s'.jobs ensures JobOk(s', s'.jobs[i]) {
      if i != j {
        JobStays(s, s', s.jobs[i]);
      }
    }
  }

  lemma CommitKeepsInv(han: Han, s: State, j: nat, text: string)
    requires Inv(s) && j in s.jobs && s.jobs[j].Asking?
    ensures Inv(Next(han, s, Answer(j, Some(text))))
  {
    var s' := Next(han, s, Answer(j, Some(text)));
    var job := s.jobs[j];
    assert JobOk(s, job) && InFlight(s, j);
    forall i ensures InFlight(s', i) == InFlight(s, i) {
    }
    forall i | i in s'.jobs ensures JobOk(s', s'.jobs[i]) {
      if i != j {
        assert !InFlight(s, i);
      }
    }
    assert s'.chunks[..|s.chunks|] == s.chunks;
    assert s.history[..job.start] == s.history[..s.fields.upTo] + s.history[s.fields.upTo..job.start];
  }

  lemma LeaveKeepsInv(han: Han, s: State, j: nat)
    requires Inv(s) && j in s.jobs && s.jobs[j].Leaving?
    ensures Inv(Next(han, s, Leave(j)))
  {
    var s' := Next(han, s, Leave(j));
    assert InFlight(s, j);
    forall i ensures !InFlight(s', i) {
      assert i != j && i in s.jobs && InFlight(s, i) ==> false;
    }
    forall i | i in s'.jobs ensures JobOk(s', s'.jobs[i]) {
      if i != j {
        JobStays(s, s', s.jobs[i]);
      }
    }
  }

  lemma PlanKeepsInv(han: Han, s: State, j: nat)
    requires Inv(s) && j in s.jobs && s.jobs[j].Claimed?
    ensures Inv(Next(han, s, Plan(j)))
  {
    var s', job := Next(han, s, Plan(j)), s.jobs[j];
    assert InFlight(s, j) && JobOk(s, job);
    assert job.messages == s.history[..|job.messages|];
    MoveKeepsInv(s, s', j, s'.jobs[j]);
  }

  lemma StepKeepsInv(han: Han, s: State, a: Action)
    requires Inv(s)
    ensures Inv(Next(han, s, a))
  {
    match a
    case Grow(message) => GrowKeepsInv(han, s, message);
    case Call(j, budget) =>
      if j !in s.jobs {
        CallKeepsInv(han, s, j, budget);
      }
    case Plan(j) =>
      if j in s.jobs && s.jobs[j].Claimed? {
        PlanKeepsInv(han, s, j);
      }
    case Answer(j, text) =>
      if j in s.jobs && s.jobs[j].Asking? {
        if text.Some? {
          CommitKeepsInv(han, s, j, text.value);
        } else {
          assert InFlight(s, j);
          MoveKeepsInv(s, Next(han, s, a), j, Leaving);
        }
      }
    case Leave(j) =>
      if j in s.jobs && s.jobs[j].Leaving? {
        LeaveKeepsInv(han, s, j);
      }
  }

  lemma {:induction false} RunKeepsInv(han: Han, actions: seq<Action>)
    ensures Inv(Run(han, actions))
  {
    if actions != [] {
      RunKeepsInv(han, actions[..|actions| - 1]);
      StepKeepsInv(han, Run(han, actions[..|actions| - 1]), actions[|actions| - 1]);
    } else {
      forall j ensures !InFlight(Run(han, actions), j) {
      }
    }
  }

  /** However calls, answers, failures and new messages interleave: the chunks the model answered, put together, are
      exactly the messages up to the index, each covered once and in order; and at most one call is in flight. */
  lemma HistoryIsCoveredOnce(han: Han, actions: seq<Action>, i: nat, j: nat)
    ensures var s := Run(han, actions);
            && s.fields.upTo <= |s.history|
            && Concat(s.chunks) == s.history[..s.fields.upTo]
            && (InFlight(s, i) && InFlight(s, j) ==> i == j)
            && (s.fields.busy <==> exists k :: InFlight(s, k))
  {
    RunKeepsInv(han, actions);
  }

  /** The text the model answered last to a call that was waiting for it; none at first. */
  function LastAnswer(han: Han, actions: seq<Action>): string {
    if actions == [] then ""
    else
      var before, last := actions[..|actions| - 1], actions[|actions| - 1];
      var s := Run(han, before);
      if last.Answer? && last.text.Some? && last.job in s.jobs && s.jobs[last.job].Asking? then last.text.value
      else LastAnswer(han, before)
  }

  /** The summary cached is that answer, with its own estimate beside it. */
  lemma {:induction false} LastAnswerIsCached(han: Han, actions: seq<Action>)
    ensures var fields := Run(han, actions).fields;
            fields.cached == LastAnswer(han, actions) && fields.tokens == Estimate(han, fields.cached)
  {
    if actions != [] {
      LastAnswerIsCached(han, actions[..|actions| - 1]);
    }
  }

  /** A call nobody disturbs, on a free memory, catches up with the history: it hands the model everything up to the
      messages its budget keeps, caches the answer, and leaves the memory free again. */
  lemma UndisturbedCallCatchesUp(han: Han, actions: seq<Action>, j: nat, budget: int, text: string)
    requires !Run(han, actions).fields.busy && j !in Run(han, actions).jobs
    ensures var s := Run(han, actions);
            var s' := Next(han, Next(han, Next(han, Next(han, s, Call(j, budget)), Plan(j)), Answer(j, Some(text))),
                           Leave(j));
            var start := KeptFrom(han, s.history, budget);
            && s'.history == s.history && s'.jobs == s.jobs[j := Gone]
            && (start <= s.fields.upTo ==> s'.fields == s.fields && s'.chunks == s.chunks)
            && (start > s.fields.upTo ==>
                  && s'.fields == Fields(text, start, Estimate(han, text), false)
                  && s'.chunks == s.chunks + [s.history[s.fields.upTo..start]])
  {
    RunKeepsInv(han, actions);
    var s := Run(han, actions);
    var called := Next(han, s, Call(j, budget));
    var planned := Next(han, called, Plan(j));
    var answered := Next(han, planned, Answer(j, Some(text)));
    assert called.jobs[j] == Claimed(s.history, budget);
    assert Next(han, answered, Leave(j)).jobs == s.jobs[j := Gone];
  }

  /** The index, the history and the record of chunks only move forward. */
  predicate Advances(s: State, s': State) {
    s.fields.upTo <= s'.fields.upTo && s.history <= s'.history && s.chunks <= s'.chunks
  }

  lemma StepAdvances(han: Han, s: State, a: Action)
    requires a.Answer? && a.job in s.jobs ==> JobOk(s, s.jobs[a.job])
    ensures Advances(s, Next(han, s, a))
  {
  }

  lemma LastStepAdvances(han: Han, actions: seq<Action>)
    requires actions != []
    ensures Advances(Run(han, actions[..|actions| - 1]), Run(han, actions))
  {
    RunKeepsInv(han, actions[..|actions| - 1]);
    StepAdvances(han, Run(han, actions[..|actions| - 1]), actions[|actions| - 1]);
  }

  /** The index never decreases, and no chunk is ever taken back. */
  lemma {:induction false} IndexNeverDecreases(han: Han, before: seq<Action>, later: seq<Action>)
    ensures Advances(Run(han, before), Run(han, before + later))
    decreases |later|
  {
    if later == [] {
      assert before + later == before;
    } else {
      assert (before + later)[..|before + later| - 1] == before + later[..|later| - 1];
      IndexNeverDecreases(han, before, later[..|later| - 1]);
      LastStepAdvances(han, before + later);
    }
  }

  // ----- the summary beside the working messages -----

  /** Where BuildContext begins the working messages, the prompt and the summary having used `consumed` tokens. */
  function WorkingFrom(han: Han, messages: seq<Message>, budget: int, consumed: nat): nat {
    if budget <= 0 then 0
    else KeptFrom(han, messages, if budget - consumed < 200 then 200 else budget - consumed)
  }

  /** With the summary up to date for a budget, no message falls between it and the working messages if and only
      if what the whole budget keeps also fits in what the prompt and the summary leave of it (200 at least), or
      is the last message alone. */
  lemma NothingFallsBetween(han: Han, messages: seq<Message>, budget: int, consumed: nat)
    requires budget > 0 && messages != []
    ensures var upTo := KeptFrom(han, messages, budget);
            var remaining := if budget - consumed < 200 then 200 else budget - consumed;
            WorkingFrom(han, messages, budget, consumed) <= upTo <==>
            Cost(han, messages[upTo..]) <= remaining || upTo == |messages| - 1
  {
    var upTo := KeptFrom(han, messages, budget);
    var remaining := if budget - consumed < 200 then 200 else budget - consumed;
    LeastFitIsExact(han, messages, remaining, upTo);
  }

  /** Two messages of 102 tokens: a budget of 210 keeps both, the 200 left beside a summary keep one, and the
      first is then in neither. */
  lemma FirstMessageInNeither(han: Han)
    requires !han('a')
    ensures exists messages ::
              && |messages| == 2 && KeptFrom(han, messages, 210) == 0 && WorkingFrom(han, messages, 210, 10) == 1
  {
    var text := seq(392, i => 'a');
    NoHan(han, text);
    var m := Message(true, text);
    assert MessageTokens(han, m) == 102;
    var messages := [m, m];
    assert messages[1..] == [m] && [m][1..] == [];
    assert Cost(han, [m]) == 102 && Cost(han, messages) == 204;
    LeastFitIsExact(han, messages, 200, 0);
    LeastFitIsExact(han, messages, 200, 1);
    assert messages[0..] == messages;
  }

  lemma {:induction false} NoHan(han: Han, text: string)
    requires forall i | 0 <= i < |text| :: !han(text[i])
    ensures HanCount(han, text) == 0
  {
    if text != "" {
      NoHan(han, text[..|text| - 1]);
    }
  }
}
