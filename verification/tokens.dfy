/** Token estimates and truncation to a token budget. */
module Tokens {
  datatype Message = Message(isUser: bool, content: string)

  const PER_MESSAGE_OVERHEAD := 4

  /** Which characters are Han is given by the Unicode tables; it is a parameter here. */
  type Han = char -> bool

  function HanCount(han: Han, text: string): nat {
    if text == "" then 0 else HanCount(han, text[..|text| - 1]) + if han(text[|text| - 1]) then 1 else 0
  }

  /** Two tokens for a Han character, one for every four others, rounded up. */
  function Estimate(han: Han, text: string): nat {
    var h := HanCount(han, text);
    HanCountFits(han, text);
    2 * h + (|text| - h + 3) / 4
  }

  lemma {:induction false} HanCountFits(han: Han, text: string)
    ensures HanCount(han, text) <= |text|
  {
    if text != "" {
      HanCountFits(han, text[..|text| - 1]);
    }
  }

  method EstimateTokenCount(han: Han, text: string) returns (tokens: nat)
    ensures tokens == Estimate(han, text)
  {
    if |text| == 0 {
      return 0;
    }
    var hanTokens, others := 0, 0;
    for i := 0 to |text|
      invariant hanTokens == 2 * HanCount(han, text[..i])
      invariant others == i - HanCount(han, text[..i])
    {
      assert text[..i + 1][..i] == text[..i];
      if han(text[i]) {
        hanTokens := hanTokens + 2;
      } else {
        others := others + 1;
      }
    }
    assert text[..|text|] == text;
    HanCountFits(han, text);
    return hanTokens + (others + 3) / 4;
  }

  lemma {:induction false} HanCountAppend(han: Han, a: string, b: string)
    ensures HanCount(han, a + b) == HanCount(han, a) + HanCount(han, b)
  {
    if b == "" {
      assert a + b == a;
    } else {
      HanCountAppend(han, a, b[..|b| - 1]);
      assert (a + b)[..|a + b| - 1] == a + b[..|b| - 1];
    }
  }

  /** Estimates are subadditive under concatenation, and never by more than one token. */
  lemma EstimateSubadditive(han: Han, a: string, b: string)
    ensures Estimate(han, a + b) <= Estimate(han, a) + Estimate(han, b) <= Estimate(han, a + b) + 1
  {
    HanCountAppend(han, a, b);
    HanCountFits(han, a);
    HanCountFits(han, b);
  }

  function HanPositions(han: Han, text: string): set<nat> {
    set i: nat | i < |text| && han(text[i])
  }

  lemma {:induction false} HanCountIsCardinality(han: Han, text: string)
    ensures HanCount(han, text) == |HanPositions(han, text)|
  {
    if text != "" {
      var n := |text| - 1;
      HanCountIsCardinality(han, text[..n]);
      assert HanPositions(han, text) == HanPositions(han, text[..n]) + if han(text[n]) then {n} else {};
    }
  }

  /** Beyond two tokens for each place that holds a Han character, an estimate is the least number of tokens of four
      characters that covers the others. */
  lemma EstimateExactly(han: Han, text: string)
    ensures var h := |HanPositions(han, text)|;
            var others, rest := |text| - h, Estimate(han, text) - 2 * h;
            4 * rest >= others > 4 * (rest - 1)
  {
    HanCountIsCardinality(han, text);
    HanCountFits(han, text);
  }

  function MessageTokens(han: Han, m: Message): nat {
    Estimate(han, m.content) + PER_MESSAGE_OVERHEAD
  }

  function Cost(han: Han, messages: seq<Message>): nat {
    if messages == [] then 0 else MessageTokens(han, messages[0]) + Cost(han, messages[1..])
  }

  /** Each message costs four tokens more than its text: four when it is empty, six for one Han character, five for one
      other. */
  lemma SmallCosts(han: Han, c: char, isUser: bool)
    ensures Cost(han, []) == 0 && Cost(han, [Message(isUser, "")]) == 4
    ensures Cost(han, [Message(isUser, [c])]) == if han(c) then 6 else 5
  {
    assert [c][..0] == "";
    assert HanCount(han, [c]) == if han(c) then 1 else 0;
  }

  /** Where the longest suffix that fits begins, searched from the oldest message on. */
  function LeastFit(han: Han, messages: seq<Message>, budget: nat): (k: nat)
    ensures k <= |messages|
  {
    if messages == [] || Cost(han, messages) <= budget then 0 else 1 + LeastFit(han, messages[1..], budget)
  }

  /** The first message kept. */
  function KeptFrom(han: Han, messages: seq<Message>, budget: int): (k: nat)
    ensures k <= |messages| && (messages != [] ==> k < |messages|)
  {
    if budget <= 0 || messages == [] then 0
    else
      var k := LeastFit(han, messages, budget);
      if k == |messages| then k - 1 else k
  }

  lemma {:induction false} SuffixCosts(han: Han, messages: seq<Message>, i: nat, j: nat)
    requires i <= j <= |messages|
    ensures Cost(han, messages[i..]) >= Cost(han, messages[j..])
    ensures i < j ==> Cost(han, messages[i..]) > Cost(han, messages[j..])
    decreases j - i
  {
    if i < j {
      SuffixCosts(han, messages, i + 1, j);
      assert messages[i..][1..] == messages[i + 1..];
    }
  }

  /** A suffix fits if and only if it is no longer than the one from LeastFit on. */
  lemma {:induction false} LeastFitIsExact(han: Han, messages: seq<Message>, budget: nat, j: nat)
    requires j <= |messages|
    ensures Cost(han, messages[j..]) <= budget <==> LeastFit(han, messages, budget) <= j
    decreases |messages|
  {
    if messages == [] {
    } else if Cost(han, messages) <= budget {
      SuffixCosts(han, messages, 0, j);
      assert messages[0..] == messages;
    } else if j == 0 {
      assert messages[0..] == messages;
    } else {
      LeastFitIsExact(han, messages[1..], budget, j - 1);
      assert messages[1..][j - 1..] == messages[j..];
    }
  }

  /** The greedy scan from the newest message back keeps the longest suffix that fits, or the last message alone. */
  method TruncateByTokenBudget(han: Han, messages: seq<Message>, budget: int) returns (kept: seq<Message>)
    ensures kept == messages[KeptFrom(han, messages, budget)..]
  {
    if budget <= 0 || |messages| == 0 {
      return messages;
    }
    var used, start, i := 0, |messages|, |messages| - 1;
    while i >= 0
      invariant -1 <= i < |messages| && start == i + 1
      invariant used == Cost(han, messages[start..]) <= budget
    {
      assert messages[i..] == [messages[i]] + messages[start..];
      var tokens := EstimateTokenCount(han, messages[i].content);
      var cost := tokens + PER_MESSAGE_OVERHEAD;
      if used + cost > budget {
        LeastFitIsExact(han, messages, budget, i);
        break;
      }
      used := used + cost;
      start := i;
      i := i - 1;
    }
    LeastFitIsExact(han, messages, budget, start);
    if start >= |messages| {
      start := |messages| - 1;
    }
    return messages[start..];
  }

  /** Optimal: what is kept fits unless it is the last message alone, and nothing longer fits. */
  lemma TruncationIsOptimal(han: Han, messages: seq<Message>, budget: int, j: nat)
    requires budget > 0 && messages != [] && j < |messages|
    ensures var k := KeptFrom(han, messages, budget);
            && (j < k ==> Cost(han, messages[j..]) > budget)
            && (Cost(han, messages[k..]) <= budget || (k == |messages| - 1 && MessageTokens(han, messages[k]) > budget))
  {
    var k := KeptFrom(han, messages, budget);
    LeastFitIsExact(han, messages, budget, j);
    LeastFitIsExact(han, messages, budget, k);
    assert messages[k..] == [messages[k]] + messages[k + 1..];
  }

  /** A larger positive budget never keeps fewer messages. */
  lemma LargerBudgetKeepsMore(han: Han, messages: seq<Message>, small: int, large: int)
    requires 0 < small <= large
    ensures KeptFrom(han, messages, large) <= KeptFrom(han, messages, small)
  {
    if messages != [] {
      LeastFitIsExact(han, messages, large, LeastFit(han, messages, small));
      LeastFitIsExact(han, messages, small, LeastFit(han, messages, small));
    }
  }

  /** More messages never bring an older one back: the cut only moves forward as the history grows. */
  lemma LongerHistoryCutsLater(han: Han, messages: seq<Message>, more: seq<Message>, budget: int)
    requires messages != []
    ensures KeptFrom(han, messages, budget) <= KeptFrom(han, messages + more, budget)
  {
    if budget > 0 {
      var k := LeastFit(han, messages + more, budget);
      if k < |messages| {
        LeastFitIsExact(han, messages + more, budget, k);
        assert (messages + more)[k..] == messages[k..] + more;
        CostAppend(han, messages[k..], more);
        LeastFitIsExact(han, messages, budget, k);
      }
    }
  }

  lemma {:induction false} CostAppend(han: Han, a: seq<Message>, b: seq<Message>)
    ensures Cost(han, a + b) == Cost(han, a) + Cost(han, b)
  {
    if a == [] {
      assert a + b == b;
    } else {
      CostAppend(han, a[1..], b);
      assert (a + b)[1..] == a[1..] + b;
    }
  }
}
