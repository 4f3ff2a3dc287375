/**
 Token estimation and context trimming (app/engine/tokenizer.py).

 The estimate of a text is its length divided by four plus three. Trimming
 keeps every system message, always the last conversation message, and then
 the longest run of the most recent conversation messages that fits the
 budget left after the system messages.
 */
module Tokenizer {
  import opened Schemas

  /** `count_tokens`: `max(1, len(text) // 4 + 3)`. */
  function CountTokens(text: string): (r: nat)
    ensures r == |text| / 4 + 3
    ensures r >= 3
  {
    Max(1, |text| / 4 + 3)
  }

  function Max(a: int, b: int): int
  {
    if a >= b then a else b
  }

  /** Per-message template overhead used by `count_messages_tokens`. */
  function TemplateOverhead(template: string): nat
  {
    if template == "chatml" then 7
    else if template == "llama3" then 12
    else if template == "alpaca" then 5
    else if template == "vicuna" then 5
    else 5
  }

  /** The content estimates alone, summed. */
  function ContentTokens(messages: seq<Message>): nat
    decreases |messages|
  {
    if |messages| == 0 then 0
    else ContentTokens(messages[..|messages| - 1]) + CountTokens(messages[|messages| - 1].content)
  }

  /** The loop of `count_messages_tokens`: each message adds its estimate plus `overhead`. */
  function SumWithOverhead(messages: seq<Message>, overhead: nat): (r: nat)
    ensures r == ContentTokens(messages) + |messages| * overhead
    decreases |messages|
  {
    if |messages| == 0 then 0
    else
      var init := messages[..|messages| - 1];
      var total := SumWithOverhead(init, overhead) + CountTokens(messages[|messages| - 1].content) + overhead;
      assert |messages| * overhead == |init| * overhead + overhead;
      total
  }

  /**
   `count_messages_tokens`: every message costs its estimate plus the template
   overhead, and one more overhead is added for the assistant prompt.
   */
  function CountMessagesTokens(messages: seq<Message>, template: string): (r: nat)
    ensures r == ContentTokens(messages) + (|messages| + 1) * TemplateOverhead(template)
    ensures r >= 3 * |messages| + TemplateOverhead(template)
  {
    var overhead := TemplateOverhead(template);
    ContentTokensAtLeast(messages);
    SumWithOverhead(messages, overhead) + overhead
  }

  /** Every message's estimate is at least 3. */
  lemma {:induction false} ContentTokensAtLeast(messages: seq<Message>)
    ensures ContentTokens(messages) >= 3 * |messages|
    decreases |messages|
  {
    if |messages| > 0 {
      ContentTokensAtLeast(messages[..|messages| - 1]);
    }
  }

  /** The cost trimming charges for one message: its estimate plus 7, whatever the template. */
  function MessageCost(m: Message): nat
  {
    CountTokens(m.content) + 7
  }

  /** The summed trimming cost of a sequence of messages. */
  function Cost(messages: seq<Message>): nat
    decreases |messages|
  {
    if |messages| == 0 then 0 else MessageCost(messages[0]) + Cost(messages[1..])
  }

  /** `[m for m in messages if m.role == "system"]` */
  function SystemMessages(messages: seq<Message>): seq<Message>
    decreases |messages|
  {
    if |messages| == 0 then []
    else
      var last := messages[|messages| - 1];
      SystemMessages(messages[..|messages| - 1]) + (if last.role == System then [last] else [])
  }

  /** `[m for m in messages if m.role != "system"]` */
  function ConversationMessages(messages: seq<Message>): seq<Message>
    decreases |messages|
  {
    if |messages| == 0 then []
    else
      var last := messages[|messages| - 1];
      ConversationMessages(messages[..|messages| - 1]) + (if last.role != System then [last] else [])
  }

  /**
   The two filters split a conversation by role: the first keeps exactly
   the system messages, the second exactly the others, each in order.
   */
  lemma {:induction false} FilterRoles(messages: seq<Message>)
    ensures forall i :: 0 <= i < |SystemMessages(messages)| ==> SystemMessages(messages)[i].role == System
    ensures forall i :: 0 <= i < |ConversationMessages(messages)| ==> ConversationMessages(messages)[i].role != System
    ensures |SystemMessages(messages)| + |ConversationMessages(messages)| == |messages|
    decreases |messages|
  {
    if |messages| > 0 {
      FilterRoles(messages[..|messages| - 1]);
    }
  }

  /**
   The backwards loop of `estimate_trimmed_messages`. The suffix `conv[i..]`
   is already kept at cost `used`; walking from `conv[i - 1]` towards the
   oldest message, take each one while the running cost stays within
   `available`, and stop at the first that does not fit. Returns where the
   kept suffix starts: it fits, and one message more would not have.
   */
  function KeepFrom(conv: seq<Message>, i: nat, used: int, available: int): (start: nat)
    requires i <= |conv| && used == Cost(conv[i..]) && used <= available
    ensures start <= i
    ensures Cost(conv[start..]) <= available
    ensures start > 0 ==> Cost(conv[start - 1..]) > available
    decreases i
  {
    if i == 0 then 0
    else
      assert conv[i - 1..][1..] == conv[i..];
      if used + MessageCost(conv[i - 1]) <= available then
        KeepFrom(conv, i - 1, used + MessageCost(conv[i - 1]), available)
      else
        i
  }

  /** The budget left once every system message is paid for. */
  function Available(messages: seq<Message>, maxTokens: int): int
  {
    maxTokens - Cost(SystemMessages(messages))
  }

  /**
   `estimate_trimmed_messages`. The result is every system message, in order,
   followed by a contiguous run of the most recent conversation messages that
   ends with the last one; only when the system messages alone use up the
   budget is it the first system message alone (or nothing). The run fits the
   budget left after the system messages unless it is the last message alone.
   */
  function EstimateTrimmedMessages(messages: seq<Message>, maxTokens: int, template: string): (r: seq<Message>)
    ensures |messages| == 0 ==> r == []
    ensures Available(messages, maxTokens) <= 0 ==>
      r == SystemMessages(messages)[..if |SystemMessages(messages)| > 0 then 1 else 0]
    ensures Available(messages, maxTokens) > 0 ==>
      var sys := SystemMessages(messages);
      var conv := ConversationMessages(messages);
      && |sys| <= |r| <= |sys| + |conv|
      && r == sys + conv[|conv| - (|r| - |sys|)..]
      && (|conv| > 0 ==> |r| > |sys|)
      && (|r| - |sys| >= 2 ==> Cost(r[|sys|..]) <= Available(messages, maxTokens))
  {
    if |messages| == 0 then
      assert SystemMessages(messages) == [] && ConversationMessages(messages) == [];
      assert TrimParts([], [], Available(messages, maxTokens)) == [];
      []
    else TrimParts(SystemMessages(messages), ConversationMessages(messages), Available(messages, maxTokens))
  }

  /**
   The trimming decision on the two parts of a conversation and the budget
   left after the system messages.
   */
  function TrimParts(sys: seq<Message>, conv: seq<Message>, available: int): (r: seq<Message>)
    ensures available <= 0 ==> r == sys[..if |sys| > 0 then 1 else 0]
    ensures available > 0 ==>
      && |sys| <= |r| <= |sys| + |conv|
      && r == sys + conv[|conv| - (|r| - |sys|)..]
      && (|conv| > 0 ==> |r| > |sys|)
      && (|r| - |sys| >= 2 ==> Cost(r[|sys|..]) <= available)
  {
    if available <= 0 then
      if |sys| > 0 then sys[..1] else []
    else if |conv| == 0 then
      assert sys + conv[|conv|..] == sys;
      sys
    else
      var start := KeptStart(conv, available);
      var r := sys + conv[start..];
      KeptRunShape(sys, conv, start, available, r);
      r
  }

  /** System messages followed by the run kept from `start` on. */
  lemma KeptRunShape(sys: seq<Message>, conv: seq<Message>, start: nat, available: int, r: seq<Message>)
    requires start < |conv| && (start < |conv| - 1 ==> Cost(conv[start..]) <= available)
    requires r == sys + conv[start..]
    ensures |sys| < |r| <= |sys| + |conv|
    ensures r == sys + conv[|conv| - (|r| - |sys|)..]
    ensures |r| - |sys| >= 2 ==> Cost(r[|sys|..]) <= available
  {
    assert r[|sys|..] == conv[start..];
  }

  /**
   Where the kept run of conversation messages starts. When the last message
   alone exceeds the budget it is kept by itself; otherwise the backwards loop
   decides. Either way the message before the run would not have fitted.
   */
  function KeptStart(conv: seq<Message>, available: int): (start: nat)
    requires |conv| > 0 && available > 0
    ensures start < |conv|
    ensures start < |conv| - 1 ==> Cost(conv[start..]) <= available
    ensures start > 0 ==> Cost(conv[start - 1..]) > available
  {
    var last := conv[|conv| - 1];
    assert conv[|conv| - 1..] == [last];
    if MessageCost(last) > available then
      assert |conv| > 1 ==> conv[|conv| - 2..][1..] == conv[|conv| - 1..];
      |conv| - 1
    else
      KeepFrom(conv, |conv| - 1, MessageCost(last), available)
  }

  /** Appending one message adds its cost. */
  lemma {:induction false} CostSnoc(init: seq<Message>, m: Message)
    ensures Cost(init + [m]) == Cost(init) + MessageCost(m)
    decreases |init|
  {
    if |init| == 0 {
      assert [] + [m] == [m];
    } else {
      assert (init + [m])[1..] == init[1..] + [m];
      CostSnoc(init[1..], m);
    }
  }

  /** A longer suffix costs more: every message costs at least 10. */
  lemma {:induction false} SuffixCostGrows(s: seq<Message>, i: nat, j: nat)
    requires i <= j <= |s|
    ensures Cost(s[i..]) >= Cost(s[j..]) + 10 * (j - i)
    decreases j - i
  {
    if i < j {
      assert s[i..][1..] == s[i + 1..];
      SuffixCostGrows(s, i + 1, j);
    }
  }

  /**
   Maximality of the kept run: every conversation suffix longer than the one
   kept costs more than the available budget. So the loop never skips a
   message to take an older, cheaper one, and the result keeps the longest
   suffix that fits (or just the last message when not even that fits).
   */
  lemma TrimKeepsLongestFittingSuffix(messages: seq<Message>, maxTokens: int, template: string)
    requires Available(messages, maxTokens) > 0
    ensures var r := EstimateTrimmedMessages(messages, maxTokens, template);
            var sys := SystemMessages(messages);
            var conv := ConversationMessages(messages);
            && |sys| <= |r|
            && forall i :: 0 <= i < |conv| - (|r| - |sys|) ==> Cost(conv[i..]) > Available(messages, maxTokens)
  {
    var r := EstimateTrimmedMessages(messages, maxTokens, template);
    var sys := SystemMessages(messages);
    var conv := ConversationMessages(messages);
    var available := Available(messages, maxTokens);
    if |messages| > 0 && |conv| > 0 {
      var start := KeptStart(conv, available);
      assert r == sys + conv[start..];
      OlderSuffixesExceed(conv, start, available);
    }
  }

  /** Once one suffix exceeds the budget, so does every longer one. */
  lemma OlderSuffixesExceed(conv: seq<Message>, start: nat, available: int)
    requires start <= |conv|
    requires start > 0 ==> Cost(conv[start - 1..]) > available
    ensures forall i :: 0 <= i < start ==> Cost(conv[i..]) > available
  {
    forall i | 0 <= i < start
      ensures Cost(conv[i..]) > available
    {
      SuffixCostGrows(conv, i, start - 1);
    }
  }

  /** `template` only feeds a log line: trimming does not depend on it. */
  lemma TrimIgnoresTemplate(messages: seq<Message>, maxTokens: int, t1: string, t2: string)
    ensures EstimateTrimmedMessages(messages, maxTokens, t1) == EstimateTrimmedMessages(messages, maxTokens, t2)
  {
  }

  /** When the last message alone is over the budget, it is kept by itself. */
  lemma TrimOversizedLast(messages: seq<Message>, maxTokens: int, template: string)
    requires Available(messages, maxTokens) > 0
    requires |ConversationMessages(messages)| > 0
    requires var conv := ConversationMessages(messages);
             MessageCost(conv[|conv| - 1]) > Available(messages, maxTokens)
    ensures var conv := ConversationMessages(messages);
            EstimateTrimmedMessages(messages, maxTokens, template) == SystemMessages(messages) + [conv[|conv| - 1]]
  {
    var conv := ConversationMessages(messages);
    assert |messages| > 0;
    assert conv[|conv| - 1..] == [conv[|conv| - 1]];
  }

  /** Both filters distribute over concatenation. */
  lemma {:induction false} SystemMessagesAppend(a: seq<Message>, b: seq<Message>)
    ensures SystemMessages(a + b) == SystemMessages(a) + SystemMessages(b)
    ensures ConversationMessages(a + b) == ConversationMessages(a) + ConversationMessages(b)
    decreases |b|
  {
    if |b| == 0 {
      assert a + b == a;
    } else {
      var init := b[..|b| - 1];
      assert (a + b)[..|a + b| - 1] == a + init;
      SystemMessagesAppend(a, init);
    }
  }

  /** A list of system messages filters to itself and to nothing. */
  lemma {:induction false} FilterAllSystem(s: seq<Message>)
    requires forall i :: 0 <= i < |s| ==> s[i].role == System
    ensures SystemMessages(s) == s && ConversationMessages(s) == []
    decreases |s|
  {
    if |s| > 0 {
      var init := s[..|s| - 1];
      FilterAllSystem(init);
      assert s[|s| - 1].role == System;
      assert init + [s[|s| - 1]] == s;
    }
  }

  /** A list without system messages filters to nothing and to itself. */
  lemma {:induction false} FilterNoSystem(s: seq<Message>)
    requires forall i :: 0 <= i < |s| ==> s[i].role != System
    ensures SystemMessages(s) == [] && ConversationMessages(s) == s
    decreases |s|
  {
    if |s| > 0 {
      var init := s[..|s| - 1];
      FilterNoSystem(init);
      assert s[|s| - 1].role != System;
      assert init + [s[|s| - 1]] == s;
    }
  }

  /** The backwards loop takes everything when everything fits. */
  lemma {:induction false} KeepFromAllFitting(conv: seq<Message>, i: nat, available: int)
    requires i <= |conv| && Cost(conv) <= available && Cost(conv[i..]) <= available
    ensures KeepFrom(conv, i, Cost(conv[i..]), available) == 0
    decreases i
  {
    assert conv[0..] == conv;
    if i > 0 {
      assert conv[i - 1..][1..] == conv[i..];
      SuffixCostGrows(conv, 0, i - 1);
      KeepFromAllFitting(conv, i - 1, available);
    }
  }

  /** Running the start computation on the run it kept keeps all of it. */
  lemma KeptStartStable(conv: seq<Message>, available: int)
    requires |conv| > 0 && available > 0
    ensures var start := KeptStart(conv, available);
            KeptStart(conv[start..], available) == 0
  {
    var start := KeptStart(conv, available);
    var run := conv[start..];
    var last := conv[|conv| - 1];
    assert run[|run| - 1] == last;
    if |run| > 1 {
      assert MessageCost(last) <= available by {
        assert conv[|conv| - 1..] == [last];
      }
      RunFitsEntirely(run, available);
    }
  }

  /** A run of several messages that fits the budget is kept whole. */
  lemma RunFitsEntirely(run: seq<Message>, available: int)
    requires |run| > 1 && available > 0 && Cost(run) <= available
    ensures KeptStart(run, available) == 0
  {
    var last := run[|run| - 1];
    var tail := run[|run| - 1..];
    assert tail == [last];
    assert Cost(tail) == MessageCost(last) by {
      assert tail[1..] == [];
    }
    SuffixCostGrows(run, 0, |run| - 1);
    assert run[0..] == run;
    assert MessageCost(last) <= available;
    KeepFromAllFitting(run, |run| - 1, available);
    assert KeepFrom(run, |run| - 1, MessageCost(last), available) == 0;
  }

  /** Trimming an already trimmed conversation changes nothing. */
  lemma TrimIdempotent(messages: seq<Message>, maxTokens: int, template: string)
    ensures var once := EstimateTrimmedMessages(messages, maxTokens, template);
            EstimateTrimmedMessages(once, maxTokens, template) == once
  {
    if |messages| > 0 {
      if Available(messages, maxTokens) <= 0 {
        var sys := SystemMessages(messages);
        var once := if |sys| > 0 then sys[..1] else [];
        FilterRoles(messages);
        FilterAllSystem(once);
        assert once[..if |once| > 0 then 1 else 0] == once;
        assert once + [] == once;
      } else {
        TrimIdempotentWithinBudget(messages, maxTokens, template);
      }
    }
  }

  /** Idempotence when the system messages leave part of the budget. */
  lemma TrimIdempotentWithinBudget(messages: seq<Message>, maxTokens: int, template: string)
    requires |messages| > 0 && Available(messages, maxTokens) > 0
    ensures var once := EstimateTrimmedMessages(messages, maxTokens, template);
            EstimateTrimmedMessages(once, maxTokens, template) == once
  {
    var sys := SystemMessages(messages);
    var conv := ConversationMessages(messages);
    var available := Available(messages, maxTokens);
    TrimmedShape(messages, maxTokens, template);
    if |conv| == 0 {
      FilteredParts(messages, []);
      Retrim(sys + [], maxTokens, template, sys, []);
      assert sys + [] == sys;
    } else {
      var run := conv[KeptStart(conv, available)..];
      assert run == conv[|conv| - |run|..];
      FilteredParts(messages, run);
      Retrim(sys + run, maxTokens, template, sys, run);
      RunStable(sys, conv, available);
    }
  }

  /** Trimming a conversation whose parts are known decides on those parts. */
  lemma Retrim(once: seq<Message>, maxTokens: int, template: string, sys: seq<Message>, run: seq<Message>)
    requires SystemMessages(once) == sys && ConversationMessages(once) == run
    ensures |once| > 0 ==> EstimateTrimmedMessages(once, maxTokens, template) == TrimParts(sys, run, maxTokens - Cost(sys))
  {
  }

  /** The decision applied to the run it kept keeps all of it again. */
  lemma RunStable(sys: seq<Message>, conv: seq<Message>, available: int)
    requires |conv| > 0 && available > 0
    ensures var run := conv[KeptStart(conv, available)..];
            TrimParts(sys, run, available) == sys + run
  {
    var run := conv[KeptStart(conv, available)..];
    KeptStartStable(conv, available);
    assert run[0..] == run;
  }

  /** Trimming within budget keeps the system messages and the run `KeptStart` picks. */
  lemma TrimmedShape(messages: seq<Message>, maxTokens: int, template: string)
    requires |messages| > 0 && Available(messages, maxTokens) > 0
    ensures var conv := ConversationMessages(messages);
            var run := if |conv| == 0 then [] else conv[KeptStart(conv, Available(messages, maxTokens))..];
            EstimateTrimmedMessages(messages, maxTokens, template) == SystemMessages(messages) + run
  {
  }

  /**
   The system messages of a conversation followed by a suffix of its other
   messages filter back into the two parts.
   */
  lemma FilteredParts(messages: seq<Message>, run: seq<Message>)
    requires var conv := ConversationMessages(messages);
             |run| <= |conv| && run == conv[|conv| - |run|..]
    ensures SystemMessages(SystemMessages(messages) + run) == SystemMessages(messages)
    ensures ConversationMessages(SystemMessages(messages) + run) == run
  {
    var conv := ConversationMessages(messages);
    FilterRoles(messages);
    SuffixRoles(conv, |conv| - |run|);
    SplitFiltered(SystemMessages(messages), run);
  }

  /** A suffix of conversation messages holds conversation messages only. */
  lemma SuffixRoles(conv: seq<Message>, k: nat)
    requires k <= |conv| && forall i :: 0 <= i < |conv| ==> conv[i].role != System
    ensures forall i :: 0 <= i < |conv[k..]| ==> conv[k..][i].role != System
  {
    forall i | 0 <= i < |conv[k..]|
      ensures conv[k..][i].role != System
    {
      assert conv[k..][i] == conv[k + i];
    }
  }

  /** System messages followed by conversation messages filter back into the two parts. */
  lemma SplitFiltered(sys: seq<Message>, run: seq<Message>)
    requires forall i :: 0 <= i < |sys| ==> sys[i].role == System
    requires forall i :: 0 <= i < |run| ==> run[i].role != System
    ensures SystemMessages(sys + run) == sys && ConversationMessages(sys + run) == run
  {
    FilterAllSystem(sys);
    FilterNoSystem(run);
    SystemMessagesAppend(sys, run);
    assert sys + [] == sys && [] + run == run;
  }
}
