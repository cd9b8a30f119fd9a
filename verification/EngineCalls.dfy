/** The agent loop, message by message. */
module EngineCalls {
  // What a run of the loop (internal/engine/engine.go) asks the model and what it
  // leaves behind, told by the messages themselves and without the functions of
  // EngineRuns.

  import opened Wrappers
  import opened Conversation
  import opened Sequences
  import opened EngineRuns
  import Text

  predicate AsksTools(r: Outcome)
  {
    r.Reply? && r.stop == "tool_use" && exists i :: 0 <= i < |r.content| && r.content[i].ToolUse?
  }

  /** A reply with tool calls and the results that answer them. */
  ghost predicate GoesOn(m: seq<Message>, r: Outcome, next: seq<Message>)
  {
    AsksTools(r) && exists at, results ::
      && ResultsOf(r.content, at, r.outputs, results)
      && next == m + [Message("assistant", r.content), Message("user", results)]
  }

  /** A reply after which the budget is spent, and the prompt to wrap up. */
  ghost predicate WrapsUp(m: seq<Message>, r: Outcome, next: seq<Message>)
  {
    && r.Reply? && r.stop != "tool_use" && r.limit.Some?
    && next == m + [Message("assistant", r.content), Message("user", [Block.Text(r.limit.value)])]
  }

  /** The model calls of a run and its messages at the end.  Each call but the first
      has the messages of the one before and what its reply led to; the last one may be
      to wrap up.  A reply to it is the last message. */
  ghost predicate RunOf(start: seq<Message>, script: Script, calls: seq<seq<Message>>, wrapped: bool,
                        after: seq<Message>)
  {
    var n := |calls| - 1;
    && 0 <= n <= |script| && calls[0] == start
    && (forall i :: 0 <= i < (if wrapped then n - 1 else n) ==> GoesOn(calls[i], script[i], calls[i + 1]))
    && (wrapped ==> n > 0 && WrapsUp(calls[n - 1], script[n - 1], calls[n]))
    && if n < |script| && script[n].Reply? then
         && after == calls[n] + [Message("assistant", script[n].content)]
         && (wrapped || (!AsksTools(script[n]) && (script[n].stop == "tool_use" || script[n].limit.None?)))
       else after == calls[n]
  }

  /** How many of the model's answers were replies, if this many calls came before the
      last one. */
  function Replied(script: Script, n: nat): (k: nat)
    ensures k <= n + 1
  {
    if n < |script| && script[n].Reply? then n + 1 else n
  }

  function Total(script: Script, count: Outcome -> int): int
  {
    if |script| == 0 then 0 else count(script[0]) + Total(script[1..], count)
  }

  function UsageOf(r: Outcome): Usage { if r.Reply? then r.usage else Usage(0, 0, 0, 0) }

  function InputOf(r: Outcome): int { UsageOf(r).input }

  function OutputOf(r: Outcome): int { UsageOf(r).output }

  function CreationOf(r: Outcome): int { UsageOf(r).cacheCreation }

  function ReadOf(r: Outcome): int { UsageOf(r).cacheRead }

  /** One turn for each reply, and its tokens of each kind. */
  ghost predicate Charges(s: State, t: State, replies: Script)
  {
    && t.turns == s.turns + |replies|
    && t.usage.input == s.usage.input + Total(replies, InputOf)
    && t.usage.output == s.usage.output + Total(replies, OutputOf)
    && t.usage.cacheCreation == s.usage.cacheCreation + Total(replies, CreationOf)
    && t.usage.cacheRead == s.usage.cacheRead + Total(replies, ReadOf)
  }

  ghost predicate RanWith(s: State, t: State, script: Script, calls: seq<seq<Message>>, wrapped: bool)
  {
    && t.calls == s.calls + calls && RunOf(s.messages, script, calls, wrapped, t.messages)
    && Charges(s, t, script[..Replied(script, |calls| - 1)])
  }

  /** From `s` a run of the loop led to `t`. */
  ghost predicate Ran(s: State, t: State, script: Script)
  {
    exists calls, wrapped :: RanWith(s, t, script, calls, wrapped)
  }

  lemma ChargesFirst(s: State, next: State, t: State, script: Script, k: nat)
    requires k < |script| && script[0].Reply? && Charges(next, t, script[1..][..k])
    requires next.turns == s.turns + 1 && next.usage == Add(s.usage, script[0].usage)
    ensures Charges(s, t, script[..k + 1])
  {
    assert script[..k + 1][1..] == script[1..][..k];
  }

  lemma ChargesOne(s: State, r: Outcome)
    requires r.Reply?
    ensures Charges(s, Answered(Called(s), r), [r])
  {
    assert [r][1..] == [];
  }

  lemma RunPrepended(start: seq<Message>, script: Script, next: seq<Message>, rest: seq<seq<Message>>, wrapped: bool,
                     after: seq<Message>)
    requires |script| > 0 && GoesOn(start, script[0], next) && RunOf(next, script[1..], rest, wrapped, after)
    ensures RunOf(start, script, [start] + rest, wrapped, after)
  {
    var calls, later := [start] + rest, script[1..];
    var n := |calls| - 1;
    assert n < |script| ==> script[n] == later[n - 1];
    assert wrapped ==> script[n - 1] == later[n - 2];
    forall i | 0 <= i < (if wrapped then n - 1 else n) ensures GoesOn(calls[i], script[i], calls[i + 1]) {
      if i > 0 {
        assert GoesOn(rest[i - 1], later[i - 1], rest[i - 1 + 1]);
      }
    }
  }

  lemma ResultsThere(r: Outcome)
    requires r.Reply? && r.stop == TOOL_USE
    ensures AsksTools(r) <==> |Results(r.content, r.outputs)| > 0
  {
    var at := ResultsAreOf(r.content, r.outputs);
    if AsksTools(r) {
      var i: nat :| i < |r.content| && r.content[i].ToolUse?;
      assert IsCall(r.content[i]) && i in at;
    } else {
      assert |at| > 0 ==> IsCall(r.content[at[0]]);
    }
  }

  lemma AnsweredGoesOn(s: State, r: Outcome)
    requires r.Reply? && r.stop == TOOL_USE && |Results(r.content, r.outputs)| > 0
    ensures GoesOn(s.messages, r, Resulted(Answered(Called(s), r), Results(r.content, r.outputs)).messages)
  {
    var at := ResultsAreOf(r.content, r.outputs);
    ResultsThere(r);
    var results := Results(r.content, r.outputs);
    assert s.messages + [Message(ASSISTANT, r.content)] + [Message(USER, results)] ==
           s.messages + [Message(ASSISTANT, r.content), Message(USER, results)];
  }

  lemma CallsPrepended(s: State, t: State, first: seq<Message>, rest: seq<seq<Message>>, all: seq<seq<Message>>)
    requires t.calls == s.calls + [first] && all == t.calls + rest
    ensures all == s.calls + ([first] + rest)
  {
  }

  lemma RunEnds(s: State, script: Script)
    requires |script| == 0 || script[0].Failure? || script[0].stop != TOOL_USE || !AsksTools(script[0])
    requires |script| > 0 && script[0].Reply? && script[0].stop != TOOL_USE ==> script[0].limit.None?
    ensures RanWith(s, AfterLoop(s, script), script, [s.messages], false)
  {
    var c := Called(s);
    assert script[..0] == [];
    assert Charges(s, c, []);
    if |script| > 0 && script[0].Reply? {
      ChargesOne(s, script[0]);
      assert script[..1] == [script[0]];
      if script[0].stop == TOOL_USE {
        ResultsThere(script[0]);
      }
    }
  }

  lemma RunWrapsUp(s: State, script: Script)
    requires |script| > 0 && script[0].Reply? && script[0].stop != TOOL_USE && script[0].limit.Some?
    ensures var r := script[0];
            var next := s.messages + [Message("assistant", r.content), Message("user", [Block.Text(r.limit.value)])];
            RanWith(s, AfterLoop(s, script), script, [s.messages, next], true)
  {
    var r := script[0];
    var a := Answered(Called(s), r);
    var next := s.messages + [Message(ASSISTANT, r.content), UserText(r.limit.value)];
    assert s.messages + [Message(ASSISTANT, r.content)] + [UserText(r.limit.value)] == next;
    assert s.calls + [s.messages] + [next] == s.calls + [s.messages, next];
    WrapUpCharges(a, r.limit.value, script[1..]);
    ChargesFirst(s, a, AfterLoop(s, script), script, Replied(script[1..], 0));
  }

  lemma WrapUpCharges(s: State, limit: string, script: Script)
    ensures Charges(s, WrapUp(s, limit, script), script[..Replied(script, 0)])
  {
    var c := Called(Prompted(s, limit));
    if |script| > 0 && script[0].Reply? {
      ChargesOne(Prompted(s, limit), script[0]);
      assert script[..1] == [script[0]];
    } else {
      assert script[..0] == [];
    }
  }

  lemma RanFirst(s: State, next: State, t: State, script: Script, rest: seq<seq<Message>>, wrapped: bool)
    requires |script| > 0 && GoesOn(s.messages, script[0], next.messages) && RanWith(next, t, script[1..], rest, wrapped)
    requires next.calls == s.calls + [s.messages]
    requires next.turns == s.turns + 1 && next.usage == Add(s.usage, script[0].usage)
    ensures RanWith(s, t, script, [s.messages] + rest, wrapped)
  {
    RunPrepended(s.messages, script, next.messages, rest, wrapped, t.messages);
    CallsPrepended(s, next, s.messages, rest, t.calls);
    ChargesFirst(s, next, t, script, Replied(script[1..], |rest| - 1));
  }

  /** Whatever the script, the loop makes a run of it. */
  lemma {:induction false} RunIsOf(s: State, script: Script)
    ensures Ran(s, AfterLoop(s, script), script)
    decreases |script|
  {
    var t := AfterLoop(s, script);
    if |script| == 0 || script[0].Failure? {
      RunEnds(s, script);
    } else {
      var r := script[0];
      if r.stop == TOOL_USE && AsksTools(r) {
        ResultsThere(r);
        var next := Resulted(Answered(Called(s), r), Results(r.content, r.outputs));
        AnsweredGoesOn(s, r);
        RunIsOf(next, script[1..]);
        var rest, wrapped :| RanWith(next, t, script[1..], rest, wrapped);
        RanFirst(s, next, t, script, rest, wrapped);
      } else if r.stop != TOOL_USE && r.limit.Some? {
        RunWrapsUp(s, script);
      } else {
        RunEnds(s, script);
      }
    }
  }

  // ------------------------------------------------- before and after a run

  /** All that the blocks of a conversation hold, as one text. */
  function Written(b: Block): string
  {
    match b
    case Text(text) => text
    case Thinking(text) => text
    case ToolUse(_, _, input) => input.text
    case ToolResult(_, content, _) => content
    case Other(_) => ""
  }

  function ContentOf(m: Message): seq<Block> { m.content }

  /** `n` is the length of all of them together. */
  ghost predicate Measures(messages: seq<Message>, n: nat)
  {
    exists blocks, text :: Gathered([], messages, ContentOf, blocks) && Gathered("", blocks, Written, text) && n == |text|
  }

  function TextIn(b: Block): string { if b.Text? then b.text else "" }

  /** A reply's text blocks, put together and trimmed. */
  ghost predicate Summarizes(content: seq<Block>, sum: string)
  {
    exists text :: Gathered("", content, TextIn, text) && sum == Text.TrimSpace(text)
  }

  lemma {:induction false} TextGathered(content: seq<Block>)
    ensures Gathered("", content, TextIn, TextOf(content))
  {
    if |content| == 0 {
      GatheredNone("", TextIn);
    } else {
      var n := |content| - 1;
      TextGathered(content[..n]);
      GatheredMore("", content[..n], TextIn, TextOf(content[..n]), content[n]);
      assert content == content[..n] + [content[n]];
    }
  }

  lemma {:induction false} CharsGathered(content: seq<Block>) returns (text: string)
    ensures Gathered("", content, Written, text) && ContentChars(content) == |text|
  {
    if |content| == 0 {
      text := "";
      GatheredNone("", Written);
    } else {
      var n := |content| - 1;
      var before := CharsGathered(content[..n]);
      GatheredMore("", content[..n], Written, before, content[n]);
      text := before + Written(content[n]);
      assert content == content[..n] + [content[n]];
    }
  }

  lemma {:induction false} CharsConcat(a: seq<Block>, b: seq<Block>)
    ensures ContentChars(a + b) == ContentChars(a) + ContentChars(b)
  {
    if |b| == 0 {
      assert a + b == a;
    } else {
      CharsConcat(a, b[..|b| - 1]);
      assert (a + b)[..|a + b| - 1] == a + b[..|b| - 1];
    }
  }

  lemma {:induction false} BlocksGathered(messages: seq<Message>) returns (blocks: seq<Block>)
    ensures Gathered([], messages, ContentOf, blocks) && ContextChars(messages) == ContentChars(blocks)
  {
    if |messages| == 0 {
      blocks := [];
      GatheredNone([], ContentOf);
    } else {
      var n := |messages| - 1;
      var before := BlocksGathered(messages[..n]);
      GatheredMore([], messages[..n], ContentOf, before, messages[n]);
      CharsConcat(before, messages[n].content);
      blocks := before + messages[n].content;
      assert messages == messages[..n] + [messages[n]];
    }
  }

  lemma ContextMeasured(messages: seq<Message>)
    ensures Measures(messages, ContextChars(messages))
  {
    var blocks := BlocksGathered(messages);
    var text := CharsGathered(blocks);
  }

  /** Compacting calls the model once with the messages and a prompt.  Unless that
      fails or says nothing, the summary takes the place of them all. */
  ghost predicate SummaryReplaces(s: State, t: State, outcome: Outcome, settings: Settings)
  {
    if s.messages == [] then t == s
    else
      && t.calls == s.calls + [s.messages + [Message("user", [Block.Text(settings.compactPrompt)])]]
      && Charges(s, t, if outcome.Reply? then [outcome] else [])
      && if outcome.Reply? && !Summarizes(outcome.content, "") then
           exists sum :: Summarizes(outcome.content, sum)
                         && t.messages == [Message("user", [Block.Text(settings.summaryPrefix + sum)])]
         else t.messages == s.messages
  }

  lemma GatheredOnce(content: seq<Block>, a: string, b: string)
    requires Gathered("", content, TextIn, a) && Gathered("", content, TextIn, b)
    ensures a == b
  {
    var p: seq<string> :|
      |p| == |content| && (forall i :: 0 <= i < |content| ==> p[i] == TextIn(content[i])) && a == "" + Concat(p);
    var q: seq<string> :|
      |q| == |content| && (forall i :: 0 <= i < |content| ==> q[i] == TextIn(content[i])) && b == "" + Concat(q);
    assert p == q;
  }

  lemma SummaryIs(content: seq<Block>)
    ensures forall sum :: Summarizes(content, sum) <==> sum == SummaryOf(content)
  {
    TextGathered(content);
    forall sum | Summarizes(content, sum) ensures sum == SummaryOf(content) {
      var text :| Gathered("", content, TextIn, text) && sum == Text.TrimSpace(text);
      GatheredOnce(content, text, TextOf(content));
    }
  }

  lemma CompactedCompacts(s: State, outcome: Outcome, settings: Settings)
    ensures SummaryReplaces(s, Compacted(s, outcome, settings), outcome, settings)
  {
    if outcome.Reply? {
      SummaryIs(outcome.content);
      ChargesOne(s, outcome);
      assert Summarizes(outcome.content, SummaryOf(outcome.content));
    }
  }

  /** What a run starts from. */
  ghost predicate Alike(a: State, b: State)
  {
    a.messages == b.messages && a.calls == b.calls && a.turns == b.turns && a.usage == b.usage
  }

  ghost predicate Submits(s: State, t: State, op: Op, settings: Settings, n: nat, compacted: State, start: State)
    requires op.Submit?
  {
    && Measures(s.messages, n)
    && (if settings.autoCompactChars > 0 && n > settings.autoCompactChars
        then SummaryReplaces(s, compacted, op.summary, settings) else compacted == s)
    && Alike(start, compacted.(messages := compacted.messages
                                           + (if op.goal.Some? then [Message("user", [Block.Text(op.goal.value)])] else [])
                                           + [Message("user", [Block.Text(op.input)])]))
    && Ran(start, t, op.script)
  }

  /** Submit compacts if the messages are longer than a positive limit; then come the
      prompt of an active goal and the input, and then a run. */
  ghost predicate Submitted(s: State, t: State, op: Op, settings: Settings)
    requires op.Submit?
  {
    exists n, compacted, start :: Submits(s, t, op, settings, n, compacted, start)
  }

  lemma SubmitIs(s: State, op: Op, settings: Settings)
    requires op.Submit?
    ensures Submitted(s, AfterOp(s, op, settings), op, settings)
  {
    var n := ContextChars(s.messages);
    ContextMeasured(s.messages);
    CompactedCompacts(s, op.summary, settings);
    var compacted := if TooLong(s, settings) then Compacted(s, op.summary, settings) else s;
    var goaled := if op.goal.Some? then SayHidden(compacted, UserText(op.goal.value)) else compacted;
    NothingAdded(compacted.messages);
    var start := Prompted(goaled, op.input);
    RunIsOf(start, op.script);
    assert Submits(s, AfterOp(s, op, settings), op, settings, n, compacted, start);
  }
}
