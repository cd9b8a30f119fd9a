/** The agent loop (internal/engine/engine.go) as a function. */
module EngineRuns {
  // It is a function of what the model, the tools and the goal store answer; any
  // finite run is some script of answers, and a stream past its end fails.

  import opened Wrappers
  import opened Conversation
  import opened Transcript
  import opened Sequences
  import Text
  import Decimal

  const MAX_OUTPUT := 200_000

  /** Prompts and the threshold for compacting before a turn, off when not positive. */
  datatype Settings = Settings(autoCompactChars: int, compactPrompt: string, summaryPrefix: string, extractPrompt: string)

  datatype Output = Output(text: string, isError: bool)

  /** What one call of the model brings: an error; or a reply, together with what
      its tool calls put out in turn (permission refusals included) and the prompt
      to wrap up with, if the goal store then says the budget is spent. */
  datatype Outcome =
    | Failure
    | Reply(content: seq<Block>, stop: string, usage: Usage, outputs: seq<Output>, limit: Option<string>)

  type Script = seq<Outcome>

  /** `hidden` marks the messages the transcript is not told of; `calls` are the
      messages of every model call; `recorded` is what the transcript loads to. */
  datatype State = State(
    messages: seq<Message>, hidden: seq<bool>, turns: int, usage: Usage,
    calls: seq<seq<Message>>, recorded: seq<Message>, compacted: bool)

  // ------------------------------------------------------------- tool calls

  function Truncated(s: string): string
  {
    if |s| <= MAX_OUTPUT then s
    else s[..MAX_OUTPUT] + "\n[truncated " + Decimal.Itoa(|s| - MAX_OUTPUT) + " bytes]"
  }

  /** One result per call, with the call's id. */
  function Results(content: seq<Block>, outputs: seq<Output>): seq<Block>
  {
    if |content| == 0 then []
    else
      var before, last := Results(content[..|content| - 1], outputs), content[|content| - 1];
      if !last.ToolUse? then before else before + [ResultOf(last.id, outputs, |before|)]
  }

  function ResultOf(id: string, outputs: seq<Output>, k: nat): Block
  {
    var out := if k < |outputs| then outputs[k] else Output("", false);
    ToolResult(id, Truncated(out.text), out.isError)
  }

  lemma {:induction false} ResultsAnswerCalls(content: seq<Block>, outputs: seq<Output>)
    ensures OnlyResults(Results(content, outputs))
    ensures AnsweredIds(Results(content, outputs)) == CallIds(content)
  {
    if |content| > 0 {
      var before := content[..|content| - 1];
      ResultsAnswerCalls(before, outputs);
      var earlier := Results(before, outputs);
      if content[|content| - 1].ToolUse? {
        assert Results(content, outputs)[..|earlier|] == earlier;
      }
    }
  }

  predicate IsCall(b: Block) { b.ToolUse? }

  /** A text as a result carries it: whole up to 200000 characters. */
  ghost predicate Carries(carried: string, text: string)
  {
    if |text| <= 200_000 then carried == text
    else carried == text[..200_000] + "\n[truncated " + Decimal.Itoa(|text| - 200_000) + " bytes]"
  }

  /** The result of the k-th call: its id, and what the k-th output says; a call
      without an output has put out nothing. */
  ghost predicate Answers(result: Block, call: Block, outputs: seq<Output>, k: nat)
  {
    && result.ToolResult? && call.ToolUse? && result.toolUseId == call.id
    && if k < |outputs| then Carries(result.content, outputs[k].text) && result.isError == outputs[k].isError
       else result.content == "" && !result.isError
  }

  /** One result for each tool call, in order. */
  ghost predicate ResultsOf(content: seq<Block>, at: seq<nat>, outputs: seq<Output>, results: seq<Block>)
  {
    Picked(content, IsCall, at, results, Answering(outputs))
  }

  lemma ResultAnswers(call: Block, outputs: seq<Output>, k: nat)
    requires call.ToolUse?
    ensures Answers(ResultOf(call.id, outputs, k), call, outputs, k)
  {
  }

  ghost function Answering(outputs: seq<Output>): (nat, Block, Block) -> bool
  {
    (k: nat, call: Block, result: Block) => Answers(result, call, outputs, k)
  }

  /** The results of a reply answer its calls one by one, each with its own output. */
  lemma {:induction false} ResultsAreOf(content: seq<Block>, outputs: seq<Output>) returns (at: seq<nat>)
    ensures ResultsOf(content, at, outputs, Results(content, outputs))
  {
    if |content| == 0 {
      at := [];
    } else {
      var n := |content| - 1;
      var b, before := content[n], Results(content[..n], outputs);
      at := ResultsAreOf(content[..n], outputs);
      if IsCall(b) {
        ResultAnswers(b, outputs, |at|);
        PickedMore(content[..n], IsCall, at, before, Answering(outputs), b, ResultOf(b.id, outputs, |at|));
        at := at + [n];
      } else {
        PickedMore(content[..n], IsCall, at, before, Answering(outputs), b, b);
      }
      assert content == content[..n] + [b];
    }
  }

  // ------------------------------------------------------------------ steps

  /** A message the transcript is told of, as it will load. */
  function Say(s: State, m: Message, loaded: Message): State
  {
    s.(messages := s.messages + [m], hidden := s.hidden + [false], recorded := s.recorded + [loaded])
  }

  function SayHidden(s: State, m: Message): State
  {
    s.(messages := s.messages + [m], hidden := s.hidden + [true])
  }

  function Called(s: State): State { s.(calls := s.calls + [s.messages]) }

  function Add(a: Usage, b: Usage): Usage
  {
    Usage(a.input + b.input, a.output + b.output, a.cacheCreation + b.cacheCreation, a.cacheRead + b.cacheRead)
  }

  function Charged(s: State, u: Usage): State { s.(turns := s.turns + 1, usage := Add(s.usage, u)) }

  /** An assistant's blocks as the transcript keeps them. */
  function Kept(content: seq<Block>): seq<Block> { DecodeBlocks(EncodeBlocks(content)) }

  function Answered(s: State, r: Outcome): State
    requires r.Reply?
  {
    Charged(Say(s, Message(ASSISTANT, r.content), Message(ASSISTANT, Kept(r.content))), r.usage)
  }

  function Prompted(s: State, text: string): State { Say(s, UserText(text), UserText(text)) }

  function Resulted(s: State, results: seq<Block>): State { Say(s, Message(USER, results), Message(USER, results)) }

  // ------------------------------------------------------------------- runs

  function WrapUp(s: State, limit: string, script: Script): State
  {
    var c := Called(Prompted(s, limit));
    if |script| == 0 || script[0].Failure? then c else Answered(c, script[0])
  }

  /** runLoop */
  function AfterLoop(s: State, script: Script): State
    decreases |script|
  {
    var c := Called(s);
    if |script| == 0 || script[0].Failure? then c
    else
      var r := script[0];
      var a := Answered(c, r);
      if r.stop != TOOL_USE then
        (if r.limit.Some? then WrapUp(a, r.limit.value, script[1..]) else a)
      else
        var results := Results(r.content, r.outputs);
        if |results| == 0 then a else AfterLoop(Resulted(a, results), script[1..])
  }

  /** One round of it: the calls of the reply at `i` are answered and it goes on. */
  lemma LoopGoesOn(s: State, script: Script, i: nat)
    requires i < |script| && script[i].Reply? && script[i].stop == TOOL_USE
    requires |Results(script[i].content, script[i].outputs)| > 0
    ensures var r := script[i];
            AfterLoop(s, script[i..]) ==
              AfterLoop(Resulted(Answered(Called(s), r), Results(r.content, r.outputs)), script[i + 1..])
  {
    assert script[i..][1..] == script[i + 1..];
  }

  lemma LoopEnds(s: State, script: Script, i: nat)
    requires i < |script| && script[i].Reply?
    ensures var r, a := script[i], Answered(Called(s), script[i]);
            && (r.stop != TOOL_USE ==>
                  AfterLoop(s, script[i..]) == if r.limit.Some? then WrapUp(a, r.limit.value, script[i + 1..]) else a)
            && (r.stop == TOOL_USE && |Results(r.content, r.outputs)| == 0 ==> AfterLoop(s, script[i..]) == a)
  {
    assert script[i..][1..] == script[i + 1..];
  }

  lemma LoopFails(s: State, script: Script, i: nat)
    requires i <= |script| && (i < |script| ==> script[i].Failure?)
    ensures AfterLoop(s, script[i..]) == Called(s)
  {
  }

  /** The text blocks of a reply, put together. */
  function TextOf(content: seq<Block>): string
  {
    if |content| == 0 then ""
    else
      var last := content[|content| - 1];
      TextOf(content[..|content| - 1]) + if last.Text? then last.text else ""
  }

  function SummaryOf(content: seq<Block>): string { Text.TrimSpace(TextOf(content)) }

  function Summed(s: State, sum: string, settings: Settings): State
  {
    s.(messages := [UserText(settings.summaryPrefix + sum)], hidden := [true], compacted := true)
  }

  /** Compact: on success the summary is all that is left. */
  function Compacted(s: State, outcome: Outcome, settings: Settings): State
  {
    if |s.messages| == 0 then s
    else
      var c := s.(calls := s.calls + [s.messages + [UserText(settings.compactPrompt)]]);
      if outcome.Failure? then c
      else
        var u := Charged(c, outcome.usage);
        var sum := SummaryOf(outcome.content);
        if sum == "" then u
        else Summed(u, sum, settings)
  }

  /** ExtractMemories: one more model call, which changes no message. */
  function Extracted(s: State, outcome: Outcome, settings: Settings): State
  {
    if |s.messages| == 0 then s
    else
      var c := s.(calls := s.calls + [s.messages + [UserText(settings.extractPrompt)]]);
      if outcome.Failure? then c else Charged(c, outcome.usage)
  }

  function BlockChars(b: Block): nat
  {
    match b
    case Text(text) => |text|
    case Thinking(text) => |text|
    case ToolUse(_, _, input) => |input.text|
    case ToolResult(_, content, _) => |content|
    case Other(_) => 0
  }

  function ContentChars(content: seq<Block>): nat
  {
    if |content| == 0 then 0 else ContentChars(content[..|content| - 1]) + BlockChars(content[|content| - 1])
  }

  function ContextChars(messages: seq<Message>): nat
  {
    if |messages| == 0 then 0
    else ContextChars(messages[..|messages| - 1]) + ContentChars(messages[|messages| - 1].content)
  }

  /** One use of the engine: what its model calls bring, the goal's continuation
      prompt if a goal is active, and the answer to compacting, should it happen;
      or the hidden prompt that tells of a changed objective. */
  datatype Op =
    | Submit(goal: Option<string>, input: string, script: Script, summary: Outcome)
    | Compacting(summary: Outcome)
    | Extracting(found: Outcome)
    | Objective(prompt: string)

  predicate TooLong(s: State, settings: Settings)
  {
    settings.autoCompactChars > 0 && ContextChars(s.messages) > settings.autoCompactChars
  }

  function AfterOp(s: State, op: Op, settings: Settings): State
  {
    match op
    case Compacting(summary) => Compacted(s, summary, settings)
    case Extracting(found) => Extracted(s, found, settings)
    case Objective(prompt) => SayHidden(s, UserText(prompt))
    case Submit(goal, input, script, summary) =>
      var s1 := if TooLong(s, settings) then Compacted(s, summary, settings) else s;
      var s2 := if goal.Some? then SayHidden(s1, UserText(goal.value)) else s1;
      AfterLoop(Prompted(s2, input), script)
  }

  function AfterOps(s: State, ops: seq<Op>, settings: Settings): State
  {
    if |ops| == 0 then s else AfterOp(AfterOps(s, ops[..|ops| - 1], settings), ops[|ops| - 1], settings)
  }

  /** A new engine, or one resumed from a transcript. */
  function Start(loaded: seq<Message>): State
  {
    State(loaded, seq(|loaded|, _ => false), 0, Usage(0, 0, 0, 0), [], loaded, false)
  }

  // --------------------------------------------------- transcript agreement

  /** A message as the transcript keeps it. */
  function AsKept(m: Message): Message
  {
    if m.role == ASSISTANT then Message(ASSISTANT, Kept(m.content)) else m
  }

  /** The messages without the hidden ones; those after the `base` loaded ones as
      the transcript keeps them. */
  function Transcribed(messages: seq<Message>, hidden: seq<bool>, base: nat): seq<Message>
    requires |hidden| == |messages|
  {
    if |messages| <= base then messages
    else
      var n := |messages| - 1;
      Transcribed(messages[..n], hidden[..n], base) + if hidden[n] then [] else [AsKept(messages[n])]
  }

  /** The messages without the hidden ones. */
  function Visible(messages: seq<Message>, hidden: seq<bool>): seq<Message>
    requires |hidden| == |messages|
  {
    if |messages| == 0 then []
    else
      var n := |messages| - 1;
      Visible(messages[..n], hidden[..n]) + if hidden[n] then [] else [messages[n]]
  }

  ghost predicate Agrees(s: State, base: nat)
  {
    && |s.hidden| == |s.messages| >= base
    && s.recorded == Transcribed(s.messages, s.hidden, base)
  }

  lemma SayAgrees(s: State, base: nat, m: Message)
    requires Agrees(s, base)
    ensures Agrees(Say(s, m, AsKept(m)), base)
  {
    assert (s.messages + [m])[..|s.messages|] == s.messages;
    assert (s.hidden + [false])[..|s.hidden|] == s.hidden;
  }

  lemma SayHiddenAgrees(s: State, base: nat, m: Message)
    requires Agrees(s, base)
    ensures Agrees(SayHidden(s, m), base)
  {
    assert (s.messages + [m])[..|s.messages|] == s.messages;
    assert (s.hidden + [true])[..|s.hidden|] == s.hidden;
  }

  lemma AnsweredAgrees(s: State, base: nat, r: Outcome)
    requires r.Reply? && Agrees(s, base)
    ensures Agrees(Answered(s, r), base)
  {
    SayAgrees(s, base, Message(ASSISTANT, r.content));
  }

  lemma UserAgrees(s: State, base: nat, content: seq<Block>)
    requires Agrees(s, base)
    ensures Agrees(Say(s, Message(USER, content), Message(USER, content)), base)
  {
    SayAgrees(s, base, Message(USER, content));
  }

  lemma WrapUpAgrees(s: State, base: nat, limit: string, script: Script)
    requires Agrees(s, base)
    ensures Agrees(WrapUp(s, limit, script), base)
  {
    var c := Called(Prompted(s, limit));
    UserAgrees(s, base, [Block.Text(limit)]);
    if |script| > 0 && script[0].Reply? {
      AnsweredAgrees(c, base, script[0]);
    }
  }

  lemma {:induction false} RunLoopAgrees(s: State, base: nat, script: Script)
    requires Agrees(s, base)
    ensures Agrees(AfterLoop(s, script), base)
    decreases |script|
  {
    if |script| > 0 && script[0].Reply? {
      var r := script[0];
      var a := Answered(Called(s), r);
      AnsweredAgrees(Called(s), base, r);
      if r.stop != TOOL_USE {
        if r.limit.Some? {
          WrapUpAgrees(a, base, r.limit.value, script[1..]);
        }
      } else {
        var results := Results(r.content, r.outputs);
        UserAgrees(a, base, results);
        RunLoopAgrees(Resulted(a, results), base, script[1..]);
      }
    }
  }

  lemma CompactAgrees(s: State, base: nat, outcome: Outcome, settings: Settings)
    requires !s.compacted ==> Agrees(s, base)
    ensures !Compacted(s, outcome, settings).compacted ==> !s.compacted && Agrees(Compacted(s, outcome, settings), base)
  {
  }

  /** Through any uses of the engine that never compact, failed turns and wrap-ups
      included, the transcript loads to the messages less the hidden ones. */
  lemma {:induction false} OpsAgree(loaded: seq<Message>, ops: seq<Op>, settings: Settings)
    ensures var s := AfterOps(Start(loaded), ops, settings);
            !s.compacted ==> Agrees(s, |loaded|)
  {
    if |ops| > 0 {
      var base, before, op := |loaded|, AfterOps(Start(loaded), ops[..|ops| - 1], settings), ops[|ops| - 1];
      OpsAgree(loaded, ops[..|ops| - 1], settings);
      match op {
        case Compacting(summary) => CompactAgrees(before, base, summary, settings);
        case Extracting(_) =>
        case Objective(prompt) =>
          if !before.compacted {
            SayHiddenAgrees(before, base, UserText(prompt));
          }
        case Submit(goal, input, script, summary) =>
          CompactAgrees(before, base, summary, settings);
          var s1 := if TooLong(before, settings) then Compacted(before, summary, settings) else before;
          if !s1.compacted {
            SubmitAgrees(s1, base, goal, input, script);
          } else {
            SubmitStaysCompacted(s1, goal, input, script);
          }
      }
    }
  }

  lemma SubmitAgrees(s: State, base: nat, goal: Option<string>, input: string, script: Script)
    requires Agrees(s, base)
    ensures var s2 := if goal.Some? then SayHidden(s, UserText(goal.value)) else s;
            Agrees(AfterLoop(Prompted(s2, input), script), base)
  {
    var s2 := if goal.Some? then SayHidden(s, UserText(goal.value)) else s;
    if goal.Some? {
      SayHiddenAgrees(s, base, UserText(goal.value));
    }
    UserAgrees(s2, base, [Block.Text(input)]);
    RunLoopAgrees(Prompted(s2, input), base, script);
  }

  lemma {:induction false} RunLoopStaysCompacted(s: State, script: Script)
    ensures AfterLoop(s, script).compacted == s.compacted
    decreases |script|
  {
    if |script| > 0 && script[0].Reply? && script[0].stop == TOOL_USE {
      var results := Results(script[0].content, script[0].outputs);
      if |results| > 0 {
        RunLoopStaysCompacted(Resulted(Answered(Called(s), script[0]), results), script[1..]);
      }
    }
  }

  lemma SubmitStaysCompacted(s: State, goal: Option<string>, input: string, script: Script)
    ensures var s2 := if goal.Some? then SayHidden(s, UserText(goal.value)) else s;
            AfterLoop(Prompted(s2, input), script).compacted == s.compacted
  {
    var s2 := if goal.Some? then SayHidden(s, UserText(goal.value)) else s;
    RunLoopStaysCompacted(Prompted(s2, input), script);
  }

  ghost predicate KeptFrom(messages: seq<Message>, hidden: seq<bool>, base: nat)
    requires |hidden| == |messages|
  {
    forall i :: base <= i < |messages| && !hidden[i] && messages[i].role == ASSISTANT ==>
      AllRecordable(messages[i].content)
  }

  lemma KeptFromOneMore(messages: seq<Message>, hidden: seq<bool>, base: nat)
    requires |hidden| == |messages| > base
    ensures var n := |messages| - 1;
            KeptFrom(messages, hidden, base) <==>
              && KeptFrom(messages[..n], hidden[..n], base)
              && (!hidden[n] && messages[n].role == ASSISTANT ==> AllRecordable(messages[n].content))
  {
  }

  lemma AsKeptIff(m: Message)
    ensures AsKept(m) == m <==> (m.role == ASSISTANT ==> AllRecordable(m.content))
  {
    ContentRoundTrip(m.content);
  }

  lemma BothOneMore<T>(a: seq<T>, b: seq<T>, x: T, y: T, skip: bool)
    requires |a| == |b|
    ensures var a1, b1 := a + (if skip then [] else [x]), b + (if skip then [] else [y]);
            |a1| == |b1| && (a1 == b1 <==> a == b && (skip || x == y))
  {
    if skip {
      assert a + [] == a && b + [] == b;
    } else {
      LastOfEqual(a, b, x, y);
    }
  }

  /** The two readings of the messages are the same exactly when the transcript can
      keep every block of every answer. */
  lemma {:induction false} TranscribedIsVisible(messages: seq<Message>, hidden: seq<bool>, base: nat)
    requires |hidden| == |messages| >= base && forall i :: 0 <= i < base ==> !hidden[i]
    ensures |Transcribed(messages, hidden, base)| == |Visible(messages, hidden)|
    ensures Transcribed(messages, hidden, base) == Visible(messages, hidden) <==> KeptFrom(messages, hidden, base)
  {
    if |messages| > 0 {
      var n := |messages| - 1;
      var m, earlier, flags := messages[n], messages[..n], hidden[..n];
      if |messages| <= base {
        TranscribedIsVisible(earlier, flags, n);
        assert messages == earlier + [m];
      } else {
        TranscribedIsVisible(earlier, flags, base);
        AsKeptIff(m);
        KeptFromOneMore(messages, hidden, base);
        BothOneMore(Transcribed(earlier, flags, base), Visible(earlier, flags), AsKept(m), m, hidden[n]);
      }
    }
  }

  lemma {:induction false} LoadedNeverHidden(loaded: seq<Message>, ops: seq<Op>, settings: Settings)
    ensures var s := AfterOps(Start(loaded), ops, settings);
            !s.compacted ==> |s.hidden| >= |loaded| && forall i :: 0 <= i < |loaded| ==> !s.hidden[i]
  {
    if |ops| > 0 {
      LoadedNeverHidden(loaded, ops[..|ops| - 1], settings);
      HiddenOnlyGrows(AfterOps(Start(loaded), ops[..|ops| - 1], settings), ops[|ops| - 1], settings);
    }
  }

  lemma {:induction false} RunLoopHides(s: State, script: Script)
    ensures s.hidden <= AfterLoop(s, script).hidden
    decreases |script|
  {
    if |script| > 0 && script[0].Reply? && script[0].stop == TOOL_USE {
      var a, results := Answered(Called(s), script[0]), Results(script[0].content, script[0].outputs);
      if |results| > 0 {
        RunLoopHides(Resulted(a, results), script[1..]);
      }
    }
  }

  lemma HiddenOnlyGrows(s: State, op: Op, settings: Settings)
    ensures !AfterOp(s, op, settings).compacted ==> !s.compacted && s.hidden <= AfterOp(s, op, settings).hidden
  {
    if op.Submit? {
      var s1 := if TooLong(s, settings) then Compacted(s, op.summary, settings) else s;
      var s2 := if op.goal.Some? then SayHidden(s1, UserText(op.goal.value)) else s1;
      RunLoopStaysCompacted(Prompted(s2, op.input), op.script);
      RunLoopHides(Prompted(s2, op.input), op.script);
    }
  }

  /** The transcript of a run without compaction loads to exactly the messages less
      the hidden prompts, if and only if it can keep every block answered. */
  lemma LoadsWhatWasSaid(loaded: seq<Message>, ops: seq<Op>, settings: Settings)
    ensures var s := AfterOps(Start(loaded), ops, settings);
            !s.compacted ==>
              |s.hidden| == |s.messages| &&
              (s.recorded == Visible(s.messages, s.hidden) <==> KeptFrom(s.messages, s.hidden, |loaded|))
  {
    var s := AfterOps(Start(loaded), ops, settings);
    if !s.compacted {
      OpsAgree(loaded, ops, settings);
      LoadedNeverHidden(loaded, ops, settings);
      TranscribedIsVisible(s.messages, s.hidden, |loaded|);
    }
  }

  // ----------------------------------------------------------------- pairing

  ghost predicate AllPaired(calls: seq<seq<Message>>)
  {
    forall i :: 0 <= i < |calls| ==> Paired(calls[i])
  }

  predicate NoCalls(outcome: Outcome) { outcome.Failure? || CallIds(outcome.content) == [] }

  /** Replies that ask for tools stop for them, and the wrap-up asks for none. */
  predicate Behaved(script: Script)
    decreases |script|
  {
    |script| > 0 && script[0].Reply? ==>
      if script[0].stop == TOOL_USE then NoCalls(script[0]) || Behaved(script[1..])
      else NoCalls(script[0]) && (script[0].limit.Some? && |script| > 1 ==> NoCalls(script[1]))
  }

  lemma PairedMore(messages: seq<Message>, m: Message)
    requires Paired(messages) && (m.role == USER ==> AnsweredIds(m.content) == [])
    ensures Paired(messages + [m]) <==> m.role != ASSISTANT || CallIds(m.content) == []
  {
    var more := messages + [m];
    forall i | 0 <= i < |messages| ensures PairedAt(more, i) {
      assert PairedAt(messages, i);
    }
    assert PairedAt(more, |messages|) <==> m.role != ASSISTANT || CallIds(m.content) == [];
  }

  lemma PairedRound(messages: seq<Message>, content: seq<Block>, results: seq<Block>)
    requires Paired(messages) && OnlyResults(results) && AnsweredIds(results) == CallIds(content)
    ensures Paired(messages + [Message(ASSISTANT, content)] + [Message(USER, results)])
  {
    var more := messages + [Message(ASSISTANT, content)] + [Message(USER, results)];
    forall i | 0 <= i < |messages| ensures PairedAt(more, i) {
      assert PairedAt(messages, i);
    }
    assert PairedAt(more, |messages|) && PairedAt(more, |messages| + 1);
  }

  /** Calls that the next message does not answer never will be. */
  lemma NeverPaired(messages: seq<Message>, content: seq<Block>, m: Message, more: seq<Message>)
    requires CallIds(content) != [] && !OnlyResults(m.content)
    ensures !Paired(messages + [Message(ASSISTANT, content)] + [m] + more)
  {
    assert !PairedAt(messages + [Message(ASSISTANT, content)] + [m] + more, |messages|);
  }

  function CallOf(b: Block): seq<string> { if b.ToolUse? then [b.id] else [] }

  lemma KeptCall(b: Block)
    ensures CallOf(b) == if EncodeBlock(b).Some? then CallOf(DecodeBlock(EncodeBlock(b).value)) else []
  {
    Kinds();
  }

  lemma OneCallMore(content: seq<Block>, b: Block)
    ensures CallIds(content + [b]) == CallIds(content) + CallOf(b)
  {
    assert (content + [b])[..|content|] == content;
  }

  /** Keeping what can be kept keeps the calls. */
  lemma {:induction false} KeptCalls(content: seq<Block>)
    ensures CallIds(Kept(content)) == CallIds(content)
  {
    if |content| > 0 {
      var before, last := content[..|content| - 1], content[|content| - 1];
      KeptCalls(before);
      KeptCall(last);
      if EncodeBlock(last).Some? {
        var raw := EncodeBlock(last).value;
        DecodeOneMore(EncodeBlocks(before), raw);
        OneCallMore(Kept(before), DecodeBlock(raw));
      } else {
        assert EncodeBlocks(content) == EncodeBlocks(before);
      }
    }
  }

  /** What the model and the transcript have been told is paired. */
  ghost predicate Sound(s: State)
  {
    Paired(s.messages) && Paired(s.recorded) && AllPaired(s.calls)
  }

  lemma CalledSound(s: State)
    requires Sound(s)
    ensures Sound(Called(s))
  {
  }

  lemma PromptedSound(s: State, text: string)
    requires Sound(s)
    ensures Sound(Prompted(s, text)) && Sound(SayHidden(s, UserText(text)))
  {
    PairedMore(s.messages, UserText(text));
    PairedMore(s.recorded, UserText(text));
  }

  lemma AnsweredSound(s: State, r: Outcome)
    requires Sound(s) && r.Reply?
    ensures NoCalls(r) ==> Sound(Answered(s, r))
    ensures !NoCalls(r) ==> !Paired(Answered(s, r).messages)
  {
    PairedMore(s.messages, Message(ASSISTANT, r.content));
    KeptCalls(r.content);
    PairedMore(s.recorded, Message(ASSISTANT, Kept(r.content)));
  }

  lemma ResultedSound(s: State, r: Outcome)
    requires Sound(s) && r.Reply?
    ensures Sound(Resulted(Answered(s, r), Results(r.content, r.outputs)))
  {
    var results := Results(r.content, r.outputs);
    ResultsAnswerCalls(r.content, r.outputs);
    KeptCalls(r.content);
    PairedRound(s.messages, r.content, results);
    PairedRound(s.recorded, Kept(r.content), results);
  }

  lemma ResultsCount(content: seq<Block>, outputs: seq<Output>)
    ensures |Results(content, outputs)| == 0 <==> CallIds(content) == []
    decreases |content|
  {
    if |content| > 0 {
      ResultsCount(content[..|content| - 1], outputs);
    }
  }

  /** The turn after the budget is spent, from paired messages. */
  lemma WrapUpSound(s: State, limit: string, script: Script)
    requires Sound(s)
    ensures (|script| > 0 ==> NoCalls(script[0])) ==> Sound(WrapUp(s, limit, script))
    ensures !(|script| > 0 ==> NoCalls(script[0])) ==> !Paired(WrapUp(s, limit, script).messages)
  {
    PromptedSound(s, limit);
    CalledSound(Prompted(s, limit));
    if |script| > 0 && script[0].Reply? {
      AnsweredSound(Called(Prompted(s, limit)), script[0]);
    }
  }

  /** And from an answer whose calls go unanswered. */
  lemma WrapUpBroken(s: State, r: Outcome, limit: string, script: Script)
    requires r.Reply? && !NoCalls(r)
    ensures !Paired(WrapUp(Answered(s, r), limit, script).messages)
  {
    var w := WrapUp(Answered(s, r), limit, script);
    var told := s.messages + [Message(ASSISTANT, r.content)] + [UserText(limit)];
    var more := if |script| > 0 && script[0].Reply? then [Message(ASSISTANT, script[0].content)] else [];
    assert w.messages == told + more;
    assert !OnlyResults(UserText(limit).content) by {
      assert !UserText(limit).content[0].ToolResult?;
    }
    NeverPaired(s.messages, r.content, UserText(limit), more);
  }

  /** A run from paired messages makes every model call with paired messages and
      ends paired, if and only if its script is behaved. */
  lemma {:induction false} RunLoopSound(s: State, script: Script)
    requires Sound(s)
    ensures Behaved(script) ==> Sound(AfterLoop(s, script))
    ensures !Behaved(script) ==> !Paired(AfterLoop(s, script).messages)
    decreases |script|
  {
    CalledSound(s);
    if |script| > 0 && script[0].Reply? {
      var r, c := script[0], Called(s);
      ResultsCount(r.content, r.outputs);
      AnsweredSound(c, r);
      if r.stop != TOOL_USE {
        if r.limit.Some? {
          if NoCalls(r) {
            WrapUpSound(Answered(c, r), r.limit.value, script[1..]);
          } else {
            WrapUpBroken(c, r, r.limit.value, script[1..]);
          }
        }
      } else if !NoCalls(r) {
        ResultedSound(c, r);
        RunLoopSound(Resulted(Answered(c, r), Results(r.content, r.outputs)), script[1..]);
      }
    }
  }

  lemma PairedAlone(text: string)
    ensures Paired([UserText(text)])
  {
    assert AnsweredIds([Block.Text(text)]) == [];
  }

  lemma CompactSound(s: State, outcome: Outcome, settings: Settings)
    requires Sound(s)
    ensures Sound(Compacted(s, outcome, settings))
  {
    PairedMore(s.messages, UserText(settings.compactPrompt));
    if outcome.Reply? {
      PairedAlone(settings.summaryPrefix + SummaryOf(outcome.content));
    }
  }

  lemma OpSound(s: State, op: Op, settings: Settings)
    requires Sound(s) && (op.Submit? ==> Behaved(op.script))
    ensures Sound(AfterOp(s, op, settings))
  {
    if op.Compacting? {
      CompactSound(s, op.summary, settings);
    } else if op.Extracting? {
      PairedMore(s.messages, UserText(settings.extractPrompt));
    } else if op.Objective? {
      PromptedSound(s, op.prompt);
    } else {
      CompactSound(s, op.summary, settings);
      var s1 := if TooLong(s, settings) then Compacted(s, op.summary, settings) else s;
      if op.goal.Some? {
        PromptedSound(s1, op.goal.value);
      }
      var s2 := if op.goal.Some? then SayHidden(s1, UserText(op.goal.value)) else s1;
      PromptedSound(s2, op.input);
      RunLoopSound(Prompted(s2, op.input), op.script);
    }
  }

  /** Over all uses of the engine, new or resumed from paired messages, compacting or
      not: every model call is paired, and so is what the transcript loads to, which
      is what the next engine resumes from. */
  lemma {:induction false} OpsSound(loaded: seq<Message>, ops: seq<Op>, settings: Settings)
    requires Paired(loaded) && forall i :: 0 <= i < |ops| && ops[i].Submit? ==> Behaved(ops[i].script)
    ensures Sound(AfterOps(Start(loaded), ops, settings))
  {
    if |ops| > 0 {
      var before := ops[..|ops| - 1];
      assert forall i :: 0 <= i < |before| ==> before[i] == ops[i];
      OpsSound(loaded, before, settings);
      OpSound(AfterOps(Start(loaded), before, settings), ops[|ops| - 1], settings);
    }
  }

  // --------------------------------------------------- once it is broken

  /** No text message mends what is unpaired, nor does anything after it. */
  lemma UnpairedStays(messages: seq<Message>, text: string, longer: seq<Message>)
    requires !Paired(messages) && messages + [UserText(text)] <= longer
    ensures !Paired(longer)
  {
    var i :| 0 <= i < |messages| && !PairedAt(messages, i);
    var n := |messages|;
    assert forall j :: 0 <= j < n ==> longer[j] == (messages + [UserText(text)])[j] == messages[j];
    assert longer[n] == (messages + [UserText(text)])[n] == UserText(text);
    assert !UserText(text).content[0].ToolResult?;
    assert !PairedAt(longer, i);
  }

  /** A run only adds to the messages, and its model calls are made with these. */
  ghost predicate Grows(s: State, t: State)
  {
    && s.messages <= t.messages && s.calls <= t.calls
    && forall i :: |s.calls| <= i < |t.calls| ==> s.messages <= t.calls[i]
  }

  lemma GrowsOn(s: State, t: State, u: State)
    requires Grows(s, t) && Grows(t, u)
    ensures Grows(s, u)
  {
    forall i | |s.calls| <= i < |u.calls| ensures s.messages <= u.calls[i] {
      assert i < |t.calls| ==> u.calls[i] == t.calls[i];
    }
  }

  lemma WrapUpGrows(s: State, limit: string, script: Script)
    ensures Grows(s, WrapUp(s, limit, script))
  {
    var c := Called(Prompted(s, limit));
    assert Grows(s, c);
    if |script| > 0 && script[0].Reply? {
      GrowsOn(s, c, Answered(c, script[0]));
    }
  }

  lemma {:induction false} RunLoopGrows(s: State, script: Script)
    ensures Grows(s, AfterLoop(s, script))
    decreases |script|
  {
    var c := Called(s);
    assert Grows(s, c);
    if |script| > 0 && script[0].Reply? {
      var r := script[0];
      var a, results := Answered(c, r), Results(r.content, r.outputs);
      GrowsOn(s, c, a);
      if r.stop != TOOL_USE {
        if r.limit.Some? {
          WrapUpGrows(a, r.limit.value, script[1..]);
          GrowsOn(s, a, WrapUp(a, r.limit.value, script[1..]));
        }
      } else if |results| > 0 {
        RunLoopGrows(Resulted(a, results), script[1..]);
        GrowsOn(s, a, Resulted(a, results));
        GrowsOn(s, Resulted(a, results), AfterLoop(Resulted(a, results), script[1..]));
      }
    }
  }

  /** The use replaces the messages by a summary. */
  predicate Compacts(s: State, op: Op, settings: Settings)
  {
    && (op.Compacting? || (op.Submit? && TooLong(s, settings)))
    && |s.messages| > 0 && op.summary.Reply? && SummaryOf(op.summary.content) != ""
  }

  /** Unpaired, and so were all model calls since `s`. */
  ghost predicate StillUnpaired(s: State, t: State)
  {
    && !Paired(t.messages) && s.calls <= t.calls
    && forall i :: |s.calls| <= i < |t.calls| ==> !Paired(t.calls[i])
  }

  lemma PromptedRunUnpaired(s: State, text: string, t: State)
    requires !Paired(s.messages) && Grows(Prompted(s, text), t)
    ensures StillUnpaired(s, t)
  {
    UnpairedStays(s.messages, text, t.messages);
    forall i | |s.calls| <= i < |t.calls| ensures !Paired(t.calls[i]) {
      UnpairedStays(s.messages, text, t.calls[i]);
    }
  }

  lemma StillUnpairedOn(s: State, t: State, u: State)
    requires StillUnpaired(s, t) && StillUnpaired(t, u)
    ensures StillUnpaired(s, u)
  {
    forall i | |s.calls| <= i < |u.calls| ensures !Paired(u.calls[i]) {
      assert i < |t.calls| ==> u.calls[i] == t.calls[i];
    }
  }

  lemma NotCompactedUnpaired(s: State, outcome: Outcome, settings: Settings)
    requires !Paired(s.messages) && !(outcome.Reply? && SummaryOf(outcome.content) != "")
    ensures StillUnpaired(s, Compacted(s, outcome, settings))
  {
    UnpairedStays(s.messages, settings.compactPrompt, s.messages + [UserText(settings.compactPrompt)]);
  }

  lemma HiddenUnpaired(s: State, text: string)
    requires !Paired(s.messages)
    ensures StillUnpaired(s, SayHidden(s, UserText(text)))
  {
    UnpairedStays(s.messages, text, s.messages + [UserText(text)]);
  }

  lemma SubmitUnpaired(s: State, goal: Option<string>, input: string, script: Script)
    requires !Paired(s.messages)
    ensures var s2 := if goal.Some? then SayHidden(s, UserText(goal.value)) else s;
            StillUnpaired(s, AfterLoop(Prompted(s2, input), script))
  {
    var s2 := if goal.Some? then SayHidden(s, UserText(goal.value)) else s;
    if goal.Some? {
      HiddenUnpaired(s, goal.value);
    }
    RunLoopGrows(Prompted(s2, input), script);
    PromptedRunUnpaired(s2, input, AfterLoop(Prompted(s2, input), script));
    StillUnpairedOn(s, s2, AfterLoop(Prompted(s2, input), script));
  }

  lemma OpUnpaired(s: State, op: Op, settings: Settings)
    requires !Paired(s.messages) && !Compacts(s, op, settings)
    ensures StillUnpaired(s, AfterOp(s, op, settings))
  {
    assert |s.messages| > 0;
    match op
    case Compacting(summary) => NotCompactedUnpaired(s, summary, settings);
    case Extracting(_) =>
      UnpairedStays(s.messages, settings.extractPrompt, s.messages + [UserText(settings.extractPrompt)]);
    case Objective(prompt) => HiddenUnpaired(s, prompt);
    case Submit(goal, input, script, summary) =>
      var s1 := if TooLong(s, settings) then Compacted(s, summary, settings) else s;
      if TooLong(s, settings) {
        NotCompactedUnpaired(s, summary, settings);
      }
      SubmitUnpaired(s1, goal, input, script);
      StillUnpairedOn(s, s1, AfterOp(s, op, settings));
  }

  /** From unpaired messages on, every model call of whatever uses is unpaired, until
      one of them compacts. */
  lemma {:induction false} UnpairedUntilCompacted(s: State, ops: seq<Op>, settings: Settings)
    requires !Paired(s.messages)
    requires forall k :: 0 <= k < |ops| ==> !Compacts(AfterOps(s, ops[..k], settings), ops[k], settings)
    ensures StillUnpaired(s, AfterOps(s, ops, settings))
  {
    if |ops| > 0 {
      var n := |ops| - 1;
      var before := AfterOps(s, ops[..n], settings);
      assert forall k :: 0 <= k < n ==> ops[..n][..k] == ops[..k];
      UnpairedUntilCompacted(s, ops[..n], settings);
      OpUnpaired(before, ops[n], settings);
      StillUnpairedOn(s, before, AfterOps(s, ops, settings));
    }
  }
}
