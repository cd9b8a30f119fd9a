/** The translation to and from the Codex Responses API
    (internal/provider/openai.go), over typed events and items. */
module Codex {
  import opened Wrappers
  import opened Conversation
  import opened Sequences
  import Text

  // ---------------------------------------------------------------- streams

  /** A streamed event; items other than function calls are Ignored, as are lines
      that are not events and events of other types. */
  datatype Event =
    | CallAdded(callId: string, name: string, arguments: string)
    | TextDelta(delta: string)
    | ReasoningDelta(delta: string)
    | ArgumentsDelta(delta: string)
    | ArgumentsDone(arguments: string)
    | CallDone
    | Completed(input: int, output: int)
    | Ignored

  datatype Result = Result(content: seq<Block>, stop: string, usage: Usage)

  const END_TURN := "end_turn"

  /** The arguments of an open call, given those so far: later deltas are appended,
      a non-empty final form replaces them, and the end of the call or the next
      call closes them. */
  function Arguments(sofar: string, later: seq<Event>): string
    decreases |later|
  {
    if |later| == 0 then sofar
    else match later[0]
         case CallAdded(_, _, _) => sofar
         case CallDone => sofar
         case ArgumentsDelta(delta) => Arguments(sofar + delta, later[1..])
         case ArgumentsDone(arguments) => Arguments(if arguments != "" then arguments else sofar, later[1..])
         case _ => Arguments(sofar, later[1..])
  }

  /** `again` is what decoding and encoding a JSON text gives. */
  function Call(id: string, name: string, arguments: string, again: string -> string): Block
  {
    var text := if arguments == "" then "{}" else arguments;
    ToolUse(id, name, Input(text, again(text)))
  }

  /** One call for each one added, in order, with its own arguments. */
  function Calls(events: seq<Event>, again: string -> string): seq<Block>
  {
    if |events| == 0 then []
    else
      var e := events[0];
      (if e.CallAdded? then [Call(e.callId, e.name, Arguments(e.arguments, events[1..]), again)] else []) +
      Calls(events[1..], again)
  }

  function Said(events: seq<Event>): string
  {
    if |events| == 0 then ""
    else (if events[0].TextDelta? then events[0].delta else "") + Said(events[1..])
  }

  function Thought(events: seq<Event>): string
  {
    if |events| == 0 then ""
    else (if events[0].ReasoningDelta? then events[0].delta else "") + Thought(events[1..])
  }

  function LastUsage(u: Usage, events: seq<Event>): Usage
    decreases |events|
  {
    if |events| == 0 then u
    else LastUsage(if events[0].Completed? then u.(input := events[0].input, output := events[0].output) else u, events[1..])
  }

  /** Blank text and blank thinking are dropped. */
  function Head(thinking: string, text: string): seq<Block>
  {
    (if Text.TrimSpace(thinking) != "" then [Thinking(thinking)] else []) +
    (if Text.TrimSpace(text) != "" then [Block.Text(text)] else [])
  }

  function Assembled(events: seq<Event>, again: string -> string): Result
  {
    Result(Head(Thought(events), Said(events)) + Calls(events, again),
           if Calls(events, again) != [] then TOOL_USE else END_TURN,
           LastUsage(Usage(0, 0, 0, 0), events))
  }

  /** The ids of the calls added, in order. */
  function AddedIds(events: seq<Event>): seq<string>
  {
    if |events| == 0 then []
    else (if events[0].CallAdded? then [events[0].callId] else []) + AddedIds(events[1..])
  }

  lemma {:induction false} CallIdsConcat(a: seq<Block>, b: seq<Block>)
    ensures CallIds(a + b) == CallIds(a) + CallIds(b)
  {
    if |b| == 0 {
      assert a + b == a;
    } else {
      CallIdsConcat(a, b[..|b| - 1]);
      assert (a + b)[..|a + b| - 1] == a + b[..|b| - 1];
    }
  }

  lemma FirstCallId(first: Block, rest: seq<Block>)
    ensures CallIds([first] + rest) == (if first.ToolUse? then [first.id] else []) + CallIds(rest)
  {
    CallIdsConcat([first], rest);
    assert [first][..0] == [];
  }

  lemma {:induction false} CallsAreAdded(events: seq<Event>, again: string -> string)
    ensures CallIds(Calls(events, again)) == AddedIds(events)
    ensures |Calls(events, again)| == |AddedIds(events)|
  {
    if |events| > 0 {
      CallsAreAdded(events[1..], again);
      var e := events[0];
      if e.CallAdded? {
        FirstCallId(Call(e.callId, e.name, Arguments(e.arguments, events[1..]), again), Calls(events[1..], again));
      } else {
        assert Calls(events, again) == Calls(events[1..], again) && AddedIds(events) == AddedIds(events[1..]);
      }
    }
  }

  lemma HeadCallsNothing(thinking: string, text: string)
    ensures CallIds(Head(thinking, text)) == []
  {
    var a := if Text.TrimSpace(thinking) != "" then [Thinking(thinking)] else [];
    var b := if Text.TrimSpace(text) != "" then [Block.Text(text)] else [];
    CallIdsConcat(a, b);
  }

  /** Whatever the stream, the reply stops for tools exactly when it asks for some,
      and it asks for exactly the calls added, in order. */
  lemma StopsForItsCalls(events: seq<Event>, again: string -> string)
    ensures var r := Assembled(events, again);
            && CallIds(r.content) == AddedIds(events)
            && (r.stop == TOOL_USE <==> CallIds(r.content) != [])
  {
    CallsAreAdded(events, again);
    HeadCallsNothing(Thought(events), Said(events));
    CallIdsConcat(Head(Thought(events), Said(events)), Calls(events, again));
  }

  // The reply once more, from the events as they stand, without the functions above.

  function SpokenDelta(e: Event): string { if e.TextDelta? then e.delta else "" }

  function ThoughtDelta(e: Event): string { if e.ReasoningDelta? then e.delta else "" }

  function CallDelta(e: Event): string { if e.ArgumentsDelta? then e.delta else "" }

  predicate Final(e: Event) { e.ArgumentsDone? && e.arguments != "" }

  predicate Closes(e: Event) { e.CallAdded? || e.CallDone? }

  /** The arguments of a call that starts with `start`: up to the event that closes it,
      the deltas after its last final form, if it gets one, and otherwise all deltas,
      behind what is there already. */
  ghost predicate ArgumentsIn(start: string, later: seq<Event>, args: string, end: nat, from: nat)
  {
    && from <= end <= |later| && (end < |later| ==> Closes(later[end]))
    && (forall i :: 0 <= i < end ==> !Closes(later[i])) && (forall i :: from <= i < end ==> !Final(later[i]))
    && if from == 0 then Gathered(start, later[..end], CallDelta, args)
       else Final(later[from - 1]) && Gathered(later[from - 1].arguments, later[from..end], CallDelta, args)
  }

  ghost predicate AddsCall(e: Event, later: seq<Event>, again: string -> string, part: seq<Block>)
    requires e.CallAdded?
  {
    exists args, end, from ::
      && ArgumentsIn(e.arguments, later, args, end, from)
      && var text := if args == "" then "{}" else args;
         part == [ToolUse(e.callId, e.name, Input(text, again(text)))]
  }

  /** What an event contributes to the calls: the call it adds. */
  ghost predicate AddedAt(events: seq<Event>, i: nat, again: string -> string, part: seq<Block>)
    requires i < |events|
  {
    if events[i].CallAdded? then AddsCall(events[i], events[i + 1..], again, part) else part == []
  }

  ghost predicate AddedBy(events: seq<Event>, again: string -> string, parts: seq<seq<Block>>)
  {
    |parts| == |events| && forall i :: 0 <= i < |events| ==> AddedAt(events, i, again, parts[i])
  }

  /** The token counts of the last event that brings some. */
  ghost predicate Spent(u: Usage, events: seq<Event>, usage: Usage)
  {
    if forall i :: 0 <= i < |events| ==> !events[i].Completed? then usage == u
    else exists i :: 0 <= i < |events| && events[i].Completed?
           && (forall j :: i < j < |events| ==> !events[j].Completed?)
           && usage == u.(input := events[i].input, output := events[i].output)
  }

  /** Thinking, then text, each unless blank, and then the calls. */
  ghost predicate Replies(events: seq<Event>, again: string -> string, r: Result,
                          thinking: string, text: string, parts: seq<seq<Block>>)
  {
    && Gathered("", events, ThoughtDelta, thinking) && Gathered("", events, SpokenDelta, text)
    && AddedBy(events, again, parts)
    && r.content == (if Text.TrimSpace(thinking) == "" then [] else [Thinking(thinking)]) +
                    (if Text.TrimSpace(text) == "" then [] else [Block.Text(text)]) + Concat(parts)
    && r.stop == (if exists i :: 0 <= i < |events| && events[i].CallAdded? then "tool_use" else "end_turn")
    && Spent(Usage(0, 0, 0, 0), events, r.usage)
  }

  ghost predicate IsReply(events: seq<Event>, again: string -> string, r: Result)
  {
    exists thinking, text, parts :: Replies(events, again, r, thinking, text, parts)
  }

  lemma {:induction false} SaidIsGathered(start: string, events: seq<Event>)
    ensures Gathered(start, events, SpokenDelta, start + Said(events))
    decreases |events|
  {
    if |events| == 0 {
      GatheredNone(start, SpokenDelta);
      NothingAdded(start);
    } else {
      SaidIsGathered(start + SpokenDelta(events[0]), events[1..]);
      GatheredFirst(start, events, SpokenDelta, start + SpokenDelta(events[0]) + Said(events[1..]));
      Reassociate(start, SpokenDelta(events[0]), Said(events[1..]));
    }
  }

  lemma {:induction false} ThoughtIsGathered(start: string, events: seq<Event>)
    ensures Gathered(start, events, ThoughtDelta, start + Thought(events))
    decreases |events|
  {
    if |events| == 0 {
      GatheredNone(start, ThoughtDelta);
      NothingAdded(start);
    } else {
      ThoughtIsGathered(start + ThoughtDelta(events[0]), events[1..]);
      GatheredFirst(start, events, ThoughtDelta, start + ThoughtDelta(events[0]) + Thought(events[1..]));
      Reassociate(start, ThoughtDelta(events[0]), Thought(events[1..]));
    }
  }

  /** What an event that does not close the call makes of its arguments. */
  function NextArguments(start: string, e: Event): string { if Final(e) then e.arguments else start + CallDelta(e) }

  lemma ArgumentsNext(start: string, later: seq<Event>)
    requires |later| > 0
    ensures Arguments(start, later) ==
            if Closes(later[0]) then start else Arguments(NextArguments(start, later[0]), later[1..])
  {
    NothingAdded(start);
  }

  lemma NoArguments(start: string, later: seq<Event>)
    requires |later| > 0 ==> Closes(later[0])
    ensures ArgumentsIn(start, later, start, 0, 0)
  {
    GatheredNone(start, CallDelta);
    assert later[..0] == [];
  }

  lemma {:induction false} ArgumentsAreIn(start: string, later: seq<Event>) returns (end: nat, from: nat)
    ensures ArgumentsIn(start, later, Arguments(start, later), end, from)
    decreases |later|
  {
    end, from := 0, 0;
    if |later| > 0 {
      ArgumentsNext(start, later);
    }
    if |later| == 0 || Closes(later[0]) {
      NoArguments(start, later);
    } else {
      end, from := ArgumentsAreIn(NextArguments(start, later[0]), later[1..]);
      end, from := ArgumentsOneMore(start, later, Arguments(start, later), end, from);
    }
  }

  lemma ArgumentsOneMore(start: string, later: seq<Event>, args: string, end: nat, from: nat)
    returns (end1: nat, from1: nat)
    requires |later| > 0 && !Closes(later[0])
    requires ArgumentsIn(NextArguments(start, later[0]), later[1..], args, end, from)
    ensures ArgumentsIn(start, later, args, end1, from1)
  {
    var rest := later[1..];
    end1, from1 := end + 1, if from > 0 || Final(later[0]) then from + 1 else 0;
    assert forall i :: 0 < i <= end ==> later[i] == rest[i - 1];
    assert end < |rest| ==> later[end + 1] == rest[end];
    if from > 0 {
      assert later[from] == rest[from - 1];
      SliceOfRest(later, from, end);
    } else {
      SliceOfRest(later, 0, end);
      if !Final(later[0]) {
        assert later[..end + 1][1..] == later[1..end + 1];
        GatheredFirst(start, later[..end + 1], CallDelta, args);
      }
    }
  }

  lemma CallIsAdded(e: Event, later: seq<Event>, again: string -> string)
    requires e.CallAdded?
    ensures AddsCall(e, later, again, [Call(e.callId, e.name, Arguments(e.arguments, later), again)])
  {
    var end, from := ArgumentsAreIn(e.arguments, later);
  }

  lemma AddedLater(events: seq<Event>, again: string -> string, i: nat, part: seq<Block>)
    requires 0 < i < |events| && AddedAt(events[1..], i - 1, again, part)
    ensures AddedAt(events, i, again, part)
  {
    DropOfRest(events, i);
    assert events[1..][i - 1] == events[i];
  }

  lemma AddedFirst(events: seq<Event>, again: string -> string, first: seq<Block>, rest: seq<seq<Block>>)
    requires |events| > 0 && AddedAt(events, 0, again, first) && AddedBy(events[1..], again, rest)
    ensures AddedBy(events, again, [first] + rest)
  {
    var parts := [first] + rest;
    forall i: nat | i < |events| ensures AddedAt(events, i, again, parts[i]) {
      if i > 0 {
        assert parts[i] == rest[i - 1];
        AddedLater(events, again, i, parts[i]);
      }
    }
  }

  lemma {:induction false} CallsAreAddedBy(events: seq<Event>, again: string -> string) returns (parts: seq<seq<Block>>)
    ensures AddedBy(events, again, parts) && Calls(events, again) == Concat(parts)
  {
    parts := [];
    if |events| > 0 {
      var e := events[0];
      var rest := CallsAreAddedBy(events[1..], again);
      var first: seq<Block> := [];
      if e.CallAdded? {
        CallIsAdded(e, events[1..], again);
        first := [Call(e.callId, e.name, Arguments(e.arguments, events[1..]), again)];
      }
      AddedFirst(events, again, first, rest);
      parts := [first] + rest;
      assert parts[1..] == rest;
    }
  }

  lemma {:induction false} LastUsageIsSpent(u: Usage, events: seq<Event>)
    ensures Spent(u, events, LastUsage(u, events))
    decreases |events|
  {
    if |events| > 0 {
      var e, rest := events[0], events[1..];
      var next := if e.Completed? then u.(input := e.input, output := e.output) else u;
      LastUsageIsSpent(next, rest);
      assert forall i :: 0 < i < |events| ==> events[i] == rest[i - 1];
      if i :| 0 <= i < |rest| && rest[i].Completed? && forall j :: i < j < |rest| ==> !rest[j].Completed? {
        assert events[i + 1].Completed? && forall j :: i + 1 < j < |events| ==> !events[j].Completed?;
      }
    }
  }

  lemma AssembledIsReply(events: seq<Event>, again: string -> string)
    ensures IsReply(events, again, Assembled(events, again))
  {
    var thinking, text := Thought(events), Said(events);
    ThoughtIsGathered("", events);
    SaidIsGathered("", events);
    NothingAdded(thinking);
    NothingAdded(text);
    var parts := CallsAreAddedBy(events, again);
    LastUsageIsSpent(Usage(0, 0, 0, 0), events);
    CallsIffAdded(events, again);
    assert Replies(events, again, Assembled(events, again), thinking, text, parts);
  }

  lemma {:induction false} CallsIffAdded(events: seq<Event>, again: string -> string)
    ensures Calls(events, again) != [] <==> exists i :: 0 <= i < |events| && events[i].CallAdded?
  {
    if |events| > 0 {
      CallsIffAdded(events[1..], again);
      assert forall i :: 0 < i < |events| ==> events[i] == events[1..][i - 1];
      if i :| 0 <= i < |events[1..]| && events[1..][i].CallAdded? {
        assert events[i + 1].CallAdded?;
      }
    }
  }

  /** The parser between events. */
  datatype Parsing = Parsing(
    content: seq<Block>, text: string, thinking: string, usage: Usage,
    open: bool, id: string, name: string, args: string, hadTool: bool)

  function Flushed(p: Parsing, again: string -> string): Parsing
  {
    if p.open then
      p.(content := p.content + [Call(p.id, p.name, p.args, again)], open := false, id := "", name := "", args := "")
    else p
  }

  function Step(p: Parsing, e: Event, again: string -> string): Parsing
  {
    match e
    case CallAdded(id, name, arguments) =>
      Flushed(p, again).(open := true, id := id, name := name, args := arguments, hadTool := true)
    case TextDelta(delta) => p.(text := p.text + delta)
    case ReasoningDelta(delta) => p.(thinking := p.thinking + delta)
    case ArgumentsDelta(delta) => if p.open then p.(args := p.args + delta) else p
    case ArgumentsDone(arguments) => if p.open && arguments != "" then p.(args := arguments) else p
    case CallDone => Flushed(p, again)
    case Completed(input, output) => p.(usage := p.usage.(input := input, output := output))
    case Ignored => p
  }

  /** The call that is open, as the remaining events will complete it. */
  function OpenCall(p: Parsing, events: seq<Event>, again: string -> string): seq<Block>
  {
    if p.open then [Call(p.id, p.name, Arguments(p.args, events), again)] else []
  }

  /** The calls there will be once the remaining events have come. */
  function CallsToCome(p: Parsing, events: seq<Event>, again: string -> string): seq<Block>
  {
    p.content + OpenCall(p, events, again) + Calls(events, again)
  }

  lemma FlushCloses(p: Parsing, events: seq<Event>, again: string -> string)
    requires |events| > 0 && (events[0].CallAdded? || events[0].CallDone?)
    ensures Flushed(p, again).content == p.content + OpenCall(p, events, again) && !Flushed(p, again).open
  {
    NothingAdded(p.content);
  }

  lemma StepCalls(p: Parsing, events: seq<Event>, again: string -> string)
    requires |events| > 0
    ensures CallsToCome(Step(p, events[0], again), events[1..], again) == CallsToCome(p, events, again)
  {
    var e, q, later := events[0], Step(p, events[0], again), Calls(events[1..], again);
    if e.CallAdded? {
      FlushCloses(p, events, again);
    } else {
      NothingAdded(later);
      if e.CallDone? {
        FlushCloses(p, events, again);
        NothingAdded(q.content);
      } else {
        StepOpenCall(p, events, again);
      }
    }
  }

  lemma StepOpenCall(p: Parsing, events: seq<Event>, again: string -> string)
    requires |events| > 0 && !events[0].CallAdded? && !events[0].CallDone?
    ensures Step(p, events[0], again).content == p.content
    ensures OpenCall(Step(p, events[0], again), events[1..], again) == OpenCall(p, events, again)
  {
  }

  lemma StepElsewhere(p: Parsing, e: Event, again: string -> string)
    ensures !e.TextDelta? ==> Step(p, e, again).text == p.text
    ensures !e.ReasoningDelta? ==> Step(p, e, again).thinking == p.thinking
    ensures !e.Completed? ==> Step(p, e, again).usage == p.usage
  {
  }

  lemma StepText(p: Parsing, events: seq<Event>, again: string -> string)
    requires |events| > 0
    ensures Step(p, events[0], again).text + Said(events[1..]) == p.text + Said(events)
  {
    if events[0].TextDelta? {
      Reassociate(p.text, events[0].delta, Said(events[1..]));
    } else {
      NothingAdded(Said(events[1..]));
      StepElsewhere(p, events[0], again);
    }
  }

  lemma StepThinking(p: Parsing, events: seq<Event>, again: string -> string)
    requires |events| > 0
    ensures Step(p, events[0], again).thinking + Thought(events[1..]) == p.thinking + Thought(events)
  {
    if events[0].ReasoningDelta? {
      Reassociate(p.thinking, events[0].delta, Thought(events[1..]));
    } else {
      NothingAdded(Thought(events[1..]));
      StepElsewhere(p, events[0], again);
    }
  }

  lemma StepUsage(p: Parsing, events: seq<Event>, again: string -> string)
    requires |events| > 0
    ensures LastUsage(Step(p, events[0], again).usage, events[1..]) == LastUsage(p.usage, events)
  {
    if !events[0].Completed? {
      StepElsewhere(p, events[0], again);
    }
  }

  /** What has been parsed and what is still to come make the result. */
  ghost predicate OnTrack(p: Parsing, later: seq<Event>, events: seq<Event>, again: string -> string)
  {
    && CallsToCome(p, later, again) == Calls(events, again)
    && p.text + Said(later) == Said(events)
    && p.thinking + Thought(later) == Thought(events)
    && LastUsage(p.usage, later) == LastUsage(Usage(0, 0, 0, 0), events)
    && (p.hadTool <==> p.open || |p.content| > 0)
  }

  lemma StartOnTrack(events: seq<Event>, again: string -> string)
    ensures OnTrack(Parsing([], "", "", Usage(0, 0, 0, 0), false, "", "", "", false), events, events, again)
  {
    NothingAdded(Calls(events, again));
    NothingAdded(Said(events));
    NothingAdded(Thought(events));
  }

  lemma StepOnTrack(p: Parsing, later: seq<Event>, events: seq<Event>, again: string -> string)
    requires |later| > 0 && OnTrack(p, later, events, again)
    ensures OnTrack(Step(p, later[0], again), later[1..], events, again)
  {
    StepCalls(p, later, again);
    StepText(p, later, again);
    StepThinking(p, later, again);
    StepUsage(p, later, again);
  }

  lemma EndOnTrack(p: Parsing, events: seq<Event>, again: string -> string)
    requires OnTrack(p, [], events, again)
    ensures Flushed(p, again).content == Calls(events, again)
    ensures p.text == Said(events) && p.thinking == Thought(events)
    ensures p.usage == LastUsage(Usage(0, 0, 0, 0), events) && (p.hadTool <==> Calls(events, again) != [])
  {
    NothingAdded(p.text);
    NothingAdded(p.thinking);
    NothingAdded(p.content);
    NothingAdded(Flushed(p, again).content);
  }

  class StreamParser {
    const again: string -> string
    var content: seq<Block>
    var text: string
    var thinking: string
    var usage: Usage
    var inToolCall: bool
    var curCallId: string
    var curName: string
    var curArgs: string
    var hadTool: bool

    ghost function View(): Parsing
      reads this
    {
      Parsing(content, text, thinking, usage, inToolCall, curCallId, curName, curArgs, hadTool)
    }

    constructor (again: string -> string)
      ensures View() == Parsing([], "", "", Usage(0, 0, 0, 0), false, "", "", "", false) && this.again == again
    {
      this.again := again;
      content, text, thinking, usage := [], "", "", Usage(0, 0, 0, 0);
      inToolCall, curCallId, curName, curArgs, hadTool := false, "", "", "", false;
    }

    /** flushTool */
    method FlushTool()
      modifies this
      ensures View() == Flushed(old(View()), again)
    {
      if !inToolCall {
        return;
      }
      content := content + [Call(curCallId, curName, curArgs, again)];
      inToolCall, curCallId, curName, curArgs := false, "", "", "";
    }

    /** One event of parseCodexSSE. */
    method Take(e: Event)
      modifies this
      ensures View() == Step(old(View()), e, again)
    {
      match e {
        case CallAdded(callId, name, arguments) =>
          FlushTool();
          curCallId, curName, curArgs, inToolCall, hadTool := callId, name, arguments, true, true;
        case TextDelta(delta) =>
          text := text + delta;
        case ReasoningDelta(delta) =>
          thinking := thinking + delta;
        case ArgumentsDelta(delta) =>
          if inToolCall {
            curArgs := curArgs + delta;
          }
        case ArgumentsDone(arguments) =>
          if inToolCall && arguments != "" {
            curArgs := arguments;
          }
        case CallDone =>
          FlushTool();
        case Completed(input, output) =>
          usage := usage.(input := input, output := output);
        case Ignored =>
      }
    }
  }

  /** parseCodexSSE */
  method ParseStream(events: seq<Event>, again: string -> string) returns (r: Result)
    ensures r == Assembled(events, again)
    ensures IsReply(events, again, r)
  {
    r := ParseEvents(events, again);
    AssembledIsReply(events, again);
  }

  /** Its loop, and what comes after. */
  method ParseEvents(events: seq<Event>, again: string -> string) returns (r: Result)
    ensures r == Assembled(events, again)
  {
    var p := new StreamParser(again);
    assert events[0..] == events;
    StartOnTrack(events, again);
    for i := 0 to |events|
      invariant p.again == again && OnTrack(p.View(), events[i..], events, again)
    {
      StepOnTrack(p.View(), events[i..], events, again);
      assert events[i..][1..] == events[i + 1..];
      p.Take(events[i]);
    }
    EndOnTrack(p.View(), events, again);
    p.FlushTool();
    r := Result(Head(p.thinking, p.text) + p.content, if p.hadTool then TOOL_USE else END_TURN, p.usage);
  }

  // --------------------------------------------------------------- requests

  /** An item of a request's input. */
  datatype Item =
    | UserSays(text: string)
    | UserSaysParts(texts: seq<string>)
    | CallOutput(callId: string, output: string)
    | AssistantSays(text: string)
    | FunctionCall(callId: string, name: string, arguments: string)

  function TextsIn(content: seq<Block>): seq<string>
  {
    if |content| == 0 then []
    else
      var last := content[|content| - 1];
      TextsIn(content[..|content| - 1]) + if last.Text? then [last.text] else []
  }

  function OutputsIn(content: seq<Block>): seq<Item>
  {
    if |content| == 0 then []
    else
      var last := content[|content| - 1];
      OutputsIn(content[..|content| - 1]) +
      if last.ToolResult? then [CallOutput(last.toolUseId, last.content)] else []
  }

  /** A user's tool outputs come before all of the text, which is one item. */
  function UserItems(content: seq<Block>): seq<Item>
  {
    var texts := TextsIn(content);
    OutputsIn(content) +
    if |texts| == 0 then [] else if |texts| == 1 then [UserSays(texts[0])] else [UserSaysParts(texts)]
  }

  function AssistantItem(b: Block): Option<Item>
  {
    match b
    case Text(text) => Some(AssistantSays(text))
    case ToolUse(id, name, input) => Some(FunctionCall(id, name, if input.text == "" then "{}" else input.text))
    case _ => None
  }

  function AssistantItems(content: seq<Block>): seq<Item>
  {
    if |content| == 0 then []
    else
      var last := AssistantItem(content[|content| - 1]);
      AssistantItems(content[..|content| - 1]) + if last.Some? then [last.value] else []
  }

  function MessageItems(m: Message): seq<Item>
  {
    if m.role == USER then UserItems(m.content)
    else if m.role == ASSISTANT then AssistantItems(m.content)
    else []
  }

  function InputItems(messages: seq<Message>): seq<Item>
  {
    if |messages| == 0 then []
    else InputItems(messages[..|messages| - 1]) + MessageItems(messages[|messages| - 1])
  }

  method UserInput(content: seq<Block>, before: seq<Item>) returns (input: seq<Item>)
    ensures input == before + UserItems(content)
  {
    input := before;
    var texts: seq<string> := [];
    for i := 0 to |content|
      invariant input == before + OutputsIn(content[..i]) && texts == TextsIn(content[..i])
    {
      assert content[..i + 1][..i] == content[..i];
      match content[i] {
        case Text(text) => texts := texts + [text];
        case ToolResult(id, output, _) => input := input + [CallOutput(id, output)];
        case _ =>
      }
    }
    assert content[..|content|] == content;
    if |texts| == 1 {
      input := input + [UserSays(texts[0])];
    } else if |texts| > 1 {
      input := input + [UserSaysParts(texts)];
    }
  }

  method AssistantInput(content: seq<Block>, before: seq<Item>) returns (input: seq<Item>)
    ensures input == before + AssistantItems(content)
  {
    input := before;
    for i := 0 to |content|
      invariant input == before + AssistantItems(content[..i])
    {
      assert content[..i + 1][..i] == content[..i];
      match content[i] {
        case Text(text) => input := input + [AssistantSays(text)];
        case ToolUse(id, name, args) =>
          input := input + [FunctionCall(id, name, if args.text == "" then "{}" else args.text)];
        case _ =>
      }
    }
    assert content[..|content|] == content;
  }

  predicate IsText(b: Block) { b.Text? }

  predicate IsResult(b: Block) { b.ToolResult? }

  predicate IsSpoken(b: Block) { b.Text? || b.ToolUse? }

  /** What stands for an assistant's text or call. */
  predicate SpokenAs(k: nat, b: Block, item: Item)
  {
    match b
    case Text(text) => item == AssistantSays(text)
    case ToolUse(id, name, input) => item == FunctionCall(id, name, if input.text == "" then "{}" else input.text)
    case _ => false
  }

  predicate PutOutAs(k: nat, b: Block, item: Item)
  {
    b.ToolResult? && item == CallOutput(b.toolUseId, b.content)
  }

  predicate SaidAs(k: nat, b: Block, text: string) { b.Text? && text == b.text }

  /** The items of a user's blocks: every tool output, in order, and then every text,
      in order, in one item. */
  ghost predicate AsUser(content: seq<Block>, items: seq<Item>)
  {
    exists results, outputs, said, texts ::
      && Picked(content, IsResult, results, outputs, PutOutAs) && Picked(content, IsText, said, texts, SaidAs)
      && items == outputs + if texts == [] then [] else if |texts| == 1 then [UserSays(texts[0])]
                            else [UserSaysParts(texts)]
  }

  ghost predicate AsMessage(m: Message, items: seq<Item>)
  {
    if m.role == "user" then AsUser(m.content, items)
    else if m.role == "assistant" then exists at :: Picked(m.content, IsSpoken, at, items, SpokenAs)
    else items == []
  }

  /** Message by message. */
  ghost predicate Translates(messages: seq<Message>, parts: seq<seq<Item>>, input: seq<Item>)
  {
    && |parts| == |messages| && input == Concat(parts)
    && forall k :: 0 <= k < |messages| ==> AsMessage(messages[k], parts[k])
  }

  lemma {:induction false} SpokenItems(content: seq<Block>) returns (at: seq<nat>)
    ensures Picked(content, IsSpoken, at, AssistantItems(content), SpokenAs)
  {
    if |content| == 0 {
      at := [];
    } else {
      var n := |content| - 1;
      var b := content[n];
      at := SpokenItems(content[..n]);
      PickedMore(content[..n], IsSpoken, at, AssistantItems(content[..n]), SpokenAs, b,
                 if IsSpoken(b) then AssistantItem(b).value else AssistantSays(""));
      assert content == content[..n] + [b];
      at := if IsSpoken(b) then at + [n] else at;
    }
  }

  lemma {:induction false} ResultItems(content: seq<Block>) returns (at: seq<nat>)
    ensures Picked(content, IsResult, at, OutputsIn(content), PutOutAs)
  {
    if |content| == 0 {
      at := [];
    } else {
      var n := |content| - 1;
      var b := content[n];
      at := ResultItems(content[..n]);
      PickedMore(content[..n], IsResult, at, OutputsIn(content[..n]), PutOutAs, b,
                 if IsResult(b) then CallOutput(b.toolUseId, b.content) else CallOutput("", ""));
      assert content == content[..n] + [b];
      at := if IsResult(b) then at + [n] else at;
    }
  }

  lemma {:induction false} SaidTexts(content: seq<Block>) returns (at: seq<nat>)
    ensures Picked(content, IsText, at, TextsIn(content), SaidAs)
  {
    if |content| == 0 {
      at := [];
    } else {
      var n := |content| - 1;
      var b := content[n];
      at := SaidTexts(content[..n]);
      PickedMore(content[..n], IsText, at, TextsIn(content[..n]), SaidAs, b, if IsText(b) then b.text else "");
      assert content == content[..n] + [b];
      at := if IsText(b) then at + [n] else at;
    }
  }

  lemma MessageAs(m: Message)
    ensures AsMessage(m, MessageItems(m))
  {
    if m.role == USER {
      var results := ResultItems(m.content);
      var said := SaidTexts(m.content);
    } else if m.role == ASSISTANT {
      var at := SpokenItems(m.content);
    }
  }

  lemma {:induction false} InputTranslates(messages: seq<Message>) returns (parts: seq<seq<Item>>)
    ensures Translates(messages, parts, InputItems(messages))
  {
    if |messages| == 0 {
      parts := [];
    } else {
      var n := |messages| - 1;
      var before := InputTranslates(messages[..n]);
      MessageAs(messages[n]);
      ConcatMore(before, MessageItems(messages[n]));
      parts := before + [MessageItems(messages[n])];
    }
  }

  /** toCodexInput */
  method ToInput(messages: seq<Message>) returns (input: seq<Item>)
    ensures input == InputItems(messages)
    ensures exists parts :: Translates(messages, parts, input)
  {
    input := [];
    for i := 0 to |messages|
      invariant input == InputItems(messages[..i])
    {
      assert messages[..i + 1][..i] == messages[..i];
      var m := messages[i];
      if m.role == USER {
        input := UserInput(m.content, input);
      } else if m.role == ASSISTANT {
        input := AssistantInput(m.content, input);
      }
    }
    assert messages[..|messages|] == messages;
    ghost var parts := InputTranslates(messages);
  }

  // --------------------------------------------------------- matching order

  function CallIdsOf(items: seq<Item>): seq<string>
  {
    if |items| == 0 then []
    else
      var last := items[|items| - 1];
      CallIdsOf(items[..|items| - 1]) + if last.FunctionCall? then [last.callId] else []
  }

  function OutputIdsOf(items: seq<Item>): seq<string>
  {
    if |items| == 0 then []
    else
      var last := items[|items| - 1];
      OutputIdsOf(items[..|items| - 1]) + if last.CallOutput? then [last.callId] else []
  }

  lemma OneItemMore(items: seq<Item>, item: Item)
    ensures CallIdsOf(items + [item]) == CallIdsOf(items) + (if item.FunctionCall? then [item.callId] else [])
    ensures OutputIdsOf(items + [item]) == OutputIdsOf(items) + (if item.CallOutput? then [item.callId] else [])
  {
    assert (items + [item])[..|items|] == items;
  }

  lemma {:induction false} IdsConcat(a: seq<Item>, b: seq<Item>)
    ensures CallIdsOf(a + b) == CallIdsOf(a) + CallIdsOf(b) && OutputIdsOf(a + b) == OutputIdsOf(a) + OutputIdsOf(b)
  {
    if |b| == 0 {
      assert a + b == a;
    } else {
      var before, last := b[..|b| - 1], b[|b| - 1];
      IdsConcat(a, before);
      assert b == before + [last];
      Reassociate(a, before, [last]);
      OneItemMore(a + before, last);
    }
  }

  /** An assistant's items call what its blocks call, and put out nothing. */
  lemma {:induction false} AssistantIds(content: seq<Block>)
    ensures CallIdsOf(AssistantItems(content)) == CallIds(content) && OutputIdsOf(AssistantItems(content)) == []
  {
    if |content| > 0 {
      var before, last := content[..|content| - 1], AssistantItem(content[|content| - 1]);
      AssistantIds(before);
      if last.Some? {
        OneItemMore(AssistantItems(before), last.value);
      } else {
        assert AssistantItems(content) == AssistantItems(before);
      }
    }
  }

  lemma {:induction false} OutputIds(content: seq<Block>)
    ensures OutputIdsOf(OutputsIn(content)) == AnsweredIds(content) && CallIdsOf(OutputsIn(content)) == []
  {
    if |content| > 0 {
      var before, last := content[..|content| - 1], content[|content| - 1];
      OutputIds(before);
      if last.ToolResult? {
        OneItemMore(OutputsIn(before), CallOutput(last.toolUseId, last.content));
      } else {
        assert OutputsIn(content) == OutputsIn(before);
      }
    }
  }

  /** A user's items put out what its blocks answer, and call nothing. */
  lemma UserIds(content: seq<Block>)
    ensures OutputIdsOf(UserItems(content)) == AnsweredIds(content) && CallIdsOf(UserItems(content)) == []
  {
    var texts := TextsIn(content);
    OutputIds(content);
    if |texts| == 0 {
      assert UserItems(content) == OutputsIn(content);
    } else {
      OneItemMore(OutputsIn(content), if |texts| == 1 then UserSays(texts[0]) else UserSaysParts(texts));
    }
  }

  /** The calls of the last message, which nothing has answered yet. */
  function Pending(messages: seq<Message>): seq<string>
  {
    if |messages| > 0 && messages[|messages| - 1].role == ASSISTANT then CallIds(messages[|messages| - 1].content) else []
  }

  /** In paired messages a user answers exactly what is pending, and nothing is
      pending when someone else goes on. */
  lemma PendingAnswered(messages: seq<Message>, k: nat)
    requires Paired(messages) && k < |messages|
    ensures Pending(messages[..k]) == if messages[k].role == USER then AnsweredIds(messages[k].content) else []
  {
    assert PairedAt(messages, k);
    if k > 0 {
      assert PairedAt(messages, k - 1) && messages[..k][k - 1] == messages[k - 1];
    }
  }

  lemma MessageIds(m: Message)
    ensures CallIdsOf(MessageItems(m)) == Pending([m])
    ensures OutputIdsOf(MessageItems(m)) == if m.role == USER then AnsweredIds(m.content) else []
  {
    if m.role == USER {
      UserIds(m.content);
    } else if m.role == ASSISTANT {
      AssistantIds(m.content);
    }
  }

  lemma ItemsMore(messages: seq<Message>, k: nat)
    requires k < |messages|
    ensures InputItems(messages[..k + 1]) == InputItems(messages[..k]) + MessageItems(messages[k])
  {
    assert messages[..k + 1][..k] == messages[..k];
  }

  lemma OneMessageMore(messages: seq<Message>, k: nat)
    requires k < |messages|
    ensures InputItems(messages[..k + 1]) == InputItems(messages[..k]) + MessageItems(messages[k])
    ensures Pending(messages[..k + 1]) == Pending([messages[k]])
  {
    assert messages[..k + 1][..k] == messages[..k];
  }

  lemma OutputsArePending(messages: seq<Message>, k: nat)
    requires Paired(messages) && k < |messages|
    ensures OutputIdsOf(MessageItems(messages[k])) == Pending(messages[..k])
  {
    PendingAnswered(messages, k);
    MessageIds(messages[k]);
  }

  /** The calls are those put out and those pending. */
  ghost predicate Balanced(messages: seq<Message>)
  {
    CallIdsOf(InputItems(messages)) == OutputIdsOf(InputItems(messages)) + Pending(messages)
  }

  lemma BalanceMore(messages: seq<Message>, k: nat)
    requires k < |messages| && OutputIdsOf(MessageItems(messages[k])) == Pending(messages[..k])
    requires Balanced(messages[..k])
    ensures Balanced(messages[..k + 1])
  {
    OneMessageMore(messages, k);
    MessageIds(messages[k]);
    IdsConcat(InputItems(messages[..k]), MessageItems(messages[k]));
  }

  lemma {:induction false} BalancedUpTo(messages: seq<Message>, k: nat)
    requires k <= |messages|
    requires forall i :: 0 <= i < |messages| ==> OutputIdsOf(MessageItems(messages[i])) == Pending(messages[..i])
    ensures Balanced(messages[..k])
  {
    if k > 0 {
      BalancedUpTo(messages, k - 1);
      BalanceMore(messages, k - 1);
    }
  }

  lemma Balance(messages: seq<Message>, k: nat)
    requires Paired(messages) && k <= |messages|
    ensures Balanced(messages[..k])
  {
    forall i | 0 <= i < |messages| ensures OutputIdsOf(MessageItems(messages[i])) == Pending(messages[..i]) {
      OutputsArePending(messages, i);
    }
    BalancedUpTo(messages, k);
  }

  lemma {:induction false} IdsOfPrefix(items: seq<Item>, j: nat)
    requires j <= |items|
    ensures CallIdsOf(items[..j]) <= CallIdsOf(items) && OutputIdsOf(items[..j]) <= OutputIdsOf(items)
  {
    IdsConcat(items[..j], items[j..]);
    assert items[..j] + items[j..] == items;
  }

  lemma PrefixKept<T>(a: seq<T>, x: seq<T>, y: seq<T>)
    requires x <= y
    ensures a + x <= a + y
  {
  }

  /** The outputs are the first of the calls, in the same order. */
  predicate Follow(items: seq<Item>) { OutputIdsOf(items) <= CallIdsOf(items) }

  lemma TakeOfSum<T>(a: seq<T>, b: seq<T>, j: nat)
    requires j <= |a + b|
    ensures (a + b)[..j] == if j <= |a| then a[..j] else a + b[..j - |a|]
  {
  }

  /** Within the items of one message, outputs stay behind calls. */
  lemma FollowWithin(messages: seq<Message>, k: nat, i: nat)
    requires Paired(messages) && k < |messages| && i <= |MessageItems(messages[k])|
    ensures Follow(InputItems(messages[..k]) + MessageItems(messages[k])[..i])
  {
    var before, m := InputItems(messages[..k]), MessageItems(messages[k]);
    Balance(messages, k);
    PendingAnswered(messages, k);
    MessageIds(messages[k]);
    IdsOfPrefix(m, i);
    IdsConcat(before, m[..i]);
    var outputs := OutputIdsOf(before);
    if messages[k].role == USER {
      PrefixKept(outputs, OutputIdsOf(m[..i]), Pending(messages[..k]));
      NothingAdded(CallIdsOf(before));
    } else {
      NothingAdded(outputs);
    }
  }

  lemma FollowWhole(before: seq<Item>, m: seq<Item>, j: nat)
    requires j <= |before + m|
    requires if j <= |before| then Follow(before[..j]) else Follow(before + m[..j - |before|])
    ensures Follow((before + m)[..j])
  {
    TakeOfSum(before, m, j);
  }

  lemma FollowOneMessage(messages: seq<Message>, k: nat, j: nat)
    requires Paired(messages) && k < |messages| && j <= |InputItems(messages[..k + 1])|
    requires j <= |InputItems(messages[..k])| ==> Follow(InputItems(messages[..k])[..j])
    ensures Follow(InputItems(messages[..k + 1])[..j])
  {
    var before, m := InputItems(messages[..k]), MessageItems(messages[k]);
    ItemsMore(messages, k);
    if j > |before| {
      FollowWithin(messages, k, j - |before|);
    }
    FollowWhole(before, m, j);
  }

  /** However far into the request one reads, the outputs so far are the first of
      the calls so far, in the same order, */
  lemma {:induction false} OutputsFollowCalls(messages: seq<Message>, k: nat, j: nat)
    requires Paired(messages) && k <= |messages| && j <= |InputItems(messages[..k])|
    ensures Follow(InputItems(messages[..k])[..j])
  {
    if k > 0 {
      if j <= |InputItems(messages[..k - 1])| {
        OutputsFollowCalls(messages, k - 1, j);
      }
      FollowOneMessage(messages, k - 1, j);
    }
  }

  /** and in the whole request every call has its output. */
  lemma AllCallsAnswered(messages: seq<Message>)
    requires Paired(messages)
    ensures OutputIdsOf(InputItems(messages)) == CallIdsOf(InputItems(messages))
  {
    Balance(messages, |messages|);
    assert messages[..|messages|] == messages;
    if |messages| > 0 {
      assert PairedAt(messages, |messages| - 1);
    }
  }
}
