/** The engine itself (internal/engine/engine.go): each operation takes the state
    where EngineRuns says it goes, and a transcript, if there is one, always loads
    to what has been recorded. */
module Engine {
  import opened Wrappers
  import opened Conversation
  import opened Transcript
  import opened EngineRuns
  import Text

  /** A line told to the transcript by the writer of its last one. */
  lemma Told(before: seq<Line>, after: seq<Line>, uuid: string, kind: string, sessionId: string, message: RawMessage)
    requires Grown(Entries(before)) && (kind == USER || kind == ASSISTANT) && DecodeMessage(message).Some?
    requires OneLineMore(before, LastUuid(Entries(before)), after, uuid, kind, sessionId, message)
    ensures Grown(Entries(after)) && uuid == LastUuid(Entries(after))
    ensures Loaded(after).messages == Loaded(before).messages + [DecodeMessage(message).value]
  {
    WriteExtends(before, Envelope(kind, uuid, LastUuid(Entries(before)), sessionId, message));
  }

  ghost predicate Tracks(lines: seq<Line>, lastUuid: string, recorded: seq<Message>)
  {
    Grown(Entries(lines)) && lastUuid == LastUuid(Entries(lines)) && Loaded(lines).messages == recorded
  }

  class Engine {
    const transcript: Writer?
    const settings: Settings
    var messages: seq<Message>
    var turns: int
    var usage: Usage
    ghost var hidden: seq<bool>
    ghost var calls: seq<seq<Message>>
    ghost var recorded: seq<Message>
    ghost var compacted: bool

    ghost function View(): State
      reads this
    {
      State(messages, hidden, turns, usage, calls, recorded, compacted)
    }

    ghost function Files(): set<object>
    {
      if transcript == null then {} else {transcript, transcript.log}
    }

    ghost predicate Valid()
      reads this, Files()
    {
      && this !in Files()
      && (transcript != null ==> Tracks(transcript.log.lines, transcript.lastUuid, recorded))
    }

    /** A new engine, or one resumed from what its transcript loads to. */
    constructor (transcript: Writer?, settings: Settings, loaded: seq<Message>)
      requires transcript != null ==> Tracks(transcript.log.lines, transcript.lastUuid, loaded)
      ensures Valid() && View() == Start(loaded) && this.transcript == transcript && this.settings == settings
    {
      this.transcript, this.settings := transcript, settings;
      messages, turns, usage := loaded, 0, Usage(0, 0, 0, 0);
      hidden, calls, recorded, compacted := seq(|loaded|, _ => false), [], loaded, false;
    }

    method TellUser(text: string, ghost told: seq<Message>)
      requires transcript != null ==> Tracks(transcript.log.lines, transcript.lastUuid, told)
      modifies Files()
      ensures transcript != null ==> Tracks(transcript.log.lines, transcript.lastUuid, told + [UserText(text)])
    {
      if transcript != null {
        ghost var before := transcript.log.lines;
        transcript.WriteUser(text);
        Told(before, transcript.log.lines, transcript.lastUuid, USER, transcript.sessionId, UserRecord(text));
      }
    }

    method TellAssistant(content: seq<Block>, ghost told: seq<Message>)
      requires transcript != null ==> Tracks(transcript.log.lines, transcript.lastUuid, told)
      modifies Files()
      ensures transcript != null ==>
                Tracks(transcript.log.lines, transcript.lastUuid, told + [Message(ASSISTANT, Kept(content))])
    {
      if transcript != null {
        ghost var before := transcript.log.lines;
        transcript.WriteAssistant(content);
        Told(before, transcript.log.lines, transcript.lastUuid, ASSISTANT, transcript.sessionId, AssistantRecord(content));
      }
    }

    method TellResults(results: seq<Block>, ghost told: seq<Message>)
      requires OnlyResults(results)
      requires transcript != null ==> Tracks(transcript.log.lines, transcript.lastUuid, told)
      modifies Files()
      ensures transcript != null ==>
                Tracks(transcript.log.lines, transcript.lastUuid, told + [Message(USER, results)])
    {
      if transcript != null {
        ghost var before := transcript.log.lines;
        transcript.WriteToolResults(results);
        ResultsRoundTrip(results);
        Told(before, transcript.log.lines, transcript.lastUuid, USER, transcript.sessionId, ResultsRecord(results));
      }
    }

    /** A text message of the user's, told to the transcript. */
    method AppendUser(text: string)
      requires Valid()
      modifies this, Files()
      ensures Valid() && View() == Prompted(old(View()), text)
    {
      messages := messages + [UserText(text)];
      TellUser(text, recorded);
      hidden, recorded := hidden + [false], recorded + [UserText(text)];
    }

    method AppendAssistant(r: Outcome)
      requires Valid() && r.Reply?
      modifies this, Files()
      ensures Valid() && View() == Answered(old(View()), r)
    {
      messages := messages + [Message(ASSISTANT, r.content)];
      AddUsage(r.usage);
      TellAssistant(r.content, recorded);
      hidden, recorded := hidden + [false], recorded + [Message(ASSISTANT, Kept(r.content))];
    }

    method AppendResults(results: seq<Block>)
      requires Valid() && OnlyResults(results)
      modifies this, Files()
      ensures Valid() && View() == Resulted(old(View()), results)
    {
      messages := messages + [Message(USER, results)];
      TellResults(results, recorded);
      hidden, recorded := hidden + [false], recorded + [Message(USER, results)];
    }

    method AddUsage(u: Usage)
      modifies this`turns, this`usage
      ensures turns == old(turns) + 1 && usage == Add(old(usage), u)
    {
      turns := turns + 1;
      usage := Usage(usage.input + u.input, usage.output + u.output,
                     usage.cacheCreation + u.cacheCreation, usage.cacheRead + u.cacheRead);
    }

    /** One stream of the model, or none once the script is over. */
    method Stream(script: Script, at: nat, ghost request: seq<Message>) returns (outcome: Outcome)
      modifies this`calls
      ensures calls == old(calls) + [request]
      ensures outcome == if at < |script| then script[at] else Failure
    {
      calls := calls + [request];
      outcome := if at < |script| then script[at] else Failure;
    }

    /** The tool calls of a reply, one after the other. */
    static method RunTools(content: seq<Block>, outputs: seq<Output>) returns (results: seq<Block>)
      ensures results == Results(content, outputs)
      ensures exists at :: ResultsOf(content, at, outputs, results)
    {
      results := [];
      for i := 0 to |content|
        invariant results == Results(content[..i], outputs)
      {
        assert content[..i + 1][..i] == content[..i];
        if !content[i].ToolUse? {
          continue;
        }
        results := results + [ResultOf(content[i].id, outputs, |results|)];
      }
      assert content[..|content|] == content;
      ghost var at := ResultsAreOf(content, outputs);
    }

    /** runLoop: whether it ended without an error. */
    method RunLoop(script: Script) returns (ok: bool)
      requires Valid()
      modifies this, Files()
      ensures Valid() && View() == AfterLoop(old(View()), script)
    {
      var i := 0;
      while true
        invariant 0 <= i <= |script| && Valid()
        invariant AfterLoop(View(), script[i..]) == AfterLoop(old(View()), script)
        decreases |script| - i
      {
        ghost var s := View();
        var res := Stream(script, i, messages);
        if res.Failure? {
          LoopFails(s, script, i);
          return false;
        }
        LoopEnds(s, script, i);
        AppendAssistant(res);
        if res.stop != TOOL_USE {
          if res.limit.Some? {
            ok := FinalTurn(res.limit.value, script, i + 1);
            return;
          }
          return true;
        }
        var results := RunTools(res.content, res.outputs);
        if |results| == 0 {
          return true;
        }
        ResultsAnswerCalls(res.content, res.outputs);
        AppendResults(results);
        LoopGoesOn(s, script, i);
        i := i + 1;
      }
    }

    /** The wrap-up turn of runLoop. */
    method FinalTurn(limit: string, script: Script, i: nat) returns (ok: bool)
      requires Valid() && i <= |script|
      modifies this, Files()
      ensures Valid() && View() == WrapUp(old(View()), limit, script[i..])
    {
      AppendUser(limit);
      var res := Stream(script, i, messages);
      if res.Failure? {
        return false;
      }
      AppendAssistant(res);
      return true;
    }

    /** contextChars */
    method MeasureContext() returns (n: nat)
      ensures n == ContextChars(messages)
    {
      n := 0;
      for i := 0 to |messages|
        invariant n == ContextChars(messages[..i])
      {
        assert messages[..i + 1][..i] == messages[..i];
        var content := messages[i].content;
        ghost var before := n;
        for j := 0 to |content|
          invariant n == before + ContentChars(content[..j])
        {
          assert content[..j + 1][..j] == content[..j];
          n := n + BlockChars(content[j]);
        }
        assert content[..|content|] == content;
      }
      assert messages[..|messages|] == messages;
    }

    static method Summarize(content: seq<Block>) returns (sum: string)
      ensures sum == SummaryOf(content)
    {
      var text := "";
      for i := 0 to |content|
        invariant text == TextOf(content[..i])
      {
        assert content[..i + 1][..i] == content[..i];
        if content[i].Text? {
          text := text + content[i].text;
        }
      }
      assert content[..|content|] == content;
      sum := Text.TrimSpace(text);
    }

    /** Compact, given what its model call brings: whether it replaced the messages. */
    method Compact(summary: Outcome) returns (ok: bool)
      requires Valid()
      modifies this
      ensures Valid() && View() == Compacted(old(View()), summary, settings)
      ensures ok <==> |old(messages)| > 0 && summary.Reply? && SummaryOf(summary.content) != ""
    {
      if |messages| == 0 {
        return false;
      }
      var res := Stream([summary], 0, messages + [UserText(settings.compactPrompt)]);
      if res.Failure? {
        return false;
      }
      AddUsage(res.usage);
      var sum := Summarize(res.content);
      if sum == "" {
        return false;
      }
      ReplaceBy(sum);
      return true;
    }

    method ReplaceBy(sum: string)
      requires Valid()
      modifies this`messages, this`hidden, this`compacted
      ensures Valid() && View() == Summed(old(View()), sum, settings)
    {
      messages := [UserText(settings.summaryPrefix + sum)];
      hidden, compacted := [true], true;
    }

    /** Submit, in the given state of the goal store. */
    method Submit(goal: Option<string>, input: string, script: Script, summary: Outcome) returns (ok: bool)
      requires Valid()
      modifies this, Files()
      ensures Valid() && View() == AfterOp(old(View()), EngineRuns.Submit(goal, input, script, summary), settings)
    {
      if settings.autoCompactChars > 0 {
        var n := MeasureContext();
        if n > settings.autoCompactChars {
          var _ := Compact(summary);
        }
      }
      if goal.Some? {
        messages := messages + [UserText(goal.value)];
        hidden := hidden + [true];
      }
      AppendUser(input);
      ok := RunLoop(script);
    }

    /** ExtractMemories, as far as the conversation goes: whether there is a reply
        to parse. */
    method ExtractMemories(found: Outcome) returns (ok: bool)
      requires Valid()
      modifies this
      ensures Valid() && View() == Extracted(old(View()), found, settings)
      ensures ok <==> |old(messages)| > 0 && found.Reply?
    {
      if |messages| == 0 {
        return false;
      }
      var res := Stream([found], 0, messages + [UserText(settings.extractPrompt)]);
      if res.Failure? {
        return false;
      }
      AddUsage(res.usage);
      return true;
    }

    /** SetObjectiveUpdated */
    method SetObjectiveUpdated(prompt: string)
      requires Valid()
      modifies this`messages, this`hidden
      ensures Valid() && View() == AfterOp(old(View()), Objective(prompt), settings)
    {
      messages := messages + [UserText(prompt)];
      hidden := hidden + [true];
    }
  }
}
