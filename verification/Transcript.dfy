/** The append-only transcript (internal/transcript/writer.go and reader.go). */
module Transcript {
  // JSON is typed: an object is a map of fields, a line either an envelope or
  // something the reader skips.

  import opened Wrappers
  import opened Conversation

  // ------------------------------------------------------------ JSON blocks

  datatype Key = TYPE | TEXT | THINKING | ID | NAME | INPUT | TOOL_USE_ID | CONTENT | IS_ERROR

  /** A JSON string or boolean, or any other value as the text it is encoded to. */
  datatype Field = Str(s: string) | Bool(b: bool) | Array(text: string) | Value(text: string)

  type RawBlock = map<Key, Field>

  function GetStr(raw: RawBlock, key: Key): string
  {
    if key in raw && raw[key].Str? then raw[key].s else ""
  }

  function GetBool(raw: RawBlock, key: Key): bool
  {
    key in raw && raw[key].Bool? && raw[key].b
  }

  /** The JSON text of a field; a string is quoted as if it had nothing to escape. */
  function JsonText(f: Field): string
  {
    match f
    case Str(s) => "\"" + s + "\""
    case Bool(b) => if b then "true" else "false"
    case Array(text) => text
    case Value(text) => text
  }

  /** The block WriteAssistant writes, or none: it knows three kinds. */
  function EncodeBlock(b: Block): Option<RawBlock>
  {
    match b
    case Text(text) => Some(map[TYPE := Str("text"), TEXT := Str(text)])
    case Thinking(text) => Some(map[TYPE := Str("thinking"), THINKING := Str(text)])
    case ToolUse(id, name, input) =>
      Some(map[TYPE := Str("tool_use"), ID := Str(id), NAME := Str(name),
               INPUT := Value(if |input.text| > 0 then input.again else "{}")])
    case _ => None
  }

  /** The block WriteToolResults writes, whatever it is given. */
  function EncodeResult(r: Block): RawBlock
  {
    var (id, content, isError) := if r.ToolResult? then (r.toolUseId, r.content, r.isError) else ("", "", false);
    map[TYPE := Str("tool_result"), TOOL_USE_ID := Str(id), CONTENT := Str(content), IS_ERROR := Bool(isError)]
  }

  /** One block of decodeMessage. */
  function DecodeBlock(raw: RawBlock): Block
  {
    var kind := GetStr(raw, TYPE);
    if kind == "text" then Text(GetStr(raw, TEXT))
    else if kind == "thinking" then Thinking(GetStr(raw, THINKING))
    else if kind == "tool_use" then
      var input := if INPUT in raw then JsonText(raw[INPUT]) else "";
      ToolUse(GetStr(raw, ID), GetStr(raw, NAME), Input(input, input))
    else if kind == "tool_result" then
      var content := if CONTENT in raw && raw[CONTENT].Array? then raw[CONTENT].text else GetStr(raw, CONTENT);
      ToolResult(GetStr(raw, TOOL_USE_ID), content, GetBool(raw, IS_ERROR))
    else Other(kind)
  }

  /** A block the transcript keeps as it is. */
  predicate Recordable(b: Block)
  {
    b.Text? || b.Thinking? || (b.ToolUse? && b.input.text == b.input.again && |b.input.text| > 0)
  }

  lemma Kinds()
    ensures "text" != "thinking" && "text" != "tool_use" && "text" != "tool_result"
    ensures "thinking" != "tool_use" && "thinking" != "tool_result" && "tool_use" != "tool_result"
  {
    assert "thinking"[1] != "tool_use"[1];
  }

  lemma BlockRoundTrip(b: Block)
    ensures Recordable(b) <==> EncodeBlock(b).Some? && DecodeBlock(EncodeBlock(b).value) == b
  {
    Kinds();
  }

  lemma ResultRoundTrip(r: Block)
    ensures r.ToolResult? <==> DecodeBlock(EncodeResult(r)) == r
  {
    Kinds();
  }

  // ---------------------------------------------------------------- content

  function EncodeBlocks(blocks: seq<Block>): seq<RawBlock>
  {
    if |blocks| == 0 then []
    else
      var last := EncodeBlock(blocks[|blocks| - 1]);
      EncodeBlocks(blocks[..|blocks| - 1]) + if last.Some? then [last.value] else []
  }

  function EncodeResults(results: seq<Block>): seq<RawBlock>
  {
    if |results| == 0 then [] else EncodeResults(results[..|results| - 1]) + [EncodeResult(results[|results| - 1])]
  }

  function DecodeBlocks(raws: seq<RawBlock>): seq<Block>
  {
    if |raws| == 0 then [] else DecodeBlocks(raws[..|raws| - 1]) + [DecodeBlock(raws[|raws| - 1])]
  }

  lemma DecodeOneMore(raws: seq<RawBlock>, raw: RawBlock)
    ensures DecodeBlocks(raws + [raw]) == DecodeBlocks(raws) + [DecodeBlock(raw)]
  {
    assert (raws + [raw])[..|raws|] == raws;
  }

  predicate AllRecordable(blocks: seq<Block>)
  {
    forall i :: 0 <= i < |blocks| ==> Recordable(blocks[i])
  }

  lemma {:induction false} DecodesNoMore(blocks: seq<Block>)
    ensures |DecodeBlocks(EncodeBlocks(blocks))| <= |blocks|
  {
    if |blocks| > 0 {
      var before, last := blocks[..|blocks| - 1], blocks[|blocks| - 1];
      DecodesNoMore(before);
      if EncodeBlock(last).Some? {
        DecodeOneMore(EncodeBlocks(before), EncodeBlock(last).value);
      } else {
        assert EncodeBlocks(blocks) == EncodeBlocks(before);
      }
    }
  }

  lemma LastOfEqual<T>(s: seq<T>, t: seq<T>, x: T, y: T)
    ensures s + [x] == t + [y] <==> s == t && x == y
  {
    if s + [x] == t + [y] {
      assert (s + [x])[|s|] == x && (t + [y])[|t|] == y;
      assert (s + [x])[..|s|] == s && (t + [y])[..|t|] == t;
    }
  }

  lemma EncodeOneMore(blocks: seq<Block>, b: Block)
    ensures EncodeBlocks(blocks + [b]) ==
            if EncodeBlock(b).Some? then EncodeBlocks(blocks) + [EncodeBlock(b).value] else EncodeBlocks(blocks)
  {
    assert (blocks + [b])[..|blocks|] == blocks;
  }

  lemma AllRecordableMore(blocks: seq<Block>, b: Block)
    ensures AllRecordable(blocks + [b]) <==> AllRecordable(blocks) && Recordable(b)
  {
    assert (blocks + [b])[|blocks|] == b;
    assert forall i :: 0 <= i < |blocks| ==> (blocks + [b])[i] == blocks[i];
  }

  lemma OneMoreRoundTrip(blocks: seq<Block>, b: Block)
    requires DecodeBlocks(EncodeBlocks(blocks)) == blocks <==> AllRecordable(blocks)
    ensures DecodeBlocks(EncodeBlocks(blocks + [b])) == blocks + [b] <==> AllRecordable(blocks) && Recordable(b)
  {
    EncodeOneMore(blocks, b);
    BlockRoundTrip(b);
    if EncodeBlock(b).Some? {
      DecodeOneMore(EncodeBlocks(blocks), EncodeBlock(b).value);
      LastOfEqual(DecodeBlocks(EncodeBlocks(blocks)), blocks, DecodeBlock(EncodeBlock(b).value), b);
    } else {
      DecodesNoMore(blocks);
      assert |blocks + [b]| == |blocks| + 1;
    }
  }

  /** An assistant's content comes back as it was exactly when every block of it
      is one the transcript keeps. */
  lemma {:induction false} ContentRoundTrip(blocks: seq<Block>)
    ensures DecodeBlocks(EncodeBlocks(blocks)) == blocks <==> AllRecordable(blocks)
  {
    if |blocks| > 0 {
      var before, last := blocks[..|blocks| - 1], blocks[|blocks| - 1];
      assert blocks == before + [last];
      ContentRoundTrip(before);
      OneMoreRoundTrip(before, last);
      AllRecordableMore(before, last);
    }
  }

  lemma {:induction false} ResultsRoundTrip(results: seq<Block>)
    requires OnlyResults(results)
    ensures DecodeBlocks(EncodeResults(results)) == results
  {
    if |results| > 0 {
      var before, last := results[..|results| - 1], results[|results| - 1];
      ResultsRoundTrip(before);
      ResultRoundTrip(last);
      DecodeOneMore(EncodeResults(before), EncodeResult(last));
      assert results == before + [last];
    }
  }

  // --------------------------------------------------------------- messages

  datatype RawContent = Plain(s: string) | Blocks(blocks: seq<RawBlock>) | Malformed

  datatype RawMessage = Raw(role: string, content: RawContent) | NoMessage

  /** decodeMessage */
  function DecodeMessage(raw: RawMessage): Option<Message>
  {
    if raw.NoMessage? then None
    else match raw.content
         case Plain(s) => Some(Message(raw.role, [Text(s)]))
         case Blocks(blocks) => Some(Message(raw.role, DecodeBlocks(blocks)))
         case Malformed => None
  }

  // ------------------------------------------------------------------ lines

  datatype Line =
    | Envelope(kind: string, uuid: string, parent: string, sessionId: string, message: RawMessage)
    | Unreadable // empty, or not JSON

  datatype Entry = Entry(uuid: string, parent: string, message: RawMessage)

  predicate IsEntry(l: Line)
  {
    l.Envelope? && l.uuid != "" && (l.kind == USER || l.kind == ASSISTANT)
  }

  function EntryOf(l: Line): Entry
    requires IsEntry(l)
  {
    Entry(l.uuid, l.parent, l.message)
  }

  /** The lines the reader keeps. */
  function Entries(lines: seq<Line>): seq<Entry>
  {
    if |lines| == 0 then []
    else
      var last := lines[|lines| - 1];
      Entries(lines[..|lines| - 1]) + if IsEntry(last) then [EntryOf(last)] else []
  }

  function SessionOf(lines: seq<Line>): string
  {
    if |lines| == 0 then ""
    else
      var before, last := SessionOf(lines[..|lines| - 1]), lines[|lines| - 1];
      if before == "" && last.Envelope? then last.sessionId else before
  }

  /** The session of a transcript is that of the first line that names one. */
  lemma {:induction false} SessionIsFirst(lines: seq<Line>, k: nat)
    requires k <= |lines|
    requires forall i :: 0 <= i < k && lines[i].Envelope? ==> lines[i].sessionId == ""
    ensures k == |lines| ==> SessionOf(lines) == ""
    ensures k < |lines| && lines[k].Envelope? && lines[k].sessionId != "" ==> SessionOf(lines) == lines[k].sessionId
  {
    if |lines| > 0 {
      var n := |lines| - 1;
      if k <= n {
        SessionIsFirst(lines[..n], k);
      } else {
        SessionIsFirst(lines[..n], n);
      }
    }
  }

  /** Ids are unique, and no entry's parent is the entry itself or a later one;
      a parent may be missing, and several entries may share one. */
  ghost predicate Grown(es: seq<Entry>)
  {
    && (forall i :: 0 <= i < |es| ==> es[i].uuid != "")
    && (forall i, j :: 0 <= i < j < |es| ==> es[i].uuid != es[j].uuid)
    && (forall i, j :: 0 <= i <= j < |es| ==> es[i].parent != es[j].uuid)
  }

  /** Where the entry with this id is, if there is one. */
  function Find(es: seq<Entry>, uuid: string): (at: Option<nat>)
    ensures at.Some? ==> at.value < |es| && es[at.value].uuid == uuid
    ensures at.None? ==> forall i :: 0 <= i < |es| ==> es[i].uuid != uuid
  {
    if |es| == 0 then None
    else if es[|es| - 1].uuid == uuid then Some(|es| - 1)
    else Find(es[..|es| - 1], uuid)
  }

  /** How far into the log a walk back from `uuid` starts. */
  function Rank(es: seq<Entry>, uuid: string): nat
  {
    var at := Find(es, uuid);
    if at.None? then 0 else at.value + 1
  }

  /** The entries from the root to the one with this id. */
  function ChainTo(es: seq<Entry>, uuid: string): seq<Entry>
    requires Grown(es)
    decreases Rank(es, uuid)
  {
    var at := Find(es, uuid);
    if at.None? then [] else ChainTo(es, es[at.value].parent) + [es[at.value]]
  }

  /** Child after child from an entry whose parent is not in the log, down to
      the entry with this id. */
  ghost predicate IsChain(es: seq<Entry>, chain: seq<Entry>, uuid: string)
  {
    && |chain| > 0 && chain[|chain| - 1].uuid == uuid
    && (forall i :: 0 <= i < |chain| ==> IsIn(es, chain[i]))
    && (forall i :: 0 < i < |chain| ==> chain[i].parent == chain[i - 1].uuid)
    && Find(es, chain[0].parent).None?
  }

  ghost predicate IsIn(es: seq<Entry>, e: Entry)
  {
    Find(es, e.uuid).Some? && es[Find(es, e.uuid).value] == e
  }

  /** The walk back finds a chain from a root, */
  lemma {:induction false} ChainToIsChain(es: seq<Entry>, uuid: string)
    requires Grown(es) && Find(es, uuid).Some?
    ensures IsChain(es, ChainTo(es, uuid), uuid)
    decreases Rank(es, uuid)
  {
    var e := es[Find(es, uuid).value];
    if Find(es, e.parent).Some? {
      ChainToIsChain(es, e.parent);
    }
  }

  /** and it is the only one. */
  lemma {:induction false} OnlyChain(es: seq<Entry>, chain: seq<Entry>, uuid: string)
    requires Grown(es) && IsChain(es, chain, uuid)
    ensures chain == ChainTo(es, uuid)
    decreases |chain|
  {
    var n := |chain| - 1;
    assert IsIn(es, chain[n]) && chain == chain[..n] + [chain[n]];
    if n > 0 {
      assert IsIn(es, chain[n - 1]);
      OnlyChain(es, chain[..n], chain[n].parent);
    }
  }

  // ----------------------------------------------------------------- loading

  datatype LoadResult = LoadResult(sessionId: string, messages: seq<Message>, lastUuid: string)

  /** The messages of a chain; an entry whose message does not decode is passed over. */
  function Decoded(chain: seq<Entry>): seq<Message>
  {
    if |chain| == 0 then []
    else
      var last := DecodeMessage(chain[|chain| - 1].message);
      Decoded(chain[..|chain| - 1]) + if last.Some? then [last.value] else []
  }

  function LastUuid(es: seq<Entry>): string
  {
    if |es| == 0 then "" else es[|es| - 1].uuid
  }

  /** What loading a transcript is for: the messages from the root to the last entry. */
  function Loaded(lines: seq<Line>): LoadResult
    requires Grown(Entries(lines))
  {
    var es := Entries(lines);
    LoadResult(SessionOf(lines), Decoded(ChainTo(es, LastUuid(es))), LastUuid(es))
  }

  // ---------------------------------------------------------------- growing

  /** An id no entry has or names as its parent. */
  ghost predicate Fresh(es: seq<Entry>, uuid: string)
  {
    uuid != "" && forall i :: 0 <= i < |es| ==> es[i].uuid != uuid && es[i].parent != uuid
  }

  /** Whatever parent it is given, an entry with a fresh id keeps the log grown. */
  lemma GrowsByFresh(es: seq<Entry>, e: Entry)
    requires Grown(es) && Fresh(es, e.uuid) && e.parent != e.uuid
    ensures Grown(es + [e])
  {
  }

  lemma FindLater(es: seq<Entry>, e: Entry, uuid: string)
    ensures Find(es + [e], uuid) == if e.uuid == uuid then Some(|es|) else Find(es, uuid)
  {
    assert (es + [e])[..|es|] == es;
  }

  /** Earlier chains do not change. */
  lemma {:induction false} ChainStays(es: seq<Entry>, e: Entry, uuid: string)
    requires Grown(es) && Fresh(es, e.uuid) && e.parent != e.uuid && uuid != e.uuid
    ensures Grown(es + [e]) && ChainTo(es + [e], uuid) == ChainTo(es, uuid)
    decreases Rank(es, uuid)
  {
    GrowsByFresh(es, e);
    FindLater(es, e, uuid);
    if Find(es, uuid).Some? {
      ChainStays(es, e, es[Find(es, uuid).value].parent);
    }
  }

  /** One more line under any parent: the log then loads as the chain to that
      parent and the new message; a fork leaves the other branches unread. */
  lemma WriteLoads(lines: seq<Line>, l: Line)
    requires Grown(Entries(lines)) && IsEntry(l) && Fresh(Entries(lines), l.uuid) && l.parent != l.uuid
    ensures Grown(Entries(lines + [l]))
    ensures DecodeMessage(l.message).Some? ==>
              Loaded(lines + [l]).messages == Decoded(ChainTo(Entries(lines), l.parent)) + [DecodeMessage(l.message).value]
    ensures Loaded(lines + [l]).lastUuid == l.uuid
  {
    var es, e := Entries(lines), EntryOf(l);
    assert (lines + [l])[..|lines|] == lines;
    assert Entries(lines + [l]) == es + [e];
    GrowsByFresh(es, e);
    FindLater(es, e, e.uuid);
    ChainStays(es, e, e.parent);
    var up := ChainTo(es, e.parent);
    assert ChainTo(es + [e], e.uuid) == up + [e];
    assert (up + [e])[..|up|] == up;
  }

  /** After SetParent to the loaded last id, one write extends what Load returns by
      exactly its message. */
  lemma WriteExtends(lines: seq<Line>, l: Line)
    requires Grown(Entries(lines)) && IsEntry(l) && Fresh(Entries(lines), l.uuid)
    requires l.parent == Loaded(lines).lastUuid && DecodeMessage(l.message).Some?
    ensures Grown(Entries(lines + [l]))
    ensures Loaded(lines + [l]).messages == Loaded(lines).messages + [DecodeMessage(l.message).value]
    ensures Loaded(lines + [l]).lastUuid == l.uuid
  {
    WriteLoads(lines, l);
  }

  /** Lines of other kinds make no difference. */
  lemma SkippedLine(lines: seq<Line>, l: Line)
    requires Grown(Entries(lines)) && !IsEntry(l)
    ensures Entries(lines + [l]) == Entries(lines)
    ensures Loaded(lines + [l]).messages == Loaded(lines).messages
    ensures Loaded(lines + [l]).lastUuid == Loaded(lines).lastUuid
  {
    assert (lines + [l])[..|lines|] == lines;
  }

  // ------------------------------------------------------------------ reader

  function Reversed<T>(s: seq<T>): (r: seq<T>)
    ensures |r| == |s|
  {
    if |s| == 0 then [] else [s[|s| - 1]] + Reversed(s[..|s| - 1])
  }

  lemma {:induction false} ReversedAt<T>(s: seq<T>, k: nat)
    requires k < |s|
    ensures Reversed(s)[k] == s[|s| - 1 - k]
  {
    if k > 0 {
      ReversedAt(s[..|s| - 1], k - 1);
    }
  }

  method ReverseInPlace(a: array<Entry>)
    modifies a
    ensures a[..] == Reversed(old(a[..]))
  {
    ghost var was := a[..];
    var n := a.Length;
    var i, j := 0, n - 1;
    while i < j
      invariant 0 <= i <= j + 1 && i + j == n - 1
      invariant forall k :: 0 <= k < i || j < k < n ==> a[k] == was[n - 1 - k]
      invariant forall k :: i <= k <= j ==> a[k] == was[k]
    {
      a[i], a[j] := a[j], a[i];
      i, j := i + 1, j - 1;
    }
    forall k | 0 <= k < n ensures a[k] == Reversed(was)[k] {
      ReversedAt(was, k);
    }
    assert a[..] == Reversed(was);
  }

  /** The map from ids to entries holds exactly the log's. */
  ghost predicate Indexed(byUuid: map<string, Entry>, es: seq<Entry>)
  {
    forall uuid :: if Find(es, uuid).Some? then uuid in byUuid && byUuid[uuid] == es[Find(es, uuid).value]
                   else uuid !in byUuid
  }

  lemma IndexOneMore(byUuid: map<string, Entry>, es: seq<Entry>, e: Entry)
    requires Indexed(byUuid, es)
    ensures Indexed(byUuid[e.uuid := e], es + [e])
  {
    forall uuid ensures Find(es + [e], uuid) == if e.uuid == uuid then Some(|es|) else Find(es, uuid) {
      FindLater(es, e, uuid);
    }
  }

  /** The scan of Load: the entries by id, the last one's id, and the session id. */
  method ScanLines(lines: seq<Line>) returns (byUuid: map<string, Entry>, leaf: string, sessionId: string)
    ensures Indexed(byUuid, Entries(lines)) && leaf == LastUuid(Entries(lines)) && sessionId == SessionOf(lines)
  {
    byUuid, sessionId := map[], "";
    var order: seq<string> := [];
    for i := 0 to |lines|
      invariant Indexed(byUuid, Entries(lines[..i])) && sessionId == SessionOf(lines[..i])
      invariant |order| == |Entries(lines[..i])|
      invariant |order| > 0 ==> order[|order| - 1] == LastUuid(Entries(lines[..i]))
    {
      assert lines[..i + 1][..i] == lines[..i];
      var line := lines[i];
      assert !IsEntry(line) ==> Entries(lines[..i + 1]) == Entries(lines[..i]);
      if line.Unreadable? {
        continue;
      }
      if sessionId == "" {
        sessionId := line.sessionId;
      }
      if line.uuid == "" || (line.kind != USER && line.kind != ASSISTANT) {
        continue;
      }
      var e := EntryOf(line);
      IndexOneMore(byUuid, Entries(lines[..i]), e);
      byUuid := byUuid[e.uuid := e];
      order := order + [e.uuid];
    }
    assert lines[..|lines|] == lines;
    leaf := if |order| > 0 then order[|order| - 1] else "";
  }

  /** The walk back along the parents, and its reversal in place. */
  method WalkBack(byUuid: map<string, Entry>, leaf: string, ghost es: seq<Entry>) returns (chain: seq<Entry>)
    requires Grown(es) && Indexed(byUuid, es)
    ensures chain == ChainTo(es, leaf)
  {
    chain := [];
    var cur := leaf;
    while cur != "" && cur in byUuid
      invariant ChainTo(es, leaf) == ChainTo(es, cur) + Reversed(chain)
      decreases Rank(es, cur)
    {
      var env := byUuid[cur];
      ghost var longer := chain + [env];
      assert longer[..|chain|] == chain;
      chain := chain + [env];
      cur := env.parent;
    }
    assert ChainTo(es, cur) == [];
    var a := new Entry[|chain|](i requires 0 <= i < |chain| => chain[i]);
    assert a[..] == chain;
    ReverseInPlace(a);
    chain := a[..];
  }

  method Load(lines: seq<Line>) returns (res: LoadResult)
    requires Grown(Entries(lines))
    ensures res == Loaded(lines)
  {
    var byUuid, leaf, sessionId := ScanLines(lines);
    var chain := WalkBack(byUuid, leaf, Entries(lines));
    var messages: seq<Message> := [];
    for i := 0 to |chain|
      invariant messages == Decoded(chain[..i])
    {
      assert chain[..i + 1][..i] == chain[..i];
      var m := DecodeMessage(chain[i].message);
      if m.None? {
        continue;
      }
      messages := messages + [m.value];
    }
    assert chain[..|chain|] == chain;
    res := LoadResult(sessionId, messages, leaf);
  }

  // ------------------------------------------------------------------ writer

  predicate Used(lines: seq<Line>, uuid: string)
  {
    exists i :: 0 <= i < |lines| && lines[i].Envelope? && (lines[i].uuid == uuid || lines[i].parent == uuid)
  }

  lemma {:induction false} FreshIfUnused(lines: seq<Line>, uuid: string)
    requires uuid != "" && !Used(lines, uuid)
    ensures Fresh(Entries(lines), uuid)
  {
    if |lines| > 0 {
      var before := lines[..|lines| - 1];
      assert forall i :: 0 <= i < |before| ==> before[i] == lines[i];
      FreshIfUnused(before, uuid);
    }
  }

  /** A length no id in the log exceeds. */
  function Longest(lines: seq<Line>): (n: nat)
    ensures forall i :: 0 <= i < |lines| && lines[i].Envelope? ==> |lines[i].uuid| <= n && |lines[i].parent| <= n
  {
    if |lines| == 0 then 0
    else
      var n, l := Longest(lines[..|lines| - 1]), lines[|lines| - 1];
      if l.Envelope? then n + |l.uuid| + |l.parent| else n
  }

  /** A random id is taken to be fresh: any fresh one may come out. */
  method NewUuid(lines: seq<Line>, avoid: string) returns (uuid: string)
    ensures Fresh(Entries(lines), uuid) && uuid != avoid
  {
    uuid := *;
    if uuid == "" || uuid == avoid || Used(lines, uuid) {
      uuid := seq(Longest(lines) + |avoid| + 1, _ => 'f');
    }
    FreshIfUnused(lines, uuid);
  }

  function UserRecord(text: string): RawMessage { Raw(USER, Plain(text)) }

  function AssistantRecord(blocks: seq<Block>): RawMessage { Raw(ASSISTANT, Blocks(EncodeBlocks(blocks))) }

  function ResultsRecord(results: seq<Block>): RawMessage { Raw(USER, Blocks(EncodeResults(results))) }

  /** `after` is `before` and one line under `parent` with the fresh id `uuid`. */
  ghost predicate OneLineMore(before: seq<Line>, parent: string, after: seq<Line>, uuid: string,
                              kind: string, sessionId: string, message: RawMessage)
  {
    && after == before + [Envelope(kind, uuid, parent, sessionId, message)]
    && Fresh(Entries(before), uuid) && uuid != parent && Grown(Entries(after))
  }

  /** The JSONL file; several writers may append to it. */
  class LogFile {
    var lines: seq<Line>

    constructor (lines: seq<Line>)
      ensures this.lines == lines
    {
      this.lines := lines;
    }
  }

  class Writer {
    const log: LogFile
    const sessionId: string
    var lastUuid: string // parent of the next line

    constructor (log: LogFile, sessionId: string)
      ensures this.log == log && this.sessionId == sessionId && lastUuid == ""
    {
      this.log, this.sessionId, lastUuid := log, sessionId, "";
    }

    method SetParent(uuid: string)
      modifies this
      ensures lastUuid == uuid
    {
      lastUuid := uuid;
    }

    method WriteEnvelope(kind: string, message: RawMessage)
      requires Grown(Entries(log.lines)) && (kind == USER || kind == ASSISTANT)
      modifies this, log
      ensures OneLineMore(old(log.lines), old(lastUuid), log.lines, lastUuid, kind, sessionId, message)
    {
      var uuid := NewUuid(log.lines, lastUuid);
      var line := Envelope(kind, uuid, lastUuid, sessionId, message);
      WriteLoads(log.lines, line);
      log.lines := log.lines + [line];
      lastUuid := uuid;
    }

    method WriteUser(text: string)
      requires Grown(Entries(log.lines))
      modifies this, log
      ensures OneLineMore(old(log.lines), old(lastUuid), log.lines, lastUuid, USER, sessionId, UserRecord(text))
    {
      WriteEnvelope(USER, Raw(USER, Plain(text)));
    }

    method WriteToolResults(results: seq<Block>)
      requires Grown(Entries(log.lines))
      modifies this, log
      ensures OneLineMore(old(log.lines), old(lastUuid), log.lines, lastUuid, USER, sessionId, ResultsRecord(results))
    {
      var content: seq<RawBlock> := [];
      for i := 0 to |results|
        invariant content == EncodeResults(results[..i])
      {
        assert results[..i + 1][..i] == results[..i];
        content := content + [EncodeResult(results[i])];
      }
      assert results[..|results|] == results;
      WriteEnvelope(USER, Raw(USER, Blocks(content)));
    }

    method WriteAssistant(blocks: seq<Block>)
      requires Grown(Entries(log.lines))
      modifies this, log
      ensures OneLineMore(old(log.lines), old(lastUuid), log.lines, lastUuid, ASSISTANT, sessionId, AssistantRecord(blocks))
    {
      var content: seq<RawBlock> := [];
      for i := 0 to |blocks|
        invariant content == EncodeBlocks(blocks[..i])
      {
        assert blocks[..i + 1][..i] == blocks[..i];
        var raw := EncodeBlock(blocks[i]);
        if raw.Some? {
          content := content + [raw.value];
        }
      }
      assert blocks[..|blocks|] == blocks;
      WriteEnvelope(ASSISTANT, Raw(ASSISTANT, Blocks(content)));
    }
  }
}
