/** Fragmented messages (RFC 6455 section 5.4). */
module WsMessages {
  // And the control frames between fragments (sections 5.5.2 and 5.5.3): what
  // ReadMessage makes of any well-formed stream.

  import opened Wrappers
  import opened Sequences
  import opened WebSocket

  /** One frame of a message in flight: a fragment, or a control frame between. */
  datatype Part = Fragment(payload: Bytes) | Ping(payload: Bytes) | Pong(payload: Bytes)

  datatype Msg = Msg(op: Byte, parts: seq<Part>)

  predicate IsData(op: Byte) { op < 16 && op !in {OP_CONTINUATION, OP_CLOSE, OP_PING, OP_PONG} }

  /** Payload sizes a frame can have; a control frame's is at most 125. */
  predicate Sized(p: Part) { |p.payload| <= if p.Fragment? then MAX_LENGTH else 125 }

  ghost predicate WellFormed(m: Msg)
  {
    && IsData(m.op) && |m.parts| > 0 && m.parts[|m.parts| - 1].Fragment?
    && forall i :: 0 <= i < |m.parts| ==> Sized(m.parts[i])
  }

  /** A fragment has come among the first `k` parts. */
  function Begun(parts: seq<Part>, k: nat): bool
    requires k <= |parts|
  {
    k > 0 && (parts[k - 1].Fragment? || Begun(parts, k - 1))
  }

  /** The first fragment carries the opcode, the last part the end of the message. */
  function PartFrame(m: Msg, k: nat): Frame
    requires k < |m.parts|
  {
    match m.parts[k]
    case Fragment(payload) => Frame(k == |m.parts| - 1, if Begun(m.parts, k) then OP_CONTINUATION else m.op, payload)
    case Ping(payload) => Frame(true, OP_PING, payload)
    case Pong(payload) => Frame(true, OP_PONG, payload)
  }

  ghost function Frames(m: Msg): (frames: seq<Frame>)
    requires WellFormed(m)
    ensures |frames| == |m.parts| && AllFrames(frames)
  {
    assert forall k :: 0 <= k < |m.parts| ==> Sized(m.parts[k]) && IsFrame(PartFrame(m, k));
    seq(|m.parts|, k requires 0 <= k < |m.parts| => PartFrame(m, k))
  }

  /** The first `k` parts' fragments put together. */
  function Content(parts: seq<Part>, k: nat): Bytes
    requires k <= |parts|
  {
    if k == 0 then [] else Content(parts, k - 1) + if parts[k - 1].Fragment? then parts[k - 1].payload else []
  }

  function Pings(parts: seq<Part>, k: nat): seq<Bytes>
    requires k <= |parts|
  {
    if k == 0 then [] else Pings(parts, k - 1) + if parts[k - 1].Ping? then [parts[k - 1].payload] else []
  }

  /** What ReadMessage knows after `k` frames of a message. */
  lemma {:induction false} AfterParts(m: Msg, k: nat)
    requires WellFormed(m) && k <= |m.parts|
    ensures AfterFrames(Frames(m)[..k]) ==
              Reading(if Begun(m.parts, k) then m.op else 0, Content(m.parts, k), Pings(m.parts, k),
                      if k == |m.parts| then Some(Message(m.op, Content(m.parts, k))) else None)
  {
    if k > 0 {
      AfterParts(m, k - 1);
      assert Frames(m)[..k][..k - 1] == Frames(m)[..k - 1] && Frames(m)[..k][k - 1] == PartFrame(m, k - 1);
    }
  }

  /** However the frames are masked and whatever follows, one ReadMessage yields
      the message under its first fragment's opcode with its fragments
      concatenated, answers exactly its pings, and leaves exactly the rest. */
  lemma MessageIsRead(m: Msg, masks: seq<Option<Bytes>>, after: Bytes,
                      read: seq<Frame>, rest: Bytes, result: MessageResult, pings: seq<Bytes>)
    requires WellFormed(m) && |masks| == |m.parts| && Masks(masks)
    requires ReadsMessage(WireAll(Frames(m), masks) + after, read, rest, result, pings)
    ensures result == Message(m.op, Content(m.parts, |m.parts|))
    ensures pings == Pings(m.parts, |m.parts|) && rest == after
  {
    var frames, n := Frames(m), |m.parts|;
    StopsAtTheEnd(m, masks, after, read, rest, result, pings);
    DecodesOnlyThose(frames, masks, after, read, rest);
    assert frames[..n] == frames && frames[n..] == [] && masks[n..] == [];
    assert WireAll(frames[n..], masks[n..]) + after == after;
    AfterParts(m, n);
  }

  /** It reads all frames of the message and no more. */
  lemma StopsAtTheEnd(m: Msg, masks: seq<Option<Bytes>>, after: Bytes,
                      read: seq<Frame>, rest: Bytes, result: MessageResult, pings: seq<Bytes>)
    requires WellFormed(m) && |masks| == |m.parts| && Masks(masks)
    requires ReadsMessage(WireAll(Frames(m), masks) + after, read, rest, result, pings)
    ensures |read| == |m.parts|
  {
    var frames, n := Frames(m), |m.parts|;
    if |read| < n {
      StopsTooEarly(m, masks, after, read, rest, result, pings);
    } else if |read| > n {
      DecodesPrefix(WireAll(frames, masks) + after, read, rest, n);
      var left: Bytes :| Decodes(WireAll(frames, masks) + after, read[..n], left);
      DecodesOnlyThose(frames, masks, after, read[..n], left);
      AfterParts(m, n);
    }
  }

  lemma StopsTooEarly(m: Msg, masks: seq<Option<Bytes>>, after: Bytes,
                      read: seq<Frame>, rest: Bytes, result: MessageResult, pings: seq<Bytes>)
    requires WellFormed(m) && |masks| == |m.parts| && Masks(masks) && |read| < |m.parts|
    requires Decodes(WireAll(Frames(m), masks) + after, read, rest)
    ensures AfterFrames(read).done.None? && ParseFrame(rest).Got?
  {
    var frames, k := Frames(m), |read|;
    DecodesOnlyThose(frames, masks, after, read, rest);
    AfterParts(m, k);
    FirstFrame(frames[k..], masks[k..], after);
  }

  lemma {:induction false} DecodesPrefix(bytes: Bytes, frames: seq<Frame>, rest: Bytes, k: nat)
    requires Decodes(bytes, frames, rest) && k <= |frames|
    ensures exists left: Bytes :: Decodes(bytes, frames[..k], left)
    decreases k
  {
    if k == 0 {
      assert Decodes(bytes, frames[..0], bytes);
    } else {
      var mid := DecodesSplit(bytes, frames, rest);
      DecodesPrefix(mid, frames[1..], rest, k - 1);
      var left: Bytes :| Decodes(mid, frames[1..][..k - 1], left);
      DecodesCons(bytes, frames[0], mid, frames[1..][..k - 1], left);
      assert [frames[0]] + frames[1..][..k - 1] == frames[..k];
    }
  }

  // ---------------------------------------------------- whole streams

  ghost predicate MaskedMsgs(msgs: seq<Msg>, masks: seq<seq<Option<Bytes>>>)
  {
    && |masks| == |msgs|
    && forall i :: 0 <= i < |msgs| ==>
         WellFormed(msgs[i]) && |masks[i]| == |msgs[i].parts| && Masks(masks[i])
  }

  ghost function StreamBytes(msgs: seq<Msg>, masks: seq<seq<Option<Bytes>>>): Bytes
    requires MaskedMsgs(msgs, masks)
  {
    if |msgs| == 0 then [] else WireAll(Frames(msgs[0]), masks[0]) + StreamBytes(msgs[1..], masks[1..])
  }

  /** The results of reading message after message. */
  datatype Read = Read(frames: seq<Frame>, rest: Bytes, result: MessageResult, pings: seq<Bytes>)

  ghost predicate ReadsOn(input: Bytes, results: seq<Read>)
    decreases |results|
  {
    |results| > 0 ==>
      && ReadsMessage(input, results[0].frames, results[0].rest, results[0].result, results[0].pings)
      && ReadsOn(results[0].rest, results[1..])
  }

  /** Read `i` gave message `i`, answered its pings and left the rest of the stream. */
  ghost predicate ReadAs(m: Msg, r: Read)
  {
    r.result == Message(m.op, Content(m.parts, |m.parts|)) && r.pings == Pings(m.parts, |m.parts|)
  }

  /** Any well-formed stream is read as its messages, in order, each with its own
      pings answered, and the last read leaves what follows the stream. */
  lemma {:induction false} StreamIsRead(msgs: seq<Msg>, masks: seq<seq<Option<Bytes>>>, after: Bytes, results: seq<Read>)
    requires MaskedMsgs(msgs, masks) && |results| == |msgs| && ReadsOn(StreamBytes(msgs, masks) + after, results)
    ensures forall i :: 0 <= i < |msgs| ==> ReadAs(msgs[i], results[i])
    ensures |msgs| > 0 ==> results[|msgs| - 1].rest == after
    decreases |msgs|
  {
    if |msgs| > 0 {
      var r := results[0];
      FirstMessage(msgs, masks, after, r);
      StreamIsRead(msgs[1..], masks[1..], after, results[1..]);
      if |msgs| == 1 {
        NothingAdded(after);
      }
      forall i | 0 < i < |msgs| ensures ReadAs(msgs[i], results[i]) {
        assert ReadAs(msgs[1..][i - 1], results[1..][i - 1]);
      }
    }
  }

  lemma FirstMessage(msgs: seq<Msg>, masks: seq<seq<Option<Bytes>>>, after: Bytes, r: Read)
    requires MaskedMsgs(msgs, masks) && |msgs| > 0
    requires ReadsMessage(StreamBytes(msgs, masks) + after, r.frames, r.rest, r.result, r.pings)
    ensures ReadAs(msgs[0], r) && r.rest == StreamBytes(msgs[1..], masks[1..]) + after
  {
    var more := StreamBytes(msgs[1..], masks[1..]);
    Reassociate(WireAll(Frames(msgs[0]), masks[0]), more, after);
    MessageIsRead(msgs[0], masks[0], more + after, r.frames, r.rest, r.result, r.pings);
  }
}
