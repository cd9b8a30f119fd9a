/** The live transcription connection (internal/voice/stream_stt.go).

    The read loop, any number of Finalize calls, Close and the timers are
    interleaved steps, one step per critical section, callback or channel
    operation.  Interim callbacks, audio and keep-alives carry no state and are
    not part of this model; the timers may fire at any moment. */
module SttSession {
  import opened Sequences
  import opened Wrappers

  // ------------------------------------------------------- shared fields

  /** The fields under the mutex; `disarm` is cancelNoData: nil, or an open channel. */
  datatype Shared = Shared(finalized: bool, finalizing: bool, closed: bool, lastText: string, disarm: bool)

  /** strings.TrimLeft(s, " ") */
  function SkipSpaces(s: string): string
  {
    if |s| > 0 && s[0] == ' ' then SkipSpaces(s[1..]) else s
  }

  /** Either text, leading spaces aside, continues the other. */
  predicate Comparable(prev: string, next: string)
  {
    var p, n := SkipSpaces(prev), SkipSpaces(next);
    p <= n || n <= p
  }

  lemma {:induction false} SpacesSkipped(blank: string, s: string)
    requires (forall i :: 0 <= i < |blank| ==> blank[i] == ' ') && (s != "" ==> s[0] != ' ')
    ensures SkipSpaces(blank + s) == s
  {
    if blank == "" {
      assert blank + s == s;
    } else {
      assert (blank + s)[1..] == blank[1..] + s;
      SpacesSkipped(blank[1..], s);
    }
  }

  /** What comparing looks at: the texts from their first character that is no space. */
  lemma ComparableIff(a: string, prev: string, b: string, next: string)
    requires (forall i :: 0 <= i < |a| ==> a[i] == ' ') && (forall i :: 0 <= i < |b| ==> b[i] == ' ')
    requires (prev != "" ==> prev[0] != ' ') && (next != "" ==> next[0] != ' ')
    ensures Comparable(a + prev, b + next) <==> prev <= next || next <= prev
  {
    SpacesSkipped(a, prev);
    SpacesSkipped(b, next);
  }

  function HearFields(sh: Shared, text: string): Shared
  {
    sh.(disarm := sh.disarm && !sh.finalized, lastText := if text == "" then sh.lastText else text)
  }

  /** The text a transcript pushes out as final. */
  function Promoted(sh: Shared, text: string): string
  {
    if text != "" && !Comparable(sh.lastText, text) then sh.lastText else ""
  }

  function GateFields(sh: Shared): Shared
  {
    if sh.finalizing || sh.finalized then sh
    else if sh.closed then sh.(finalizing := true)
    else sh.(finalizing := true, finalized := true, disarm := true)
  }

  /** The new-segment test of handleTranscript. */
  method IsNewSegment(last: string, transcript: string) returns (moved: bool)
    ensures moved == !Comparable(last, transcript)
  {
    var prev, next := SkipSpaces(last), SkipSpaces(transcript);
    moved := prev != "" && next != "" && !(prev <= next) && !(next <= prev);
  }

  /** The connection object: each method is one critical section. */
  class StreamConn {
    var finalized: bool
    var finalizing: bool
    var closed: bool
    var lastText: string
    var disarm: bool

    function View(): Shared
      reads this
    {
      Shared(finalized, finalizing, closed, lastText, disarm)
    }

    constructor ()
      ensures View() == Shared(false, false, false, "", false)
    {
      finalized, finalizing, closed, lastText, disarm := false, false, false, "", false;
    }

    /** handleTranscript, up to the unlock; `disarmed` says the channel was closed. */
    method HandleTranscript(transcript: string) returns (promote: string, disarmed: bool)
      modifies this
      ensures View() == HearFields(old(View()), transcript)
      ensures promote == Promoted(old(View()), transcript)
      ensures disarmed == (old(finalized) && old(disarm))
    {
      promote, disarmed := "", false;
      if finalized && disarm {
        disarmed := true;
        disarm := false;
      }
      if transcript == "" {
        return;
      }
      var moved := IsNewSegment(lastText, transcript);
      if moved {
        promote := lastText;
      }
      lastText := transcript;
    }

    /** The section shared by handleEndpoint and resolve; onWSClose also sets closed. */
    method TakeText(closing: bool) returns (final: string)
      modifies this
      ensures final == old(lastText)
      ensures View() == old(View()).(lastText := "", closed := old(closed) || closing)
    {
      if closing {
        closed := true;
      }
      final := lastText;
      lastText := "";
    }

    /** The gate of Finalize: turned away, to be resolved at once, or armed. */
    method Gate() returns (turnedAway: bool, alreadyClosed: bool)
      modifies this
      ensures View() == GateFields(old(View()))
      ensures turnedAway == (old(finalizing) || old(finalized))
      ensures alreadyClosed == (!turnedAway && old(closed))
    {
      if finalizing || finalized {
        return true, false;
      }
      finalizing := true;
      if closed {
        return false, true;
      }
      disarm := true;
      finalized := true;
      return false, false;
    }

    method Close()
      modifies this
      ensures View() == old(View()).(finalized := true, closed := true)
    {
      finalized := true;
      closed := true;
    }
  }

  // --------------------------------------------------------------- threads

  datatype Owner = Reader | Finalizer(n: nat)
  datatype Once = Idle | Busy(who: Owner) | Done

  /** Where a thread is inside resolve. */
  datatype Resolving = Enter(src: string) | Take(src: string) | Emit(src: string, text: string) | Send(src: string) | Leave

  datatype ReaderPc =
    | Listening
    | Promoting(text: string)
    | Ending(text: string, finalized: bool)
    | Closing(text: string)
    | ReaderResolving(r: Resolving, closing: bool)
    | ReaderDone

  datatype FinPc =
    | WritingClose
    | Selecting
    | SelectingAgain
    | FinResolving(r: Resolving)
    | Receiving
    | Returned(result: string)

  /** What the critical sections did to the texts, in order. */
  datatype Mark = Heard(text: string) | Cut

  /** What has happened so far. */
  datatype Log = Log(history: seq<Mark>, taken: seq<string>, reported: seq<string>,
                     sent: nat, got: nat, disarms: nat, closeStreams: nat, active: Option<nat>)

  datatype State = State(sh: Shared, reader: ReaderPc, fins: seq<FinPc>, once: Once, chan: seq<string>, log: Log)

  const START := State(Shared(false, false, false, "", false), Listening, [], Idle, [], Log([], [], [], 0, 0, 0, 0, None))

  datatype Step =
    | Hear(text: string) | EmitPromoted
    | Endpoint | EmitEnd
    | SocketClose | EmitClose
    | ReaderResolve
    | Finalize
    | WriteClose(n: nat) | Receive(n: nat) | SafetyTimer(n: nat) | NoDataTimer(n: nat) | Disarmed(n: nat)
    | FinResolve(n: nat)
    | CloseConn

  function NonEmpty(t: string): seq<string> { if t == "" then [] else [t] }

  /** The first step of Once.Do waits while another thread is in its body; a send
      waits while the channel is full. */
  predicate CanResolve(s: State, who: Owner, r: Resolving)
  {
    && (r.Enter? ==> !s.once.Busy?)
    && (r.Send? ==> s.chan == [])
  }

  predicate Enabled(s: State, step: Step)
  {
    match step
    case Hear(_) => s.reader.Listening?
    case EmitPromoted => s.reader.Promoting?
    case Endpoint => s.reader.Listening?
    case EmitEnd => s.reader.Ending?
    case SocketClose => s.reader.Listening?
    case EmitClose => s.reader.Closing?
    case ReaderResolve => s.reader.ReaderResolving? && CanResolve(s, Reader, s.reader.r)
    case Finalize => true
    case WriteClose(n) => n < |s.fins| && s.fins[n].WritingClose?
    case Receive(n) => n < |s.fins| && (s.fins[n].Selecting? || s.fins[n].SelectingAgain? || s.fins[n].Receiving?) && s.chan != []
    case SafetyTimer(n) => n < |s.fins| && (s.fins[n].Selecting? || s.fins[n].SelectingAgain?)
    case NoDataTimer(n) => n < |s.fins| && s.fins[n].Selecting?
    case Disarmed(n) => n < |s.fins| && s.fins[n].Selecting? && s.log.disarms > 0
    case FinResolve(n) => n < |s.fins| && s.fins[n].FinResolving? && CanResolve(s, Finalizer(n), s.fins[n].r)
    case CloseConn => true
  }

  /** The text field is emptied; what was there is to be reported. */
  function CutText(s: State): State
  {
    s.(sh := s.sh.(lastText := ""),
       log := s.log.(history := s.log.history + [Cut], taken := s.log.taken + NonEmpty(s.sh.lastText)))
  }

  function Report(s: State, t: string): State
  {
    s.(log := s.log.(reported := s.log.reported + NonEmpty(t)))
  }

  /** One step inside resolve, the caller's own position aside. */
  function ResolveEffect(s: State, who: Owner, r: Resolving): State
  {
    match r
    case Enter(_) => if s.once.Idle? then s.(once := Busy(who)) else s
    case Take(_) => CutText(s)
    case Emit(_, t) => Report(s, t)
    case Send(src) => s.(chan := s.chan + [src], log := s.log.(sent := s.log.sent + 1))
    case Leave => s.(once := Done)
  }

  /** The position after that step; None when resolve returns. */
  function ResolveNext(s: State, r: Resolving): Option<Resolving>
  {
    match r
    case Enter(src) => if s.once.Idle? then Some(Take(src)) else None
    case Take(src) => Some(Emit(src, s.sh.lastText))
    case Emit(src, _) => Some(Send(src))
    case Send(_) => Some(Leave)
    case Leave => None
  }

  function HearStep(s: State, text: string): State
  {
    var promote := Promoted(s.sh, text);
    var disarms := s.log.disarms + if s.sh.finalized && s.sh.disarm then 1 else 0;
    if text == "" then s.(sh := HearFields(s.sh, text), log := s.log.(disarms := disarms))
    else s.(sh := HearFields(s.sh, text), reader := Promoting(promote),
            log := s.log.(disarms := disarms, history := s.log.history + [Heard(text)],
                          taken := s.log.taken + NonEmpty(promote)))
  }

  function FinalizeStep(s: State): State
  {
    var sh, n := GateFields(s.sh), |s.fins|;
    if s.sh.finalizing || s.sh.finalized then s.(fins := s.fins + [Returned("ws_already_closed")])
    else if s.sh.closed then
      s.(sh := sh, fins := s.fins + [FinResolving(Enter("ws_already_closed"))], log := s.log.(active := Some(n)))
    else s.(sh := sh, fins := s.fins + [WritingClose], log := s.log.(active := Some(n)))
  }

  function Next(s: State, step: Step): State
    requires Enabled(s, step)
  {
    match step
    case Hear(text) => HearStep(s, text)
    case EmitPromoted => Report(s, s.reader.text).(reader := Listening)
    case Endpoint => CutText(s).(reader := Ending(s.sh.lastText, s.sh.finalized))
    case EmitEnd =>
      Report(s, s.reader.text).(reader :=
        if s.reader.finalized then ReaderResolving(Enter("post_closestream_endpoint"), false) else Listening)
    case SocketClose => var t := CutText(s); t.(sh := t.sh.(closed := true), reader := Closing(s.sh.lastText))
    case EmitClose => Report(s, s.reader.text).(reader := ReaderResolving(Enter("ws_close"), true))
    case ReaderResolve =>
      var r := ResolveNext(s, s.reader.r);
      ResolveEffect(s, Reader, s.reader.r).(reader :=
        if r.Some? then ReaderResolving(r.value, s.reader.closing)
        else if s.reader.closing then ReaderDone else Listening)
    case Finalize => FinalizeStep(s)
    case WriteClose(n) => s.(fins := s.fins[n := Selecting], log := s.log.(closeStreams := s.log.closeStreams + 1))
    case Receive(n) =>
      s.(fins := s.fins[n := Returned(s.chan[0])], chan := s.chan[1..], log := s.log.(got := s.log.got + 1))
    case SafetyTimer(n) => s.(fins := s.fins[n := FinResolving(Enter("safety_timeout"))])
    case NoDataTimer(n) => s.(fins := s.fins[n := FinResolving(Enter("no_data_timeout"))])
    case Disarmed(n) => s.(fins := s.fins[n := SelectingAgain])
    case FinResolve(n) =>
      var r := ResolveNext(s, s.fins[n].r);
      ResolveEffect(s, Finalizer(n), s.fins[n].r).(fins :=
        s.fins[n := if r.Some? then FinResolving(r.value) else Receiving])
    case CloseConn => s.(sh := s.sh.(finalized := true, closed := true))
  }

  /** Any run: every interleaving of the steps. */
  ghost predicate Run(states: seq<State>, steps: seq<Step>)
  {
    && |states| == |steps| + 1
    && states[0] == START
    && forall k :: 0 <= k < |steps| ==> Enabled(states[k], steps[k]) && states[k + 1] == Next(states[k], steps[k])
  }

  // ------------------------------------------------------------- invariant

  predicate Inside(r: Resolving) { !r.Enter? }

  predicate ReaderInside(s: State) { s.reader.ReaderResolving? && Inside(s.reader.r) }

  predicate FinInside(pc: FinPc) { pc.FinResolving? && Inside(pc.r) }

  /** Whose turn in the body of the once, and how far it is. */
  ghost predicate OnceInv(s: State)
  {
    && (ReaderInside(s) <==> s.once == Busy(Reader))
    && (forall n: nat :: n < |s.fins| ==> (FinInside(s.fins[n]) <==> s.once == Busy(Finalizer(n))))
    && (s.once.Busy? && s.once.who.Finalizer? ==> s.once.who.n < |s.fins|)
    && (s.once.Idle? ==> s.log.sent == 0)
    && (s.once.Done? ==> s.log.sent == 1)
    && (ReaderInside(s) ==> s.log.sent == if s.reader.r.Leave? then 1 else 0)
    && (forall n: nat :: n < |s.fins| && FinInside(s.fins[n]) ==> s.log.sent == if s.fins[n].r.Leave? then 1 else 0)
    && |s.chan| + s.log.got == s.log.sent
  }

  /** At most one Finalize call passes the gate. */
  ghost predicate GateInv(s: State)
  {
    && (s.sh.finalizing <==> s.log.active.Some?)
    && (s.log.active.Some? ==> s.log.active.value < |s.fins|)
    && (forall n: nat :: n < |s.fins| && s.log.active != Some(n) ==> s.fins[n] == Returned("ws_already_closed"))
    && (s.log.got == if s.log.active.Some? && s.fins[s.log.active.value].Returned? then 1 else 0)
    && (forall n: nat :: n < |s.fins| && s.fins[n].Receiving? ==> s.once.Done?)
  }

  ghost predicate ArmedInv(s: State)
  {
    && s.log.disarms <= 1 && s.log.closeStreams <= 1
    && (s.log.disarms + s.log.closeStreams > 0 || s.sh.disarm ==> s.sh.finalizing)
    && (s.sh.disarm ==> s.log.disarms == 0 && s.sh.finalized)
    && (forall n: nat :: n < |s.fins| && s.fins[n].WritingClose? ==> s.log.closeStreams == 0)
  }

  // -------------------------------------------------- the texts of a history

  /** A transcript ends its run when the next mark cuts it off or goes on with a
      text that is no continuation either way. */
  predicate IsRunEnd(h: seq<Mark>, k: nat)
  {
    && k + 1 < |h| && h[k].Heard?
    && (h[k + 1].Heard? ==> !Comparable(h[k].text, h[k + 1].text))
  }

  function EndsBelow(h: seq<Mark>, k: nat): seq<string>
    requires k <= |h|
  {
    if k == 0 then [] else EndsBelow(h, k - 1) + if IsRunEnd(h, k - 1) then [h[k - 1].text] else []
  }

  /** The last transcript of each run that has ended. */
  function RunEnds(h: seq<Mark>): seq<string> { EndsBelow(h, |h|) }

  /** The transcript of the run still going on. */
  function OpenText(h: seq<Mark>): string
  {
    if |h| > 0 && h[|h| - 1].Heard? then h[|h| - 1].text else ""
  }

  predicate NoEmpty(h: seq<Mark>) { forall k :: 0 <= k < |h| && h[k].Heard? ==> h[k].text != "" }

  lemma {:induction false} EndsBelowExtended(h: seq<Mark>, m: Mark, k: nat)
    requires k < |h|
    ensures EndsBelow(h + [m], k) == EndsBelow(h, k)
  {
    if k > 0 {
      EndsBelowExtended(h, m, k - 1);
      assert IsRunEnd(h + [m], k - 1) <==> IsRunEnd(h, k - 1);
    }
  }

  lemma RunEndsExtended(h: seq<Mark>, m: Mark)
    requires NoEmpty(h)
    ensures RunEnds(h + [m]) == RunEnds(h) +
              if OpenText(h) != "" && (m.Heard? ==> !Comparable(OpenText(h), m.text)) then [OpenText(h)] else []
  {
    var n, g := |h|, h + [m];
    assert !IsRunEnd(g, n) && RunEnds(g) == EndsBelow(g, n);
    if n > 0 {
      EndsBelowExtended(h, m, n - 1);
      assert !IsRunEnd(h, n - 1) && RunEnds(h) == EndsBelow(h, n - 1);
      assert g[n - 1] == h[n - 1] && g[n] == m;
      assert h[n - 1].Heard? ==> OpenText(h) == h[n - 1].text != "";
      assert h[n - 1].Cut? ==> OpenText(h) == "";
    }
  }

  function ReaderPending(pc: ReaderPc): seq<string>
  {
    match pc
    case Promoting(t) => NonEmpty(t)
    case Ending(t, _) => NonEmpty(t)
    case Closing(t) => NonEmpty(t)
    case ReaderResolving(Emit(_, t), _) => NonEmpty(t)
    case _ => []
  }

  /** The finals taken by some thread that has yet to report them. */
  function FinPending(s: State): seq<string>
  {
    if s.once.Busy? && s.once.who.Finalizer? && s.once.who.n < |s.fins| then
      match s.fins[s.once.who.n]
      case FinResolving(Emit(_, t)) => NonEmpty(t)
      case _ => []
    else []
  }

  /** The field and the finals taken are what the history says. */
  ghost predicate HistoryInv(last: string, history: seq<Mark>, taken: seq<string>)
  {
    NoEmpty(history) && last == OpenText(history) && taken == RunEnds(history)
  }

  /** Every final taken is reported, or about to be by one thread. */
  ghost predicate PendingInv(s: State)
  {
    multiset(s.log.reported) + multiset(ReaderPending(s.reader)) + multiset(FinPending(s)) == multiset(s.log.taken)
  }

  ghost predicate TextInv(s: State)
  {
    HistoryInv(s.sh.lastText, s.log.history, s.log.taken) && PendingInv(s)
  }

  ghost predicate Inv(s: State)
  {
    OnceInv(s) && GateInv(s) && ArmedInv(s) && TextInv(s)
  }

  // ------------------------------------------------------- it is kept

  lemma CutHistory(h: seq<Mark>, last: string, taken: seq<string>)
    requires HistoryInv(last, h, taken)
    ensures HistoryInv("", h + [Cut], taken + NonEmpty(last))
  {
    RunEndsExtended(h, Cut);
  }

  lemma HeardHistory(h: seq<Mark>, last: string, taken: seq<string>, text: string)
    requires HistoryInv(last, h, taken) && text != ""
    ensures HistoryInv(text, h + [Heard(text)], taken + NonEmpty(if Comparable(last, text) then "" else last))
  {
    assert SkipSpaces("") == "" && Comparable("", text);
    RunEndsExtended(h, Heard(text));
  }

  predicate CutsText(s: State, step: Step)
    requires Enabled(s, step)
  {
    || step.Endpoint? || step.SocketClose?
    || (step.ReaderResolve? && s.reader.r.Take?)
    || (step.FinResolve? && s.fins[step.n].r.Take?)
  }

  lemma StepTouchesText(s: State, step: Step)
    requires Enabled(s, step)
    ensures var t := Next(s, step);
            (t.sh.lastText, t.log.history, t.log.taken) ==
              if CutsText(s, step) then ("", s.log.history + [Cut], s.log.taken + NonEmpty(s.sh.lastText))
              else if step.Hear? && step.text != "" then
                (step.text, s.log.history + [Heard(step.text)],
                 s.log.taken + NonEmpty(if Comparable(s.sh.lastText, step.text) then "" else s.sh.lastText))
              else (s.sh.lastText, s.log.history, s.log.taken)
  {
  }

  lemma StepKeepsHistory(s: State, step: Step)
    requires HistoryInv(s.sh.lastText, s.log.history, s.log.taken) && Enabled(s, step)
    ensures var t := Next(s, step); HistoryInv(t.sh.lastText, t.log.history, t.log.taken)
  {
    StepTouchesText(s, step);
    if CutsText(s, step) {
      CutHistory(s.log.history, s.sh.lastText, s.log.taken);
    } else if step.Hear? && step.text != "" {
      HeardHistory(s.log.history, s.sh.lastText, s.log.taken, step.text);
    }
  }

  lemma HearKeepsPending(s: State, step: Step)
    requires PendingInv(s) && Enabled(s, step) && step.Hear?
    ensures PendingInv(Next(s, step))
  {
    assert FinPending(Next(s, step)) == FinPending(s);
  }

  lemma TakeKeepsPending(s: State, step: Step)
    requires PendingInv(s) && Enabled(s, step) && (step.Endpoint? || step.SocketClose?)
    ensures PendingInv(Next(s, step))
  {
    assert FinPending(Next(s, step)) == FinPending(s);
  }

  lemma EmitReports(s: State, step: Step)
    requires Enabled(s, step) && (step.EmitPromoted? || step.EmitEnd? || step.EmitClose?)
    ensures var t := Next(s, step);
            && t.fins == s.fins && t.once == s.once && ReaderPending(t.reader) == [] && t.log.taken == s.log.taken
            && t.log.reported == s.log.reported + ReaderPending(s.reader)
  {
  }

  lemma EmitKeepsPending(s: State, step: Step)
    requires PendingInv(s) && Enabled(s, step) && (step.EmitPromoted? || step.EmitEnd? || step.EmitClose?)
    ensures PendingInv(Next(s, step))
  {
    EmitReports(s, step);
    var t := Next(s, step);
    assert FinPending(t) == FinPending(s);
    assert multiset(t.log.reported) == multiset(s.log.reported) + multiset(ReaderPending(s.reader));
  }

  lemma BalancedMove(reported: seq<string>, reader: seq<string>, fin: seq<string>, taken: seq<string>,
                     out: seq<string>, more: seq<string>, finAfter: seq<string>)
    requires multiset(reported) + multiset(reader) + multiset(fin) == multiset(taken)
    requires finAfter + out == fin + more
    ensures multiset(reported + out) + multiset(reader) + multiset(finAfter) == multiset(taken + more)
  {
    assert multiset(finAfter) + multiset(out) == multiset(finAfter + out) == multiset(fin) + multiset(more);
    assert multiset(reported + out) == multiset(reported) + multiset(out);
    assert multiset(taken + more) == multiset(taken) + multiset(more);
    var a, b, c, d, e := multiset(reported), multiset(reader), multiset(finAfter), multiset(out), multiset(fin);
    assert a + d + b + c == a + b + (c + d);
    assert a + b + (e + multiset(more)) == a + b + e + multiset(more);
  }

  lemma ReaderPendingMoves(s: State)
    requires Enabled(s, ReaderResolve)
    ensures var t, r := Next(s, ReaderResolve), s.reader.r;
            && ReaderPending(t.reader) + (if r.Emit? then NonEmpty(r.text) else [])
               == ReaderPending(s.reader) + (if r.Take? then NonEmpty(s.sh.lastText) else [])
            && t.fins == s.fins
            && t.log.taken == s.log.taken + (if r.Take? then NonEmpty(s.sh.lastText) else [])
            && t.log.reported == s.log.reported + (if r.Emit? then NonEmpty(r.text) else [])
  {
  }

  lemma OnlyReaderPending(s: State)
    requires FinPending(s) == []
    ensures PendingInv(s) <==> multiset(s.log.reported) + multiset(ReaderPending(s.reader)) == multiset(s.log.taken)
  {
  }

  lemma ReaderResolveKeepsPending(s: State)
    requires OnceInv(s) && PendingInv(s) && Enabled(s, ReaderResolve)
    ensures PendingInv(Next(s, ReaderResolve))
  {
    ReaderPendingMoves(s);
    var t, r := Next(s, ReaderResolve), s.reader.r;
    var out, more := if r.Emit? then NonEmpty(r.text) else [], if r.Take? then NonEmpty(s.sh.lastText) else [];
    assert FinPending(t) == FinPending(s) == [];
    OnlyReaderPending(s);
    OnlyReaderPending(t);
    BalancedMove(s.log.reported, FinPending(s), ReaderPending(s.reader), s.log.taken, out, more, ReaderPending(t.reader));
  }

  lemma FinPendingMoves(s: State, n: nat)
    requires OnceInv(s) && Enabled(s, FinResolve(n))
    ensures var t, r := Next(s, FinResolve(n)), s.fins[n].r;
            && FinPending(t) + (if r.Emit? then NonEmpty(r.text) else [])
               == FinPending(s) + (if r.Take? then NonEmpty(s.sh.lastText) else [])
            && t.reader == s.reader
            && t.log.taken == s.log.taken + (if r.Take? then NonEmpty(s.sh.lastText) else [])
            && t.log.reported == s.log.reported + (if r.Emit? then NonEmpty(r.text) else [])
  {
    assert FinInside(s.fins[n]) <==> s.once == Busy(Finalizer(n));
  }

  lemma FinResolveKeepsPending(s: State, n: nat)
    requires OnceInv(s) && PendingInv(s) && Enabled(s, FinResolve(n))
    ensures PendingInv(Next(s, FinResolve(n)))
  {
    FinPendingMoves(s, n);
    var t, r := Next(s, FinResolve(n)), s.fins[n].r;
    var out, more := if r.Emit? then NonEmpty(r.text) else [], if r.Take? then NonEmpty(s.sh.lastText) else [];
    BalancedMove(s.log.reported, ReaderPending(s.reader), FinPending(s), s.log.taken, out, more, FinPending(t));
  }

  lemma FinPendingFrame(s: State, t: State, n: nat)
    requires OnceInv(s) && t.once == s.once && s.once != Busy(Finalizer(n)) && |s.fins| <= |t.fins|
    requires forall k: nat :: k < |s.fins| && k != n ==> t.fins[k] == s.fins[k]
    ensures FinPending(t) == FinPending(s)
  {
  }

  lemma CallKeepsPending(s: State, step: Step)
    requires OnceInv(s) && PendingInv(s) && Enabled(s, step) && (step.Finalize? || step.CloseConn?)
    ensures PendingInv(Next(s, step))
  {
    FinPendingFrame(s, Next(s, step), |s.fins|);
  }

  lemma FinKeepsPending(s: State, step: Step)
    requires OnceInv(s) && PendingInv(s) && Enabled(s, step)
    requires step.WriteClose? || step.Receive? || step.SafetyTimer? || step.NoDataTimer? || step.Disarmed?
    ensures PendingInv(Next(s, step))
  {
    assert FinInside(s.fins[step.n]) <==> s.once == Busy(Finalizer(step.n));
    FinPendingFrame(s, Next(s, step), step.n);
  }

  lemma StepKeepsPending(s: State, step: Step)
    requires OnceInv(s) && PendingInv(s) && Enabled(s, step)
    ensures PendingInv(Next(s, step))
  {
    if step.Hear? {
      HearKeepsPending(s, step);
    } else if step.Endpoint? || step.SocketClose? {
      TakeKeepsPending(s, step);
    } else if step.EmitPromoted? || step.EmitEnd? || step.EmitClose? {
      EmitKeepsPending(s, step);
    } else if step.ReaderResolve? {
      ReaderResolveKeepsPending(s);
    } else if step.FinResolve? {
      FinResolveKeepsPending(s, step.n);
    } else if step.Finalize? || step.CloseConn? {
      CallKeepsPending(s, step);
    } else {
      FinKeepsPending(s, step);
    }
  }

  lemma StepKeepsText(s: State, step: Step)
    requires OnceInv(s) && TextInv(s) && Enabled(s, step)
    ensures TextInv(Next(s, step))
  {
    StepKeepsHistory(s, step);
    StepKeepsPending(s, step);
  }

  lemma ReaderResolveKeepsOnce(s: State)
    requires OnceInv(s) && Enabled(s, ReaderResolve)
    ensures OnceInv(Next(s, ReaderResolve))
  {
  }

  lemma FinResolveKeepsOnce(s: State, n: nat)
    requires OnceInv(s) && Enabled(s, FinResolve(n))
    ensures OnceInv(Next(s, FinResolve(n)))
  {
    assert FinInside(s.fins[n]) <==> s.once == Busy(Finalizer(n));
  }

  lemma OtherKeepsOnce(s: State, step: Step)
    requires OnceInv(s) && Enabled(s, step) && !step.ReaderResolve? && !step.FinResolve? && !Arms(step)
    ensures OnceInv(Next(s, step))
  {
  }

  lemma ArmingKeepsOnce(s: State, step: Step)
    requires OnceInv(s) && Enabled(s, step) && Arms(step)
    ensures OnceInv(Next(s, step))
  {
  }

  lemma StepKeepsOnce(s: State, step: Step)
    requires OnceInv(s) && Enabled(s, step)
    ensures OnceInv(Next(s, step))
  {
    match step
    case ReaderResolve => ReaderResolveKeepsOnce(s);
    case FinResolve(n) => FinResolveKeepsOnce(s, n);
    case _ => if Arms(step) { ArmingKeepsOnce(s, step); } else { OtherKeepsOnce(s, step); }
  }

  lemma ReceiveKeepsGate(s: State, n: nat)
    requires OnceInv(s) && GateInv(s) && Enabled(s, Receive(n))
    ensures GateInv(Next(s, Receive(n)))
  {
  }

  lemma ResolveKeepsGate(s: State, step: Step)
    requires OnceInv(s) && GateInv(s) && Enabled(s, step) && (step.ReaderResolve? || step.FinResolve?)
    ensures GateInv(Next(s, step))
  {
  }

  lemma OtherKeepsGate(s: State, step: Step)
    requires GateInv(s) && Enabled(s, step) && !step.Receive? && !step.ReaderResolve? && !step.FinResolve?
    ensures GateInv(Next(s, step))
  {
  }

  lemma StepKeepsGate(s: State, step: Step)
    requires OnceInv(s) && GateInv(s) && Enabled(s, step)
    ensures GateInv(Next(s, step))
  {
    if step.Receive? {
      ReceiveKeepsGate(s, step.n);
    } else if step.ReaderResolve? || step.FinResolve? {
      ResolveKeepsGate(s, step);
    } else {
      OtherKeepsGate(s, step);
    }
  }

  predicate Arms(step: Step) { step.Hear? || step.Finalize? || step.WriteClose? || step.CloseConn? }

  lemma ArmingKeepsArmed(s: State, step: Step)
    requires GateInv(s) && ArmedInv(s) && Enabled(s, step) && Arms(step)
    ensures ArmedInv(Next(s, step))
  {
  }

  /** No other step touches what is armed, or comes back to writing CloseStream. */
  lemma OthersArmNothing(s: State, step: Step)
    requires Enabled(s, step) && !Arms(step)
    ensures var t := Next(s, step);
            && t.log.disarms == s.log.disarms && t.log.closeStreams == s.log.closeStreams
            && t.sh.disarm == s.sh.disarm && t.sh.finalizing == s.sh.finalizing && t.sh.finalized == s.sh.finalized
            && |t.fins| == |s.fins|
            && forall n: nat :: n < |s.fins| && t.fins[n].WritingClose? ==> s.fins[n].WritingClose?
  {
  }

  lemma StepKeepsArmed(s: State, step: Step)
    requires GateInv(s) && ArmedInv(s) && Enabled(s, step)
    ensures ArmedInv(Next(s, step))
  {
    if Arms(step) {
      ArmingKeepsArmed(s, step);
    } else {
      OthersArmNothing(s, step);
    }
  }

  lemma StepKeepsInv(s: State, step: Step)
    requires Inv(s) && Enabled(s, step)
    ensures Inv(Next(s, step))
  {
    StepKeepsOnce(s, step);
    StepKeepsGate(s, step);
    StepKeepsArmed(s, step);
    StepKeepsText(s, step);
  }

  lemma {:induction false} RunKeepsInv(states: seq<State>, steps: seq<Step>, k: nat)
    requires Run(states, steps) && k < |states|
    ensures Inv(states[k])
  {
    if k > 0 {
      RunKeepsInv(states, steps, k - 1);
      StepKeepsInv(states[k - 1], steps[k - 1]);
    }
  }

  // ------------------------------------------------------- what follows

  /** No thread is between taking a final and reporting it. */
  predicate Settled(s: State) { ReaderPending(s.reader) == [] && FinPending(s) == [] }

  /** Under every interleaving the finals taken are, in order, the last transcripts
      of the ended runs; each is reported once by whoever took it, and whenever no
      report is outstanding all have been: none lost, none twice. */
  lemma FinalsAreRunEnds(states: seq<State>, steps: seq<Step>, k: nat)
    requires Run(states, steps) && k < |states|
    ensures states[k].log.taken == RunEnds(states[k].log.history)
    ensures states[k].sh.lastText == OpenText(states[k].log.history)
    ensures multiset(states[k].log.reported) <= multiset(RunEnds(states[k].log.history))
    ensures Settled(states[k]) ==> multiset(states[k].log.reported) == multiset(RunEnds(states[k].log.history))
  {
    RunKeepsInv(states, steps, k);
  }

  /** Once the connection is closed and resolve has run, nothing is left behind. */
  lemma NothingLeftBehind(s: State, step: Step)
    requires Inv(s) && Enabled(s, step) && CutsText(s, step)
    ensures Next(s, step).sh.lastText == ""
    ensures Next(s, step).log.taken == RunEnds(s.log.history + [Cut])
  {
    StepTouchesText(s, step);
    CutHistory(s.log.history, s.sh.lastText, s.log.taken);
  }

  /** Every send finds the channel empty and happens at most once; the disarming
      channel is closed at most once and CloseStream written at most once. */
  lemma AtMostOnce(states: seq<State>, steps: seq<Step>, k: nat)
    requires Run(states, steps) && k < |states|
    ensures var s := states[k];
            && s.log.sent <= 1 && |s.chan| <= 1 && s.log.got <= 1 && s.log.disarms <= 1 && s.log.closeStreams <= 1
            && (s.reader.ReaderResolving? && s.reader.r.Send? ==> s.chan == [])
            && (forall n: nat :: n < |s.fins| && s.fins[n].FinResolving? && s.fins[n].r.Send? ==> s.chan == [])
  {
    RunKeepsInv(states, steps, k);
    var s := states[k];
    if ReaderInside(s) {
      assert s.once == Busy(Reader);
    }
    forall n: nat | n < |s.fins| && s.fins[n].FinResolving? && s.fins[n].r.Send? ensures s.chan == [] {
      assert FinInside(s.fins[n]);
    }
  }

  /** After an earlier Finalize, or a Close, a Finalize call is answered at once. */
  lemma LaterCallsReturnAtOnce(states: seq<State>, steps: seq<Step>, i: nat, k: nat)
    requires Run(states, steps) && i < k < |steps|
    requires (steps[i].Finalize? || steps[i].CloseConn?) && steps[k].Finalize?
    ensures states[k + 1].fins == states[k].fins + [Returned("ws_already_closed")]
  {
    assert states[i + 1] == Next(states[i], steps[i]);
    GateStaysShut(states, steps, i + 1, k);
    assert states[k + 1] == Next(states[k], steps[k]);
  }

  predicate Shut(s: State) { s.sh.finalizing || s.sh.finalized }

  lemma StepKeepsShut(s: State, step: Step)
    requires Shut(s) && Enabled(s, step)
    ensures Shut(Next(s, step))
  {
  }

  lemma GateStaysShut(states: seq<State>, steps: seq<Step>, i: nat, k: nat)
    requires Run(states, steps) && i <= k < |states| && Shut(states[i])
    ensures Shut(states[k])
  {
    forall m | i <= m < k && Shut(states[m]) ensures Shut(states[m + 1]) {
      StepKeepsShut(states[m], steps[m]);
    }
    Persists(states, i, k, Shut);
  }

  lemma StepKeepsOpen(s: State, step: Step)
    requires !Shut(s) && Enabled(s, step) && !step.Finalize? && !step.CloseConn?
    ensures !Shut(Next(s, step))
  {
  }

  /** The first Finalize call, with no Close before it, passes the gate. */
  lemma {:induction false} FirstCallPasses(states: seq<State>, steps: seq<Step>, k: nat)
    requires Run(states, steps) && k < |states|
    requires forall i :: 0 <= i < k ==> !steps[i].Finalize? && !steps[i].CloseConn?
    ensures !Shut(states[k])
    ensures Next(states[k], Finalize).log.active == Some(|states[k].fins|)
  {
    if k > 0 {
      FirstCallPasses(states, steps, k - 1);
      StepKeepsOpen(states[k - 1], steps[k - 1]);
    }
  }

  // ----------------------------------------------------------- progress

  /** The Finalize call that passed the gate has seen a timer fire, or is past it. */
  predicate TimerFired(s: State)
  {
    && s.log.active.Some? && s.log.active.value < |s.fins|
    && var pc := s.fins[s.log.active.value];
       pc.FinResolving? || pc.Receiving? || pc.Returned?
  }

  /** A value is on its way to that call: somebody has entered the once, or the read
      loop or the call is about to. */
  predicate Coming(s: State)
  {
    && s.log.active.Some? && s.log.active.value < |s.fins|
    && (!s.once.Idle? || s.reader.ReaderResolving? || s.fins[s.log.active.value].FinResolving?)
  }

  predicate GotValue(s: State)
  {
    s.log.active.Some? && s.log.active.value < |s.fins| && s.fins[s.log.active.value].Returned?
  }

  /** A timer is not needed for it: the endpoint that follows CloseStream, and the
      close of the socket, make the read loop resolve. */
  lemma EndMakesItCome(s: State, step: Step)
    requires Inv(s) && Enabled(s, step) && s.log.active.Some?
    requires (step.EmitEnd? && s.reader.finalized) || step.EmitClose?
    ensures Coming(Next(s, step))
  {
  }

  lemma TimerMakesItCome(s: State)
    requires Inv(s) && TimerFired(s)
    ensures Coming(s)
  {
  }

  function StepsInside(r: Resolving): nat
  {
    match r
    case Enter(_) => 5
    case Take(_) => 4
    case Emit(_, _) => 3
    case Send(_) => 2
    case Leave => 1
  }

  /** What is left to be done inside the once. */
  function OnceLeft(s: State): nat
  {
    match s.once
    case Idle => 5
    case Done => 0
    case Busy(Reader) => if s.reader.ReaderResolving? then StepsInside(s.reader.r) else 1
    case Busy(Finalizer(n)) => if n < |s.fins| && s.fins[n].FinResolving? then StepsInside(s.fins[n].r) else 1
  }

  /** What is left to be done by the call. */
  function CallLeft(pc: FinPc): nat
  {
    match pc
    case WritingClose => 5
    case Selecting => 4
    case SelectingAgain => 3
    case FinResolving(_) => 2
    case Receiving => 1
    case Returned(_) => 0
  }

  /** How many helpful steps the call is away from returning, at most. */
  function Distance(s: State): nat
    requires Coming(s)
  {
    if GotValue(s) then 0 else OnceLeft(s) + CallLeft(s.fins[s.log.active.value])
  }

  /** The step that brings it nearer: its own, or the read loop's while the call has
      nothing to receive and is not resolving itself. */
  function HelpfulStep(s: State): Step
    requires Coming(s)
  {
    var n := s.log.active.value;
    var pc := s.fins[n];
    if pc.WritingClose? then WriteClose(n)
    else if s.chan != [] && !pc.FinResolving? then Receive(n)
    else if pc.FinResolving? && (Inside(pc.r) || !s.once.Busy?) then FinResolve(n)
    else ReaderResolve
  }

  lemma OwnerIsInside(s: State)
    requires OnceInv(s) && s.once.Busy?
    ensures (s.once == Busy(Reader) && ReaderInside(s)) || exists n: nat :: n < |s.fins| && FinInside(s.fins[n])
  {
    if s.once.who.Finalizer? {
      assert FinInside(s.fins[s.once.who.n]);
    }
  }

  lemma OwnerIsReader(s: State)
    requires Inv(s) && Coming(s) && s.once.Busy? && !FinInside(s.fins[s.log.active.value])
    ensures s.once == Busy(Reader) && ReaderInside(s)
  {
    OwnerIsInside(s);
    forall m: nat | m < |s.fins| ensures !FinInside(s.fins[m]) {}
  }

  lemma OwnerIsCall(s: State)
    requires Inv(s) && Coming(s) && FinInside(s.fins[s.log.active.value])
    ensures s.once == Busy(Finalizer(s.log.active.value))
  {
  }

  // A step brings the call nearer.

  lemma WriteCloseHelps(s: State)
    requires Inv(s) && Coming(s) && s.fins[s.log.active.value].WritingClose?
    ensures Enabled(s, HelpfulStep(s))
    ensures var t := Next(s, HelpfulStep(s)); Coming(t) && Distance(t) < Distance(s)
  {
    if s.once.Busy? {
      OwnerIsReader(s);
    }
  }

  lemma ReceiveHelps(s: State)
    requires Inv(s) && Coming(s) && !GotValue(s) && s.chan != []
    requires var pc := s.fins[s.log.active.value]; !pc.FinResolving? && !pc.WritingClose?
    ensures Enabled(s, HelpfulStep(s))
    ensures var t := Next(s, HelpfulStep(s)); Coming(t) && Distance(t) < Distance(s)
  {
  }

  lemma EnteringHelps(s: State)
    requires Inv(s) && Coming(s) && !s.once.Busy?
    requires s.fins[s.log.active.value].FinResolving? && s.fins[s.log.active.value].r.Enter?
    ensures Enabled(s, HelpfulStep(s))
    ensures var t := Next(s, HelpfulStep(s)); Coming(t) && Distance(t) < Distance(s)
  {
  }

  lemma InsideStep(s: State)
    requires Coming(s) && FinInside(s.fins[s.log.active.value]) && s.once == Busy(Finalizer(s.log.active.value))
    requires s.fins[s.log.active.value].r.Send? ==> s.chan == []
    ensures Enabled(s, HelpfulStep(s))
    ensures var t := Next(s, HelpfulStep(s)); Coming(t) && Distance(t) < Distance(s)
  {
  }

  lemma StepInsideHelps(s: State)
    requires Inv(s) && Coming(s) && FinInside(s.fins[s.log.active.value])
    ensures Enabled(s, HelpfulStep(s))
    ensures var t := Next(s, HelpfulStep(s)); Coming(t) && Distance(t) < Distance(s)
  {
    OwnerIsCall(s);
    InsideStep(s);
  }

  lemma ReaderInsideHelps(s: State)
    requires Inv(s) && Coming(s) && !GotValue(s) && s.once == Busy(Reader) && ReaderInside(s)
    requires HelpfulStep(s) == ReaderResolve
    ensures Enabled(s, ReaderResolve)
    ensures var t := Next(s, ReaderResolve); Coming(t) && Distance(t) < Distance(s)
  {
  }

  lemma ReaderEntersHelps(s: State)
    requires Inv(s) && Coming(s) && !GotValue(s) && s.once.Idle? && s.reader.ReaderResolving?
    ensures Enabled(s, ReaderResolve)
    ensures var t := Next(s, ReaderResolve); Coming(t) && Distance(t) < Distance(s)
  {
  }

  /** While the call waits and nothing is there to receive, nothing has been sent. */
  lemma NotSentYet(s: State)
    requires Inv(s) && Coming(s) && !GotValue(s) && s.chan == []
    ensures s.log.sent == 0 && !s.once.Done? && !s.fins[s.log.active.value].Receiving?
  {
  }

  lemma ReaderStepHelps(s: State)
    requires Inv(s) && Coming(s) && !GotValue(s) && HelpfulStep(s) == ReaderResolve
    ensures Enabled(s, ReaderResolve)
    ensures var t := Next(s, ReaderResolve); Coming(t) && Distance(t) < Distance(s)
  {
    if s.fins[s.log.active.value].FinResolving? {
      OwnerIsReader(s);
      ReaderInsideHelps(s);
    } else {
      NotSentYet(s);
      if s.once.Busy? {
        OwnerIsReader(s);
        ReaderInsideHelps(s);
      } else {
        ReaderEntersHelps(s);
      }
    }
  }

  /** The helpful step is always possible, and helps. */
  lemma HelpfulStepHelps(s: State) returns (step: Step, t: State)
    requires Inv(s) && Coming(s) && !GotValue(s)
    ensures step == HelpfulStep(s) && Enabled(s, step) && t == Next(s, step)
    ensures Inv(t) && Coming(t) && Distance(t) < Distance(s)
  {
    var pc := s.fins[s.log.active.value];
    if pc.WritingClose? {
      WriteCloseHelps(s);
    } else if s.chan != [] && !pc.FinResolving? {
      ReceiveHelps(s);
    } else if FinInside(pc) {
      StepInsideHelps(s);
    } else if pc.FinResolving? && !s.once.Busy? {
      EnteringHelps(s);
    } else {
      ReaderStepHelps(s);
    }
    step := HelpfulStep(s);
    t := Next(s, step);
    StepKeepsInv(s, step);
  }

  // No step takes it back.

  predicate OfCall(step: Step)
  {
    step.WriteClose? || step.Receive? || step.SafetyTimer? || step.NoDataTimer? || step.Disarmed? || step.FinResolve?
  }

  lemma OnlyTheActiveOneMoves(s: State, step: Step)
    requires GateInv(s) && Coming(s) && Enabled(s, step) && OfCall(step)
    ensures step.n == s.log.active.value && !GotValue(s)
  {
  }

  lemma WaitingStepNoHarm(s: State, step: Step)
    requires Inv(s) && Coming(s) && Enabled(s, step)
    requires step.SafetyTimer? || step.NoDataTimer? || step.Disarmed?
    ensures Coming(Next(s, step)) && Distance(Next(s, step)) < Distance(s)
  {
    OnlyTheActiveOneMoves(s, step);
    if s.once.Busy? {
      OwnerIsReader(s);
    }
  }

  lemma CallStepNoHarm(s: State, step: Step)
    requires Inv(s) && Coming(s) && Enabled(s, step) && OfCall(step)
    ensures Coming(Next(s, step)) && Distance(Next(s, step)) < Distance(s)
  {
    OnlyTheActiveOneMoves(s, step);
    if step.WriteClose? {
      WriteCloseHelps(s);
    } else if step.Receive? {
      ReceiveHelps(s);
    } else if step.FinResolve? {
      if s.fins[step.n].r.Enter? {
        EnteringHelps(s);
      } else {
        StepInsideHelps(s);
      }
    } else {
      WaitingStepNoHarm(s, step);
    }
  }

  lemma ReaderResolveNoHarm(s: State)
    requires Inv(s) && Coming(s) && Enabled(s, ReaderResolve)
    ensures Coming(Next(s, ReaderResolve)) && Distance(Next(s, ReaderResolve)) <= Distance(s)
    ensures Distance(Next(s, ReaderResolve)) < Distance(s) || GotValue(s) || s.once.Done?
  {
  }

  lemma CallNoHarm(s: State, step: Step)
    requires Inv(s) && Coming(s) && (step.Finalize? || step.CloseConn?)
    ensures Coming(Next(s, step)) && Distance(Next(s, step)) == Distance(s)
  {
  }

  lemma ReaderStepNoHarm(s: State, step: Step)
    requires Inv(s) && Coming(s) && Enabled(s, step)
    requires step.Hear? || step.EmitPromoted? || step.Endpoint? || step.EmitEnd? || step.SocketClose? || step.EmitClose?
    ensures Coming(Next(s, step)) && Distance(Next(s, step)) == Distance(s)
  {
    var t := Next(s, step);
    assert t.fins == s.fins && t.once == s.once && t.log.active == s.log.active;
    assert s.once != Busy(Reader);
  }

  lemma NoStepHarms(s: State, step: Step)
    requires Inv(s) && Coming(s) && Enabled(s, step)
    ensures Coming(Next(s, step)) && Distance(Next(s, step)) <= Distance(s)
  {
    if OfCall(step) {
      CallStepNoHarm(s, step);
    } else if step.ReaderResolve? {
      ReaderResolveNoHarm(s);
    } else if step.Finalize? || step.CloseConn? {
      CallNoHarm(s, step);
    } else {
      ReaderStepNoHarm(s, step);
    }
  }

  lemma CallKeepsHelpful(s: State, step: Step)
    requires Inv(s) && Coming(s) && (step.Finalize? || step.CloseConn?)
    ensures var t := Next(s, step); Coming(t) && HelpfulStep(t) == HelpfulStep(s)
  {
  }

  lemma ReaderFrame(s: State, step: Step)
    requires Enabled(s, step)
    requires step.Hear? || step.EmitPromoted? || step.Endpoint? || step.EmitEnd? || step.SocketClose? || step.EmitClose?
    ensures var t := Next(s, step);
            t.fins == s.fins && t.once == s.once && t.log.active == s.log.active && t.chan == s.chan
  {
  }

  lemma SameHelpful(s: State, t: State)
    requires Coming(s) && Coming(t)
    requires t.fins == s.fins && t.once == s.once && t.log.active == s.log.active && t.chan == s.chan
    ensures HelpfulStep(t) == HelpfulStep(s)
  {
  }

  lemma ReaderKeepsHelpful(s: State, step: Step)
    requires Inv(s) && Coming(s) && Enabled(s, step)
    requires step.Hear? || step.EmitPromoted? || step.Endpoint? || step.EmitEnd? || step.SocketClose? || step.EmitClose?
    ensures var t := Next(s, step); Coming(t) && HelpfulStep(t) == HelpfulStep(s)
  {
    ReaderStepNoHarm(s, step);
    ReaderFrame(s, step);
    SameHelpful(s, Next(s, step));
  }

  lemma IdleReaderKeepsHelpful(s: State)
    requires Inv(s) && Coming(s) && Enabled(s, ReaderResolve) && s.once.Done?
    ensures var t := Next(s, ReaderResolve); Coming(t) && HelpfulStep(t) == HelpfulStep(s)
  {
    assert s.reader.r.Enter?;
  }

  /** Until it is taken, the helpful step stays the same unless another step helps. */
  lemma HelpfulStepStays(s: State, step: Step)
    requires Inv(s) && Coming(s) && Enabled(s, step) && !GotValue(s) && step != HelpfulStep(s)
    ensures var t := Next(s, step);
            && Coming(t) && Distance(t) <= Distance(s)
            && (Distance(t) == Distance(s) ==> HelpfulStep(t) == HelpfulStep(s))
  {
    NoStepHarms(s, step);
    if OfCall(step) {
      CallStepNoHarm(s, step);
    } else if step.ReaderResolve? {
      ReaderResolveNoHarm(s);
      if s.once.Done? {
        IdleReaderKeepsHelpful(s);
      }
    } else if step.Finalize? || step.CloseConn? {
      CallKeepsHelpful(s, step);
    } else {
      ReaderKeepsHelpful(s, step);
    }
  }

  predicate TakesHelpfulStep(s: State, step: Step)
  {
    Coming(s) && !GotValue(s) && step == HelpfulStep(s)
  }

  /** How many of the steps from k on and before m are helpful. */
  function HelpfulSteps(states: seq<State>, steps: seq<Step>, k: nat, m: nat): nat
    requires k <= m <= |steps| && |states| == |steps| + 1
    decreases m
  {
    if k == m then 0
    else HelpfulSteps(states, steps, k, m - 1) + if TakesHelpfulStep(states[m - 1], steps[m - 1]) then 1 else 0
  }

  lemma DistanceBounds(s: State)
    requires Coming(s)
    ensures Distance(s) <= (if TimerFired(s) then 7 else 10) && (Distance(s) == 0 <==> GotValue(s))
  {
  }

  lemma HelpIsPossible(s: State)
    requires Inv(s) && Coming(s) && !GotValue(s)
    ensures Enabled(s, HelpfulStep(s)) && !HelpfulStep(s).SafetyTimer? && !HelpfulStep(s).NoDataTimer?
  {
    var step, t := HelpfulStepHelps(s);
  }

  lemma OneStepNearer(s: State, step: Step)
    requires Inv(s) && Coming(s) && Enabled(s, step)
    ensures Coming(Next(s, step))
    ensures Distance(Next(s, step)) + (if TakesHelpfulStep(s, step) then 1 else 0) <= Distance(s)
  {
    NoStepHarms(s, step);
    if TakesHelpfulStep(s, step) {
      var taken, t := HelpfulStepHelps(s);
    }
  }

  /** A step on the way to the value: no further from it, and nearer if it helps. */
  predicate Nearer(s: State, step: Step, t: State)
  {
    Coming(s) ==>
      Coming(t) && Distance(t) + (if TakesHelpfulStep(s, step) then 1 else 0) <= Distance(s)
  }

  lemma RunStepNearer(states: seq<State>, steps: seq<Step>, m: nat)
    requires Run(states, steps) && m < |steps|
    ensures Nearer(states[m], steps[m], states[m + 1])
  {
    RunKeepsInv(states, steps, m);
    if Coming(states[m]) {
      OneStepNearer(states[m], steps[m]);
    }
  }

  lemma {:induction false} HelpAddsUp(states: seq<State>, steps: seq<Step>, k: nat, m: nat)
    requires |states| == |steps| + 1 && k <= m < |states| && Coming(states[k])
    requires forall i :: k <= i < m ==> Nearer(states[i], steps[i], states[i + 1])
    ensures Coming(states[m])
    ensures Distance(states[m]) + HelpfulSteps(states, steps, k, m) <= Distance(states[k])
    decreases m
  {
    if k < m {
      HelpAddsUp(states, steps, k, m - 1);
      assert Nearer(states[m - 1], steps[m - 1], states[m - 1 + 1]);
    }
  }

  /** From the moment a value is on its way, by a timer or by the end the server has
      signalled, in every run and whatever is interleaved: each helpful step taken
      brings the waiting call nearer to its value and no other step takes it back, so
      that after ten of them at the latest, seven after a timer, it has returned with
      one; until then a helpful step is possible, and none is a timer's. */
  lemma FinalizeGetsItsValue(states: seq<State>, steps: seq<Step>, k: nat, m: nat)
    requires Run(states, steps) && k <= m < |states| && Coming(states[k])
    ensures Coming(states[m])
    ensures Distance(states[m]) + HelpfulSteps(states, steps, k, m)
            <= Distance(states[k]) <= if TimerFired(states[k]) then 7 else 10
    ensures HelpfulSteps(states, steps, k, m) == Distance(states[k]) ==> GotValue(states[m])
    ensures !GotValue(states[m]) ==>
              var step := HelpfulStep(states[m]); Enabled(states[m], step) && !step.SafetyTimer? && !step.NoDataTimer?
  {
    forall i | k <= i < m ensures Nearer(states[i], steps[i], states[i + 1]) {
      RunStepNearer(states, steps, i);
    }
    HelpAddsUp(states, steps, k, m);
    DistanceBounds(states[k]);
    DistanceBounds(states[m]);
    RunKeepsInv(states, steps, m);
    if !GotValue(states[m]) {
      HelpIsPossible(states[m]);
    }
  }

  /** In every run, once a timer has fired, or the read loop has reported the end that
      follows CloseStream or the close of the socket, a value is on its way. */
  lemma ValueIsOnItsWay(states: seq<State>, steps: seq<Step>, k: nat)
    requires Run(states, steps) && k < |steps| && states[k].log.active.Some?
    requires || TimerFired(states[k + 1]) || steps[k].EmitClose?
             || (steps[k].EmitEnd? && states[k].reader.finalized)
    ensures Coming(states[k + 1])
  {
    RunKeepsInv(states, steps, k);
    RunKeepsInv(states, steps, k + 1);
    if TimerFired(states[k + 1]) {
      TimerMakesItCome(states[k + 1]);
    } else {
      EndMakesItCome(states[k], steps[k]);
    }
  }

  /** The read loop is about to report an endpoint that came after CloseStream. */
  predicate EndPending(s: State) { s.reader.Ending? && s.reader.finalized && s.log.active.Some? }

  lemma StepKeepsEnd(s: State, step: Step)
    requires Enabled(s, step) && EndPending(s) && !step.EmitEnd?
    ensures EndPending(Next(s, step))
  {
  }

  /** An endpoint after CloseStream: once it is reported, the value is on its way. */
  lemma EndpointBringsValue(states: seq<State>, steps: seq<Step>, i: nat, k: nat)
    requires Run(states, steps) && i < k < |steps| && steps[i].Endpoint? && steps[k].EmitEnd?
    requires states[i].sh.finalized && states[i].log.active.Some? && forall m :: i < m < k ==> !steps[m].EmitEnd?
    ensures Coming(states[k + 1])
  {
    assert states[i + 1] == Next(states[i], steps[i]) && EndPending(states[i + 1]);
    forall m | i + 1 <= m < k && EndPending(states[m]) ensures EndPending(states[m + 1]) {
      StepKeepsEnd(states[m], steps[m]);
    }
    Persists(states, i + 1, k, EndPending);
    ValueIsOnItsWay(states, steps, k);
  }
}
