/**
 One streaming dispatch end to end: adapter events through the checker onto the wire, a synthetic
 end after a failure, the closing comment, the in-flight entry and the audit row.
 */
module StreamDispatch {
  import opened Wrappers
  import opened Json
  import opened JsonLaws
  import opened SseWire
  import opened StreamTypes
  import opened SequenceCheck
  import Dispatch

  // ---------------------------------------------------------------- in-flight dispatches

  class AbortController {
    var aborted: bool

    constructor ()
      ensures !aborted
    {
      aborted := false;
    }

    method Abort()
      modifies this
      ensures aborted
    {
      aborted := true;
    }
  }

  class InFlightRegistry {
    var controllers: map<string, AbortController>

    constructor ()
      ensures controllers == map[]
    {
      controllers := map[];
    }

    method Register(correlationId: string) returns (ctrl: AbortController)
      modifies this
      ensures fresh(ctrl) && !ctrl.aborted
      ensures controllers == old(controllers)[correlationId := ctrl]
    {
      ctrl := new AbortController();
      controllers := controllers[correlationId := ctrl];
    }

    /** Fires the controller of an in-flight dispatch; false when there is none. */
    method Cancel(correlationId: string) returns (found: bool)
      modifies controllers.Values
      ensures found <==> correlationId in controllers
      ensures found ==> controllers[correlationId].aborted
      ensures forall c :: c in controllers.Values && (!found || c != controllers[correlationId]) ==>
                            c.aborted == old(c.aborted)
    {
      found := correlationId in controllers;
      if found {
        controllers[correlationId].Abort();
      }
    }

    method Release(correlationId: string)
      modifies this
      ensures controllers == old(controllers) - {correlationId}
    {
      controllers := controllers - {correlationId};
    }
  }

  // ---------------------------------------------------------------- the adapter and the reply

  datatype Ending = Finishes | FailsWith(code: ErrorCode) | ThrowsOther

  /** Everything an adapter can do in one stream: some events, then a finish or a throw. */
  datatype Behaviour = Behaviour(events: seq<StreamEvent>, ending: Ending)

  // ---------------------------------------------------------------- the dispatch, as a function

  function FrameOf(e: StreamEvent): Frame {
    Frame(KindName(e.kind), e.body)
  }

  function FramesOf(es: seq<StreamEvent>): (fs: seq<Frame>)
    ensures |fs| == |es| && forall i :: 0 <= i < |es| ==> fs[i] == FrameOf(es[i])
  {
    seq(|es|, i requires 0 <= i < |es| => FrameOf(es[i]))
  }

  function FramesText(frames: seq<Frame>): string {
    if frames == [] then "" else FramesText(frames[..|frames| - 1]) + SerializeFrame(frames[|frames| - 1])
  }

  /** The hijacked response: the text written so far, and the events it stands for. */
  class Reply {
    var written: string
    var ended: bool
    ghost var events: seq<StreamEvent>

    /** Open, the text is the frames of the events; ended, it is the whole wire text. */
    ghost predicate Valid()
      reads this
    {
      written == EventsText(events, ended)
    }

    constructor ()
      ensures Valid() && !ended && events == []
    {
      written, ended := "", false;
      events := [];
    }

    method WriteEvent(e: StreamEvent)
      requires Valid() && !ended
      modifies this
      ensures Valid() && !ended && events == old(events) + [e]
    {
      FramesPush(events, e);
      written := written + SerializeFrame(FrameOf(e));
      events := events + [e];
    }

    /** The synthetic end if there is one, the closing comment and the end of the response. */
    method Close(end: Option<StreamEvent>)
      requires Valid() && !ended
      modifies this
      ensures Valid() && ended && events == old(events) + ToSeq(end)
    {
      if end.Some? {
        WriteEvent(end.value);
      } else {
        assert events + [] == events;
      }
      FramesTextIsWire(FramesOf(events));
      written := written + STREAM_DONE;
      ended := true;
    }
  }

  function EventsText(events: seq<StreamEvent>, ended: bool): string {
    if ended then WireText(FramesOf(events)) else FramesText(FramesOf(events))
  }

  const SYNTHETIC_SEQUENCE := 999999

  /** The end the Runner writes itself after a failure. */
  function SyntheticEnd(q: Request, code: ErrorCode, emittedAt: string): StreamEvent {
    StreamEvent(MessageEnd, SYNTHETIC_SEQUENCE, None, Some(DispatcherError), Some(code), None,
                Obj([Field("type", Str("MessageEnd")),
                     Field("sequence", Num(SYNTHETIC_SEQUENCE)),
                     Field("emitted_at", Str(emittedAt)),
                     Field("stop_reason", Str("DispatcherError")),
                     Field("dispatcher_error_code", Str(ErrorName(code))),
                     Field("correlation_id", Str(q.correlationId)),
                     Field("session_id", Str(q.sessionId))]))
  }

  /** The longest beginning of a stream that the checker lets through. */
  function Forwarded(s: CheckerState, es: seq<StreamEvent>): seq<StreamEvent>
    decreases |es|
  {
    if es == [] || !Passes(s, es[0]) then [] else [es[0]] + Forwarded(Advance(s, es[0]), es[1..])
  }

  /** The loop's `final*` variables: what the last forwarded message end said. */
  datatype Final = Final(stop: Option<StopReason>, code: Option<ErrorCode>, usage: Option<Usage>)

  function FinalOf(es: seq<StreamEvent>): Final {
    if es == [] then Final(None, None, None)
    else
      var last := es[|es| - 1];
      if last.kind == MessageEnd then Final(last.stopReason, last.errorCode, last.usage)
      else FinalOf(es[..|es| - 1])
  }

  /** The error the stream ends in, as a dispatcher code; None when it ended well. */
  function StreamError(b: Behaviour): Option<ErrorCode> {
    var sent := Forwarded(INITIAL, b.events);
    if |sent| < |b.events| then Some(DispatcherAdapterError)
    else
      var end := Run(INITIAL, b.events);
      EndingError(b.ending, end.Some? && Complete(end.value))
  }

  /** The error of a stream whose events all passed: the adapter's own throw, or a stream that
      stopped in the middle of a message. */
  function EndingError(ending: Ending, complete: bool): Option<ErrorCode> {
    match ending
    case FailsWith(code) => Some(code)
    case ThrowsOther => Some(DispatcherAdapterError)
    case Finishes => if complete then None else Some(DispatcherAdapterError)
  }

  /** How the stream is closed: the synthetic end if one is written, and what the audit row says. */
  datatype Conclusion = Conclusion(end: Option<StreamEvent>, stop: StopReason, code: Option<ErrorCode>, usage: Usage)

  /** The `catch` and `finally` of the dispatch. */
  function Conclude(q: Request, final: Final, error: Option<ErrorCode>, emittedAt: string): Conclusion {
    var usage := final.usage.GetOr(NO_USAGE);
    if error.Some? && final.stop.None?
    then Conclusion(Some(SyntheticEnd(q, error.value, emittedAt)), DispatcherError, error, usage)
    else Conclusion(None, final.stop.GetOr(NaturalStop), final.code, usage)
  }

  function StreamConclusion(q: Request, b: Behaviour, emittedAt: string): Conclusion {
    Conclude(q, FinalOf(Forwarded(INITIAL, b.events)), StreamError(b), emittedAt)
  }

  /** What the wire carries: the forwarded events, then the synthetic end if there is one. */
  function Wire(q: Request, b: Behaviour, emittedAt: string): seq<StreamEvent> {
    var end := StreamConclusion(q, b, emittedAt).end;
    Forwarded(INITIAL, b.events) + ToSeq(end)
  }

  // ---------------------------------------------------------------- the dispatch, as it runs

  datatype Moment = Moment(id: string, emittedAt: string, started: int, completed: int, recorded: int)

  /** The body of the `try`: forwards events until the checker or the adapter fails. The error is
      what the `catch` sees. */
  method ForwardEvents(b: Behaviour, reply: Reply) returns (final: Final, error: Option<ErrorCode>)
    requires reply.Valid() && !reply.ended && reply.events == []
    modifies reply
    ensures reply.Valid() && !reply.ended && reply.events == Forwarded(INITIAL, b.events)
    ensures final == FinalOf(Forwarded(INITIAL, b.events))
    ensures error == StreamError(b)
  {
    var checker := new SequenceChecker();
    final := Final(None, None, None);
    var n := 0;
    NothingForwarded(b.events);
    while n < |b.events|
      invariant 0 <= n <= |b.events| && fresh(checker)
      invariant ForwardedSoFar(b.events, n, reply.events, final, checker.State())
      invariant reply.Valid() && !reply.ended
    {
      var event := b.events[n];
      ForwardStep(b.events, n, reply.events, final, checker.State());
      var ok := checker.Check(event);
      if !ok {
        return final, Some(DispatcherAdapterError);
      }
      reply.WriteEvent(event);
      if event.kind == MessageEnd {
        final := Final(event.stopReason, event.errorCode, event.usage);
      }
      n := n + 1;
    }
    AllForwarded(b.events, reply.events, final, checker.State());
    var done := checker.IsComplete();
    error := EndingError(b.ending, done);
  }

  /** The first n events went through: what was written, remembered and checked. */
  ghost predicate ForwardedSoFar(es: seq<StreamEvent>, n: int, written: seq<StreamEvent>, final: Final,
                                 s: CheckerState)
  {
    && 0 <= n <= |es|
    && written == es[..n]
    && Run(INITIAL, written) == Some(s)
    && final == FinalOf(written)
  }

  lemma NothingForwarded(es: seq<StreamEvent>)
    ensures ForwardedSoFar(es, 0, [], Final(None, None, None), INITIAL)
  {
  }

  lemma ForwardStep(es: seq<StreamEvent>, n: nat, written: seq<StreamEvent>, final: Final, s: CheckerState)
    requires n < |es| && ForwardedSoFar(es, n, written, final, s)
    ensures
      var e := es[n];
      if Passes(s, e) then
        ForwardedSoFar(es, n + 1, written + [e],
                       if e.kind == MessageEnd then Final(e.stopReason, e.errorCode, e.usage) else final,
                       Advance(s, e))
      else Forwarded(INITIAL, es) == written
  {
    var e := es[n];
    assert es[..n + 1] == written + [e] && (written + [e])[..n] == written;
    RunAppend(INITIAL, written, [e]);
    if !Passes(s, e) {
      assert es == written + ([e] + es[n + 1..]);
      ForwardedThrough(INITIAL, written, [e] + es[n + 1..]);
      assert written + [] == written;
    }
  }

  lemma AllForwarded(es: seq<StreamEvent>, written: seq<StreamEvent>, final: Final, s: CheckerState)
    requires ForwardedSoFar(es, |es|, written, final, s)
    ensures Forwarded(INITIAL, es) == written && Run(INITIAL, es) == Some(s)
  {
    assert es == written + [];
    ForwardedThrough(INITIAL, written, []);
  }

  /** An accepted beginning is forwarded, and what is forwarded after it depends on the rest only. */
  lemma {:induction false} ForwardedThrough(s: CheckerState, a: seq<StreamEvent>, b: seq<StreamEvent>)
    requires Run(s, a).Some?
    ensures Forwarded(s, a + b) == a + Forwarded(Run(s, a).value, b)
    decreases |a|
  {
    if a == [] {
      assert a + b == b;
    } else {
      assert (a + b)[1..] == a[1..] + b;
      ForwardedThrough(Advance(s, a[0]), a[1..], b);
    }
  }

  /** `runStreamDispatch`. The abort signal reaches the adapter only, so it is part of the adapter's
      behaviour here. */
  method RunStreamDispatch(q: Request, dispatcher: Dispatch.Dispatcher, b: Behaviour, reply: Reply,
                           inflight: InFlightRegistry, at: Moment)
    requires reply.Valid() && !reply.ended && reply.events == []
    modifies dispatcher, reply, inflight
    ensures reply.Valid() && reply.ended && reply.events == Wire(q, b, at.emittedAt)
    ensures inflight.controllers == old(inflight.controllers) - {q.correlationId}
    ensures
      var c := StreamConclusion(q, b, at.emittedAt);
      dispatcher.Rows() ==
      Dispatch.Record(old(dispatcher.Rows()),
                      Dispatch.StreamResponse(q, dispatcher.provider, at.id, c.stop, c.code, c.usage,
                                              at.started, at.completed),
                      q.sessionId, at.started, at.recorded, dispatcher.ringSize)
  {
    var ctrl := inflight.Register(q.correlationId);
    var final, error := ForwardEvents(b, reply);
    var c := Conclude(q, final, error, at.emittedAt);
    reply.Close(c.end);
    inflight.Release(q.correlationId);
    dispatcher.RecordStreamDispatch(q, at.id, c.stop, c.code, c.usage, at.started, at.completed, at.recorded);
  }

  lemma FramesPush(es: seq<StreamEvent>, e: StreamEvent)
    ensures FramesText(FramesOf(es + [e])) == FramesText(FramesOf(es)) + SerializeFrame(FrameOf(e))
  {
    assert FramesOf(es + [e])[..|es|] == FramesOf(es);
  }

  lemma {:induction false} FramesTextIsWire(frames: seq<Frame>)
    ensures FramesText(frames) + STREAM_DONE == WireText(frames)
  {
    FramesTextBefore(frames, []);
    assert frames + [] == frames;
  }

  lemma {:induction false} FramesTextBefore(a: seq<Frame>, b: seq<Frame>)
    ensures FramesText(a) + WireText(b) == WireText(a + b)
  {
    if a == [] {
      assert a + b == b;
    } else {
      var init, last := a[..|a| - 1], a[|a| - 1];
      FramesTextBefore(init, [last] + b);
      assert ([last] + b)[1..] == b && init + ([last] + b) == a + b;
      Regroup(FramesText(init), SerializeFrame(last), WireText(b));
    }
  }
}
