/** The in-memory test adapter's event stream, and the proof that the checker accepts it. */
module TestAdapter {
  import opened Wrappers
  import opened Json
  import opened StreamTypes
  import opened SequenceCheck
  import opened StreamDispatch
  import opened StreamLaws

  /** The programmed behaviours of a stream: N deltas, an error after the start, or a stall until
      the abort. */
  datatype Script = Deltas(count: nat) | Error(code: ErrorCode) | Never

  const DEFAULT_DELTAS := 5

  /** The rest of an event object, which the clock and the request fill in. */
  type Render = (EventKind, nat) -> Value

  datatype Call = Call(request: Request, attempt: nat, aborted: bool)

  function Event(render: Render, kind: EventKind, seq_: nat, stop: Option<StopReason>,
                 usage: Option<Usage>): StreamEvent
  {
    StreamEvent(kind, seq_, if kind == MessageStart || kind == MessageEnd then None else Some(0),
                stop, None, usage, render(kind, seq_))
  }

  /** Whether the abort is seen at delta boundary i. */
  predicate AbortSeen(abortAt: Option<nat>, i: nat) {
    abortAt.Some? && abortAt.value <= i
  }

  class InMemoryTestAdapter {
    const usage: Usage
    var calls: seq<Call>

    constructor (usage: Usage := Usage(100, 50, Some(0)))
      ensures this.usage == usage && calls == []
    {
      this.usage, calls := usage, [];
    }

    /** `dispatchStream`, run to its end. A stalled stream that nobody aborts has no end, so the
        stall comes with an abort. */
    method DispatchStream(q: Request, attempt: nat, script: Script, abortAt: Option<nat>, render: Render)
      returns (b: Behaviour)
      requires script == Never ==> abortAt.Some?
      modifies this
      ensures b == Programmed(script, abortAt, render, usage)
      ensures calls == old(calls) + [Call(q, attempt, !script.Error? && DeltasEmitted(script, abortAt).1)]
    {
      var seq_ := 0;
      var events := [Event(render, MessageStart, seq_, None, None)];
      seq_ := seq_ + 1;
      if script.Error? {
        calls := calls + [Call(q, attempt, false)];
        assert Opening(render)[..1] == events;
        return Behaviour(events, FailsWith(script.code));
      }
      events := events + [Event(render, ContentBlockStart, seq_, None, None)];
      seq_ := seq_ + 1;
      var deltas, aborted := EmitDeltas(script, abortAt, render, seq_);
      events := events + deltas;
      seq_ := seq_ + |deltas|;
      events := events + [Event(render, ContentBlockEnd, seq_, None, None)];
      seq_ := seq_ + 1;
      var stop := if aborted then UserInterrupt else NaturalStop;
      events := events + [Event(render, MessageEnd, seq_, Some(stop), Some(usage))];
      assert events == Opening(render) + deltas + Closing(render, |deltas|, aborted, usage);
      calls := calls + [Call(q, attempt, aborted)];
      b := Behaviour(events, Finishes);
    }
  }

  /** The delta loop, honouring the abort at each boundary. */
  method EmitDeltas(script: Script, abortAt: Option<nat>, render: Render, from: nat)
    returns (deltas: seq<StreamEvent>, aborted: bool)
    requires !script.Error? && from == 2
    ensures (|deltas|, aborted) == DeltasEmitted(script, abortAt)
    ensures deltas == DeltaEvents(render, |deltas|)
  {
    aborted := false;
    var seq_ := from;
    deltas := [];
    var count := if script.Deltas? then script.count else DEFAULT_DELTAS;
    var i := 0;
    while i < count
      invariant 0 <= i <= count && seq_ == i + 2 && !aborted
      invariant |deltas| == i && deltas == DeltaEvents(render, i)
      invariant i > 0 ==> script.Deltas? && !AbortSeen(abortAt, i - 1)
    {
      if AbortSeen(abortAt, i) {
        aborted := true;
        break;
      }
      if script == Never {
        aborted := true;
        break;
      }
      deltas := deltas + [Event(render, ContentBlockDelta, seq_, None, None)];
      seq_ := seq_ + 1;
      i := i + 1;
    }
  }

  function DeltaEvents(render: Render, n: nat): seq<StreamEvent> {
    seq(n, i requires 0 <= i < n => Event(render, ContentBlockDelta, i + 2, None, None))
  }

  function Opening(render: Render): seq<StreamEvent> {
    [Event(render, MessageStart, 0, None, None), Event(render, ContentBlockStart, 1, None, None)]
  }

  function Closing(render: Render, n: nat, aborted: bool, usage: Usage): seq<StreamEvent> {
    [Event(render, ContentBlockEnd, n + 2, None, None),
     Event(render, MessageEnd, n + 3, Some(if aborted then UserInterrupt else NaturalStop), Some(usage))]
  }

  /** How many deltas go out, and whether the abort cut them short. */
  function DeltasEmitted(script: Script, abortAt: Option<nat>): (nat, bool) {
    match script
    case Deltas(count) =>
      if abortAt.Some? && abortAt.value < count then (abortAt.value, true) else (count, false)
    case _ => (0, true)
  }

  function Programmed(script: Script, abortAt: Option<nat>, render: Render, usage: Usage): Behaviour {
    match script
    case Error(code) => Behaviour(Opening(render)[..1], FailsWith(code))
    case _ =>
      var (n, aborted) := DeltasEmitted(script, abortAt);
      Behaviour(Opening(render) + DeltaEvents(render, n) + Closing(render, n, aborted, usage), Finishes)
  }

  // ---------------------------------------------------------------- what the checker makes of it

  lemma {:induction false} DeltasPass(s: CheckerState, render: Render, n: nat)
    requires s == CheckerState(true, false, Some(0), 1)
    ensures Run(s, DeltaEvents(render, n)) == Some(s.(lastSeq := n + 1))
  {
    if n == 0 {
    } else {
      DeltasPass(s, render, n - 1);
      var last := Event(render, ContentBlockDelta, n + 1, None, None);
      assert DeltaEvents(render, n) == DeltaEvents(render, n - 1) + [last];
      RunAppend(s, DeltaEvents(render, n - 1), [last]);
    }
  }

  lemma RunPair(s: CheckerState, a: StreamEvent, b: StreamEvent)
    requires Passes(s, a) && Passes(Advance(s, a), b)
    ensures Run(s, [a, b]) == Some(Advance(Advance(s, a), b))
  {
    var t := Advance(s, a);
    assert [a, b][1..] == [b] && [b][1..] == [];
    assert Run(t, [b]) == Run(Advance(t, b), []);
  }

  /** Without a programmed error the stream is in the checker's language, for every delta count and
      every abort point. */
  lemma AdapterStreamAccepted(script: Script, abortAt: Option<nat>, render: Render, usage: Usage)
    requires !script.Error?
    ensures
      var b := Programmed(script, abortAt, render, usage);
      InLanguage(b.events) && b.ending == Finishes
  {
    var (n, aborted) := DeltasEmitted(script, abortAt);
    var inBlock := CheckerState(true, false, Some(0), 1);
    var opening, deltas, closing := Opening(render), DeltaEvents(render, n), Closing(render, n, aborted, usage);
    RunPair(INITIAL, opening[0], opening[1]);
    DeltasPass(inBlock, render, n);
    RunAppend(INITIAL, opening, deltas);
    var s := inBlock.(lastSeq := n + 1);
    RunPair(s, closing[0], closing[1]);
    RunAppend(INITIAL, opening + deltas, closing);
    AcceptsIsLanguage(opening + deltas + closing);
  }

  /** Such a stream is a start, a block of n deltas and an end, numbered from 0, where n is the programmed
      count or the delta boundary the abort was seen at, whichever is the smaller; a stall sends none. */
  lemma AdapterStreamShape(script: Script, abortAt: Option<nat>, render: Render, usage: Usage) returns (n: nat)
    requires !script.Error?
    ensures
      var es := Programmed(script, abortAt, render, usage).events;
      && (script == Never ==> n == 0)
      && (script.Deltas? ==> n <= script.count && (abortAt == None ==> n == script.count)
                             && (abortAt.Some? ==> n == abortAt.value || n == script.count < abortAt.value))
      && |es| == n + 4 && (forall i :: 0 <= i < |es| ==> es[i].sequence == i)
      && es[0].kind == MessageStart && es[1].kind == ContentBlockStart
      && (forall i :: 2 <= i < n + 2 ==> es[i].kind == ContentBlockDelta)
      && es[n + 2].kind == ContentBlockEnd && es[n + 3].kind == MessageEnd
      && (forall i :: 1 <= i < n + 3 ==> es[i].blockIndex == Some(0))
  {
    n := DeltasEmitted(script, abortAt).0;
  }

  /** Dispatched, such a stream reaches the wire untouched, and the audit row says UserInterrupt
      exactly when the abort cut it short or it stalled, NaturalStop otherwise. */
  lemma AdapterStreamDispatched(q: Request, script: Script, abortAt: Option<nat>, render: Render, usage: Usage,
                                at: string)
    requires !script.Error?
    ensures
      var b := Programmed(script, abortAt, render, usage);
      var c := StreamConclusion(q, b, at);
      && Wire(q, b, at) == b.events
      && c.stop == (if script == Never || (abortAt.Some? && abortAt.value < script.count) then UserInterrupt
                    else NaturalStop)
      && c.code == None && c.usage == usage
  {
    var b := Programmed(script, abortAt, render, usage);
    AdapterStreamAccepted(script, abortAt, render, usage);
    CleanStreamUntouched(q, b, at);
    ForwardedPrefix(INITIAL, b.events);
    AcceptsIsLanguage(b.events);
    assert FinalOf(b.events) == Final(b.events[|b.events| - 1].stopReason, None, Some(usage));
  }

  /** A programmed error leaves the start, the synthetic end and a row with that error. */
  lemma AdapterErrorDispatched(q: Request, code: ErrorCode, abortAt: Option<nat>, render: Render, usage: Usage,
                               at: string)
    ensures
      var b := Programmed(Error(code), abortAt, render, usage);
      var c := StreamConclusion(q, b, at);
      && Wire(q, b, at) == [b.events[0], SyntheticEnd(q, code, at)]
      && c.stop == DispatcherError && c.code == Some(code)
  {
    var b := Programmed(Error(code), abortAt, render, usage);
    assert b.events == [b.events[0]];
    assert b.events[1..] == [];
    assert Forwarded(INITIAL, b.events) == b.events;
    assert b.events[..0] == [];
    assert FinalOf(b.events) == Final(None, None, None);
  }
}
