/**
 How a stream ends, for every adapter behaviour: the error it ends in, the end the Runner writes
 itself, and the one row it leaves.
 */
module StreamEndings {
  import opened Wrappers
  import opened Json
  import opened StreamTypes
  import opened SequenceCheck
  import opened StreamDispatch
  import opened StreamLaws
  import Dispatch
  import DispatchLaws

  /** A stream ends well exactly if it is in the checker's language and the adapter finishes. If all its
      events pass and the adapter throws its own error, it ends in that one's code; a foreign throw, a
      refused event and a stream cut off in the middle of a message are adapter errors. */
  lemma ErrorExact(b: Behaviour)
    ensures StreamError(b) ==
            if InLanguage(b.events) && b.ending == Finishes then None
            else if Run(INITIAL, b.events).Some? && b.ending.FailsWith? then Some(b.ending.code)
            else Some(DispatcherAdapterError)
  {
    AcceptsIsLanguage(b.events);
    ForwardedPrefix(INITIAL, b.events);
  }

  /** A stop reason went out. */
  ghost predicate Stopped(b: Behaviour) {
    exists e :: e in Forwarded(INITIAL, b.events) && e.kind == MessageEnd && e.stopReason.Some?
  }

  lemma StoppedIsFinal(b: Behaviour)
    ensures Stopped(b) <==> FinalOf(Forwarded(INITIAL, b.events)).stop.Some?
  {
    var sent := Forwarded(INITIAL, b.events);
    ForwardedPrefix(INITIAL, b.events);
    SentEnds(sent);
    FinalIsTheEnd(sent);
    NoneCounted(sent, MessageEnd);
    if Stopped(b) {
      var e :| e in sent && e.kind == MessageEnd && e.stopReason.Some?;
      var i :| 0 <= i < |sent| && sent[i] == e;
    }
    if Count(sent, MessageEnd) == 1 {
      var i :| 0 <= i < |sent| && sent[i].kind == MessageEnd;
      assert sent[i] in sent;
    }
  }

  /** The JSON object of the Runner's own end: seven members, and what they say. */
  ghost predicate SaysError(v: Value, q: Request, code: ErrorCode, at: string) {
    && v.Obj? && |v.fields| == 7
    && Member(v, "type") == Some(Str("MessageEnd")) && Member(v, "sequence") == Some(Num(999999))
    && Member(v, "emitted_at") == Some(Str(at)) && Member(v, "stop_reason") == Some(Str("DispatcherError"))
    && Member(v, "dispatcher_error_code") == Some(Str(ErrorName(code)))
    && Member(v, "correlation_id") == Some(Str(q.correlationId)) && Member(v, "session_id") == Some(Str(q.sessionId))
  }

  lemma SyntheticSaysError(q: Request, code: ErrorCode, at: string)
    ensures SaysError(SyntheticEnd(q, code, at).body, q, code, at)
  {
    SyntheticBodyFits(q, code, at);
    var fields := SyntheticEnd(q, code, at).body.fields;
    MemberIs(fields, 0);
    MemberIs(fields, 1);
    MemberIs(fields, 2);
    MemberIs(fields, 3);
    MemberIs(fields, 4);
    MemberIs(fields, 5);
    MemberIs(fields, 6);
  }

  /** A stream that fails before a stop reason went out ends on the wire with the Runner's own end: an
      error end with sequence 999999 that names the error. Its row says the same. */
  lemma FailedEnding(q: Request, b: Behaviour, at: string)
    requires StreamError(b).Some? && !Stopped(b)
    ensures
      var wire, c := Wire(q, b, at), StreamConclusion(q, b, at);
      && |wire| == |Forwarded(INITIAL, b.events)| + 1
      && wire[|wire| - 1].kind == MessageEnd && wire[|wire| - 1].sequence == 999999
      && wire[|wire| - 1].stopReason == Some(DispatcherError) && wire[|wire| - 1].errorCode == StreamError(b)
      && wire[|wire| - 1].usage == None && SaysError(wire[|wire| - 1].body, q, StreamError(b).value, at)
      && c.stop == DispatcherError && c.code == StreamError(b)
    ensures
      var sent, c := Forwarded(INITIAL, b.events), StreamConclusion(q, b, at);
      && (Count(sent, MessageEnd) == 0 ==> c.usage == Usage(0, 0, None))
      && (forall i :: 0 <= i < |sent| && sent[i].kind == MessageEnd ==>
                        c.usage == if sent[i].usage == None then Usage(0, 0, None) else sent[i].usage.value)
  {
    var sent := Forwarded(INITIAL, b.events);
    StoppedIsFinal(b);
    ForwardedPrefix(INITIAL, b.events);
    SentEnds(sent);
    NoneCounted(sent, MessageEnd);
    FinalIsTheEnd(sent);
    SyntheticSaysError(q, StreamError(b).value, at);
  }

  /** Any other stream forwarded exactly one end, the Runner adds none, and the row says what that end
      says: no stop reason counts as a natural stop, no usage as none. */
  lemma SentEnding(q: Request, b: Behaviour, at: string) returns (i: nat)
    requires StreamError(b).None? || Stopped(b)
    ensures
      var sent, c := Forwarded(INITIAL, b.events), StreamConclusion(q, b, at);
      && Wire(q, b, at) == sent
      && i < |sent| && (forall j :: 0 <= j < |sent| ==> (sent[j].kind == MessageEnd <==> j == i))
      && c.stop == (if sent[i].stopReason == None then NaturalStop else sent[i].stopReason.value)
      && c.code == sent[i].errorCode
      && c.usage == (if sent[i].usage == None then Usage(0, 0, None) else sent[i].usage.value)
  {
    var sent := Forwarded(INITIAL, b.events);
    StoppedIsFinal(b);
    ForwardedPrefix(INITIAL, b.events);
    SentEnds(sent);
    FinalIsTheEnd(sent);
    i := OnlyOne(sent, MessageEnd);
    assert sent + [] == sent;
  }

  /** The rows of a streaming dispatch, as `RunStreamDispatch` leaves them: one audit row and one ring
      row that carry the request, the conclusion and the time it took. */
  lemma StreamRows(rs: Dispatch.Records, q: Request, b: Behaviour, provider: string, at: Moment, ringSize: nat)
    ensures
      var c := StreamConclusion(q, b, at.emittedAt);
      var response := Dispatch.StreamResponse(q, provider, at.id, c.stop, c.code, c.usage, at.started, at.completed);
      var rs' := Dispatch.Record(rs, response, q.sessionId, at.started, at.recorded, ringSize);
      var usage := Usage(c.usage.inputTokens, c.usage.outputTokens,
                         if c.usage.cachedTokens == None then Some(0) else c.usage.cachedTokens);
      var latency := if at.completed > at.started then at.completed - at.started else 0;
      && rs'.audit == rs.audit +
         [Dispatch.AuditRow(at.recorded, at.id, q.sessionId, q.turnId, q.billingTag, c.stop, c.code, provider, None,
                            usage, latency, if c.code == None then None else Some(Dispatch.Subcode(c.code.value)))]
      && DispatchLaws.FirstOf(
           Dispatch.Ring(rs', q.sessionId),
           [Dispatch.RecentRow(at.id, q.turnId, provider, q.model, c.stop, c.code, usage, latency, q.billingTag,
                               q.correlationId, None, at.started, at.recorded)]
           + Dispatch.Ring(rs, q.sessionId), ringSize)
  {
    var c := StreamConclusion(q, b, at.emittedAt);
    DispatchLaws.RowsExact(rs, DispatchLaws.Stream(q, at.id, c.stop, c.code, c.usage, at.started, at.completed,
                                                   at.recorded), provider, ringSize);
  }

  /** The text of one event on the wire. */
  lemma EventText(e: StreamEvent)
    ensures
      var kind := match e.kind
                  case MessageStart => "MessageStart"
                  case ContentBlockStart => "ContentBlockStart"
                  case ContentBlockDelta => "ContentBlockDelta"
                  case ContentBlockEnd => "ContentBlockEnd"
                  case MessageEnd => "MessageEnd";
      FramesText(FramesOf([e])) == "event: " + kind + "\ndata: " + Jcs(e.body) + "\n\n"
  {
    FramesPush([], e);
    assert [] + [e] == [e];
    assert FramesOf([]) == [];
  }

  /** A foreign error in the middle of a message, on the wire and in the row. */
  lemma PlainThrow(q: Request, at: string)
    ensures
      var b := Behaviour([Plain(MessageStart, 0)], ThrowsOther);
      && Wire(q, b, at) == b.events + [SyntheticEnd(q, DispatcherAdapterError, at)]
      && StreamConclusion(q, b, at).stop == DispatcherError
      && StreamConclusion(q, b, at).code == Some(DispatcherAdapterError)
      && Member(Wire(q, b, at)[1].body, "dispatcher_error_code") == Some(Str("DispatcherAdapterError"))
  {
    SyntheticSaysError(q, DispatcherAdapterError, at);
    var start := Plain(MessageStart, 0);
    var b := Behaviour([start], ThrowsOther);
    assert b.events[1..] == [];
    assert Forwarded(INITIAL, b.events) == b.events;
    assert FinalOf(b.events) == Final(None, None, None) by { assert b.events[..0] == []; }
  }
}
