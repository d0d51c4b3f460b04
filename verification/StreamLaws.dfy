/** What a streaming dispatch promises for every adapter behaviour. */
module StreamLaws {
  import opened Wrappers
  import opened Json
  import opened SseWire
  import opened StreamTypes
  import opened SequenceCheck
  import opened StreamDispatch

  lemma {:induction false} ForwardedPrefix(s: CheckerState, es: seq<StreamEvent>)
    ensures Forwarded(s, es) <= es && Run(s, Forwarded(s, es)).Some?
    ensures Run(s, es).Some? <==> Forwarded(s, es) == es
    ensures |Forwarded(s, es)| < |es| ==> Run(s, es[..|Forwarded(s, es)| + 1]).None?
    decreases |es|
  {
    if es != [] && Passes(s, es[0]) {
      var t := Advance(s, es[0]);
      ForwardedPrefix(t, es[1..]);
      var tail := Forwarded(t, es[1..]);
      assert ([es[0]] + tail)[1..] == tail;
      assert es == [es[0]] + es[1..];
      assert |tail| < |es[1..]| ==> es[..|tail| + 2][1..] == es[1..][..|tail| + 1];
    } else if es != [] {
      assert es[..1] == [es[0]];
    }
  }

  /** The wire is the longest beginning of the adapter's events that the checker passes, and at most
      one synthetic end; the synthetic end is there exactly when the stream failed before a stop
      reason went out. */
  lemma WireIsCheckedPrefix(q: Request, b: Behaviour, at: string)
    ensures
      var sent := Forwarded(INITIAL, b.events);
      var wire := Wire(q, b, at);
      && sent <= b.events && Run(INITIAL, sent).Some?
      && (forall n :: |sent| < n <= |b.events| ==> Run(INITIAL, b.events[..n]).None?)
      && (wire == sent || (|wire| == |sent| + 1 && sent <= wire && wire[|sent|].kind == MessageEnd))
      && (wire != sent <==> StreamError(b).Some? && FinalOf(sent).stop.None?)
  {
    var sent := Forwarded(INITIAL, b.events);
    ForwardedPrefix(INITIAL, b.events);
    forall n | |sent| < n <= |b.events| ensures Run(INITIAL, b.events[..n]).None? {
      assert b.events[..n][..|sent| + 1] == b.events[..|sent| + 1];
      if Run(INITIAL, b.events[..n]).Some? {
        PrefixPasses(INITIAL, b.events[..n], |sent| + 1);
      }
    }
    assert sent + [] == sent;
  }

  // ---------------------------------------------------------------- exactly one end

  lemma {:induction false} CountSnoc(es: seq<StreamEvent>, e: StreamEvent, k: EventKind)
    ensures Count(es + [e], k) == Count(es, k) + if e.kind == k then 1 else 0
  {
    if es == [] {
      assert [] + [e] == [e] && [e][1..] == [];
    } else {
      assert (es + [e])[1..] == es[1..] + [e];
      CountSnoc(es[1..], e, k);
    }
  }

  /** The final variables hold what the only forwarded message end says. */
  lemma {:induction false} FinalIsTheEnd(es: seq<StreamEvent>)
    ensures Count(es, MessageEnd) == 0 ==> FinalOf(es) == Final(None, None, None)
    ensures Count(es, MessageEnd) == 1 ==>
              forall i :: 0 <= i < |es| && es[i].kind == MessageEnd ==>
                            FinalOf(es) == Final(es[i].stopReason, es[i].errorCode, es[i].usage)
  {
    if es == [] {
    } else {
      var init, last := es[..|es| - 1], es[|es| - 1];
      assert es == init + [last];
      CountSnoc(init, last, MessageEnd);
      FinalIsTheEnd(init);
      NoneCounted(init, MessageEnd);
    }
  }

  lemma {:induction false} NoneCounted(es: seq<StreamEvent>, k: EventKind)
    ensures Count(es, k) == 0 <==> forall i :: 0 <= i < |es| ==> es[i].kind != k
  {
    if es == [] {
    } else {
      NoneCounted(es[1..], k);
      assert forall i :: 0 < i < |es| ==> es[i] == es[1..][i - 1];
    }
  }

  lemma SentEnds(es: seq<StreamEvent>)
    requires Run(INITIAL, es).Some?
    ensures Count(es, MessageEnd) <= 1
    ensures Complete(Run(INITIAL, es).value) ==> Count(es, MessageEnd) == 1
  {
    if es != [] {
      RunSplits(Advance(INITIAL, es[0]), es[1..]);
    }
  }

  /** A message end without its stop reason. */
  ghost predicate BareEnd(e: StreamEvent) {
    e.kind == MessageEnd && e.stopReason.None?
  }

  /** The wire holds exactly one message end, unless the stream fails after the adapter sent an end
      without a stop reason: then it holds two. */
  lemma OneEndExactly(q: Request, b: Behaviour, at: string)
    ensures
      var sent := Forwarded(INITIAL, b.events);
      var bare := StreamError(b).Some? && exists e :: e in sent && BareEnd(e);
      && (Count(Wire(q, b, at), MessageEnd) == 1 <==> !bare)
      && (bare ==> Count(Wire(q, b, at), MessageEnd) == 2)
  {
    var sent := Forwarded(INITIAL, b.events);
    ForwardedPrefix(INITIAL, b.events);
    SentEnds(sent);
    BareLeavesNoStop(sent);
    var error := StreamError(b);
    if error.Some? { CountSnoc(sent, SyntheticEnd(q, error.value, at), MessageEnd); }
    assert sent + [] == sent;
  }

  /** Among at most one end, the final stop reason is missing just when there is none or it is bare. */
  lemma BareLeavesNoStop(es: seq<StreamEvent>)
    requires Count(es, MessageEnd) <= 1
    ensures Count(es, MessageEnd) == 0 ==> FinalOf(es).stop.None?
    ensures (exists e :: e in es && BareEnd(e)) <==> Count(es, MessageEnd) == 1 && FinalOf(es).stop.None?
  {
    FinalIsTheEnd(es);
    NoneCounted(es, MessageEnd);
    if Count(es, MessageEnd) == 1 {
      var i :| 0 <= i < |es| && es[i].kind == MessageEnd;
      assert es[i] in es;
    }
  }

  /** An event with no more than its kind and its place. */
  function Plain(kind: EventKind, sequence: SafeInt): StreamEvent {
    StreamEvent(kind, sequence, None, None, None, None,
                Obj([Field("type", Str(KindName(kind))), Field("sequence", Num(sequence))]))
  }

  /** A stream with two ends: a start, an end without a stop reason, then a throw. */
  lemma TwoEnds(q: Request, at: string)
    ensures
      var b := Behaviour([Plain(MessageStart, 0), Plain(MessageEnd, 1)], ThrowsOther);
      Count(Wire(q, b, at), MessageEnd) == 2
  {
    var start, end := Plain(MessageStart, 0), Plain(MessageEnd, 1);
    var b := Behaviour([start, end], ThrowsOther);
    assert b.events[1..] == [end] && [end][1..] == [];
    assert Forwarded(Advance(INITIAL, start), [end]) == [end];
    assert Forwarded(INITIAL, b.events) == b.events;
    assert end in b.events && BareEnd(end);
    OneEndExactly(q, b, at);
  }

  /** A stream that does not fail and yet parts from its row: a start and an end without a stop reason.
      The one end on the wire names no stop reason, the row says NaturalStop. */
  lemma BareEndDisagrees(q: Request, at: string)
    ensures
      var end := Plain(MessageEnd, 1);
      var b := Behaviour([Plain(MessageStart, 0), end], Finishes);
      && StreamError(b).None? && Wire(q, b, at) == b.events && Count(b.events, MessageEnd) == 1
      && StreamConclusion(q, b, at).stop == NaturalStop && !EndAgrees(end, StreamConclusion(q, b, at))
  {
    var start, end := Plain(MessageStart, 0), Plain(MessageEnd, 1);
    var es := [start, end];
    assert es[1..] == [end] && [end][1..] == [];
    assert Forwarded(Advance(INITIAL, start), [end]) == [end];
    assert Forwarded(INITIAL, es) == es;
    assert Run(Advance(INITIAL, start), [end]) == Some(Advance(Advance(INITIAL, start), end));
    assert Run(INITIAL, es) == Some(Advance(Advance(INITIAL, start), end));
    assert FinalOf(es) == Final(None, None, None);
    assert Count([end], MessageEnd) == 1;
  }

  /** The end on the wire says what the audit row says. */
  ghost predicate EndAgrees(e: StreamEvent, c: Conclusion) {
    e.stopReason == Some(c.stop) && e.errorCode == c.code && e.usage.GetOr(NO_USAGE) == c.usage
  }

  /** Every end on the wire agrees with the one audit row, on stop reason, error code and usage, if and
      only if no end without a stop reason was forwarded. */
  lemma AuditMatchesWire(q: Request, b: Behaviour, at: string)
    ensures
      (forall e :: e in Wire(q, b, at) && e.kind == MessageEnd ==> EndAgrees(e, StreamConclusion(q, b, at))) <==>
      (forall e :: e in Forwarded(INITIAL, b.events) ==> !BareEnd(e))
  {
    var sent := Forwarded(INITIAL, b.events);
    if forall e :: e in sent ==> !BareEnd(e) {
      forall e | e in Wire(q, b, at) && e.kind == MessageEnd ensures EndAgrees(e, StreamConclusion(q, b, at)) {
        EndMatches(q, b, at, e);
      }
    } else {
      var e :| e in sent && BareEnd(e);
      assert e in Wire(q, b, at);
    }
  }

  lemma EndMatches(q: Request, b: Behaviour, at: string, e: StreamEvent)
    requires forall f :: f in Forwarded(INITIAL, b.events) ==> !BareEnd(f)
    requires e in Wire(q, b, at) && e.kind == MessageEnd
    ensures EndAgrees(e, StreamConclusion(q, b, at))
  {
    var sent := Forwarded(INITIAL, b.events);
    ForwardedPrefix(INITIAL, b.events);
    SentEnds(sent);
    FinalIsTheEnd(sent);
    NoneCounted(sent, MessageEnd);
    if e in sent {
      var i :| 0 <= i < |sent| && sent[i] == e;
      assert FinalOf(sent) == Final(e.stopReason, e.errorCode, e.usage);
    } else {
      assert e == StreamConclusion(q, b, at).end.value;
      assert Count(sent, MessageEnd) == 0 by {
        forall i | 0 <= i < |sent| ensures sent[i].kind == MessageEnd ==> sent[i].stopReason.Some? {
          assert sent[i] in sent;
        }
      }
    }
  }

  /** A well-formed stream passes through untouched. */
  lemma CleanStreamUntouched(q: Request, b: Behaviour, at: string)
    requires InLanguage(b.events) && b.ending == Finishes
    ensures Wire(q, b, at) == b.events && StreamError(b).None?
  {
    AcceptsIsLanguage(b.events);
    ForwardedPrefix(INITIAL, b.events);
    assert b.events + [] == b.events;
  }

  // ---------------------------------------------------------------- sequences

  lemma {:induction false} RunIncreasing(s: CheckerState, es: seq<StreamEvent>)
    requires Run(s, es).Some?
    ensures Above(es, s.lastSeq)
    decreases |es|
  {
    if es == [] {
    } else {
      RunIncreasing(Advance(s, es[0]), es[1..]);
      AboveStep(es, s.lastSeq);
    }
  }

  /** Sequences on the wire strictly increase, exactly unless the stream fails before a stop reason went
      out and an adapter sequence has already reached that of the synthetic end. */
  lemma SequencesIncrease(q: Request, b: Behaviour, at: string)
    ensures
      var sent := Forwarded(INITIAL, b.events);
      Increasing(Wire(q, b, at)) <==>
      (StreamError(b).None? || FinalOf(sent).stop.Some? || forall i :: 0 <= i < |sent| ==> sent[i].sequence < 999999)
  {
    var sent := Forwarded(INITIAL, b.events);
    var wire := Wire(q, b, at);
    ForwardedPrefix(INITIAL, b.events);
    RunIncreasing(INITIAL, sent);
    assert Increasing(sent);
    if StreamConclusion(q, b, at).end.Some? {
      var end := SyntheticEnd(q, StreamError(b).value, at);
      assert wire == sent + [end];
      PushIncreasing(sent, end);
    } else {
      assert sent + [] == sent;
    }
  }

  /** A stream whose sequences fall at the end: a start at 1000000, cut off. */
  lemma SequenceFalls(q: Request, at: string)
    ensures !Increasing(Wire(q, Behaviour([Plain(MessageStart, 1000000)], Finishes), at))
  {
    var start := Plain(MessageStart, 1000000);
    var b := Behaviour([start], Finishes);
    assert b.events[1..] == [];
    assert Forwarded(INITIAL, b.events) == b.events;
    assert FinalOf(b.events) == Final(None, None, None) by { assert b.events[..0] == []; }
    SequencesIncrease(q, b, at);
  }

  lemma PushIncreasing(es: seq<StreamEvent>, e: StreamEvent)
    requires Increasing(es) && e.sequence >= 0
    ensures Increasing(es + [e]) <==> forall i :: 0 <= i < |es| ==> es[i].sequence < e.sequence
  {
    var all := es + [e];
    assert all[|es|] == e && forall i :: 0 <= i < |es| ==> all[i] == es[i];
    if Increasing(all) {
      forall i | 0 <= i < |es| ensures es[i].sequence < e.sequence {
        assert all[i].sequence < all[|es|].sequence;
      }
    }
  }

  // ---------------------------------------------------------------- through to the client

  lemma SyntheticBodyFits(q: Request, code: ErrorCode, at: string)
    ensures
      var body := SyntheticEnd(q, code, at).body;
      WellFormed(body) && Defined(body)
  {
  }

  /** End to end: for every adapter whose events are plain JSON objects, and every way the network
      cuts the text the Runner wrote, the command-line client receives exactly the events of the
      wire, in order, and its buffer ends empty. */
  lemma ClientReceivesWire(q: Request, b: Behaviour, at: string, chunks: seq<string>)
    requires forall e :: e in b.events ==> WellFormed(e.body) && Defined(e.body)
    requires Concat(chunks) == EventsText(Wire(q, b, at), true)
    ensures Recovers(Yielded(Concat(chunks)), FramesOf(Wire(q, b, at)))
    ensures Cut(Concat(chunks)).rest == ""
  {
    FramesFit(q, b, at);
    StreamRoundTrip(FramesOf(Wire(q, b, at)), chunks);
  }

  lemma FramesFit(q: Request, b: Behaviour, at: string)
    requires forall e :: e in b.events ==> WellFormed(e.body) && Defined(e.body)
    ensures forall f :: f in FramesOf(Wire(q, b, at)) ==>
                          PlainKind(f.kind) && WellFormed(f.payload) && Defined(f.payload)
  {
    var frames := FramesOf(Wire(q, b, at));
    ForwardedPrefix(INITIAL, b.events);
    forall f | f in frames ensures PlainKind(f.kind) && WellFormed(f.payload) && Defined(f.payload) {
      var i :| 0 <= i < |frames| && frames[i] == f;
      var e := Wire(q, b, at)[i];
      if e !in b.events { SyntheticBodyFits(q, StreamError(b).value, at); }
    }
  }

  // ---------------------------------------------------------------- what the client reads

  function Member(v: Value, key: string): Option<Value> {
    if v.Obj? then MemberOf(v.fields, key) else None
  }

  function MemberOf(fields: seq<Field>, key: string): Option<Value> {
    if fields == [] then None
    else if fields[0].key == key then Some(fields[0].value)
    else MemberOf(fields[1..], key)
  }

  predicate NumberSays(v: Value, key: string, n: int) {
    var m := Member(v, key);
    m.Some? && m.value.Num? && m.value.n as int == n
  }

  predicate CodeSays(v: Value, code: Option<ErrorCode>) {
    match code
    case Some(c) => Member(v, "dispatcher_error_code") == Some(Str(ErrorName(c)))
    case None => Member(v, "dispatcher_error_code") in {None, Some(Null)}
  }

  predicate UsageSays(v: Value, u: Usage) {
    && NumberSays(v, "input_tokens", u.inputTokens)
    && NumberSays(v, "output_tokens", u.outputTokens)
    && match u.cachedTokens
       case Some(n) => NumberSays(v, "cached_tokens", n)
       case None => Member(v, "cached_tokens").None?
  }

  /** The JSON object carries the fields of the event. */
  predicate Says(v: Value, e: StreamEvent) {
    && Member(v, "type") == Some(Str(KindName(e.kind)))
    && NumberSays(v, "sequence", e.sequence)
    && Member(v, "stop_reason") == (if e.stopReason.Some? then Some(Str(StopName(e.stopReason.value))) else None)
    && CodeSays(v, e.errorCode)
    && match e.usage
       case Some(u) => Member(v, "usage").Some? && UsageSays(Member(v, "usage").value, u)
       case None => Member(v, "usage").None?
  }

  /** The JSON object says what the audit row says; without a usage the row counts nothing. */
  predicate SaysRow(v: Value, c: Conclusion) {
    && Member(v, "stop_reason") == Some(Str(StopName(c.stop)))
    && CodeSays(v, c.code)
    && match Member(v, "usage")
       case Some(u) => UsageSays(u, c.usage)
       case None => c.usage == NO_USAGE
  }

  predicate IsEnd(v: Value) { Member(v, "type") == Some(Str(KindName(MessageEnd))) }

  lemma {:induction false} MemberAt(fields: seq<Field>, key: string)
    ensures MemberOf(fields, key).Some? ==>
              exists i :: 0 <= i < |fields| && fields[i] == Field(key, MemberOf(fields, key).value)
    ensures MemberOf(fields, key).None? ==> !HasKey(fields, key)
  {
    if fields == [] {
    } else if fields[0].key == key {
      assert fields[0] == Field(key, fields[0].value);
    } else {
      MemberAt(fields[1..], key);
      if MemberOf(fields, key).Some? {
        var i :| 0 <= i < |fields[1..]| && fields[1..][i] == Field(key, MemberOf(fields, key).value);
        assert fields[i + 1] == Field(key, MemberOf(fields, key).value);
      } else {
        forall i | 0 <= i < |fields| ensures fields[i].key != key {
          if i > 0 { assert fields[i] == fields[1..][i - 1]; }
        }
      }
    }
  }

  /** Member order does not matter to a lookup. */
  lemma SameMember(v: Value, w: Value, key: string)
    requires v.Obj? && WellFormed(v) && WellFormed(w) && Same(v, w)
    ensures w.Obj? && (Member(v, key).Some? <==> Member(w, key).Some?)
    ensures Member(v, key).Some? ==>
              && Same(Member(v, key).value, Member(w, key).value)
              && WellFormed(Member(v, key).value) && WellFormed(Member(w, key).value)
  {
    var fs, gs := v.fields, w.fields;
    MemberAt(fs, key);
    MemberAt(gs, key);
    if Member(v, key).Some? {
      var i :| 0 <= i < |fs| && fs[i] == Field(key, Member(v, key).value);
      assert HasSame(fs[i], gs);
      var j :| 0 <= j < |gs| && fs[i].key == gs[j].key && Same(fs[i].value, gs[j].value);
      assert HasKey(gs, key);
      var k :| 0 <= k < |gs| && gs[k] == Field(key, Member(w, key).value);
      assert j == k;
    }
  }

  predicate Scalar(v: Value) { !v.Arr? && !v.Obj? }

  lemma SameScalar(v: Value, w: Value, key: string)
    requires v.Obj? && WellFormed(v) && WellFormed(w) && Same(v, w)
    requires Member(v, key).Some? ==> Scalar(Member(v, key).value)
    ensures Member(w, key) == Member(v, key)
  {
    SameMember(v, w, key);
  }

  lemma SameUsage(v: Value, w: Value, u: Usage)
    requires v.Obj? && WellFormed(v) && WellFormed(w) && Same(v, w) && UsageSays(v, u)
    ensures UsageSays(w, u)
  {
    SameScalar(v, w, "input_tokens");
    SameScalar(v, w, "output_tokens");
    SameScalar(v, w, "cached_tokens");
  }

  lemma SameSays(v: Value, w: Value, e: StreamEvent)
    requires WellFormed(v) && WellFormed(w) && Same(v, w) && Says(v, e)
    ensures Says(w, e)
  {
    SameScalar(v, w, "type");
    SameScalar(v, w, "sequence");
    SameScalar(v, w, "stop_reason");
    SameScalar(v, w, "dispatcher_error_code");
    SameMember(v, w, "usage");
    if e.usage.Some? { SameUsage(Member(v, "usage").value, Member(w, "usage").value, e.usage.value); }
  }

  lemma {:induction false} MemberIs(fields: seq<Field>, i: nat)
    requires DistinctKeys(fields) && i < |fields|
    ensures MemberOf(fields, fields[i].key) == Some(fields[i].value)
  {
    if i == 0 {
    } else {
      MemberIs(fields[1..], i - 1);
    }
  }

  lemma SyntheticSays(q: Request, code: ErrorCode, at: string)
    ensures Says(SyntheticEnd(q, code, at).body, SyntheticEnd(q, code, at))
  {
    SyntheticBodyFits(q, code, at);
    SyntheticUsage(q, code, at);
    var fields := SyntheticEnd(q, code, at).body.fields;
    MemberIs(fields, 0);
    MemberIs(fields, 1);
    MemberIs(fields, 3);
    MemberIs(fields, 4);
  }

  lemma SyntheticUsage(q: Request, code: ErrorCode, at: string)
    ensures Member(SyntheticEnd(q, code, at).body, "usage").None?
  {
    var fields := SyntheticEnd(q, code, at).body.fields;
    assert forall i :: 0 <= i < |fields| ==> |fields[i].key| != 5;
    NoSuchLength(fields, "usage");
  }

  lemma {:induction false} NoSuchLength(fields: seq<Field>, key: string)
    requires forall i :: 0 <= i < |fields| ==> |fields[i].key| != |key|
    ensures MemberOf(fields, key).None?
  {
    if fields == [] {
    } else {
      NoSuchLength(fields[1..], key);
    }
  }

  lemma BodySays(q: Request, b: Behaviour, at: string, e: StreamEvent)
    requires forall e :: e in b.events ==> WellFormed(e.body) && Defined(e.body) && Says(e.body, e)
    requires e in Wire(q, b, at)
    ensures WellFormed(e.body) && Says(e.body, e)
  {
    ForwardedPrefix(INITIAL, b.events);
    if e !in b.events {
      SyntheticSays(q, StreamError(b).value, at);
      SyntheticBodyFits(q, StreamError(b).value, at);
    }
  }

  lemma KindNamed(k: EventKind)
    ensures KindName(k) == KindName(MessageEnd) <==> k == MessageEnd
  {
    assert |KindName(k)| == 10 <==> k == MessageEnd;
  }

  lemma {:induction false} OnlyOne(es: seq<StreamEvent>, k: EventKind) returns (i: nat)
    requires Count(es, k) == 1
    ensures i < |es| && forall j :: 0 <= j < |es| ==> (es[j].kind == k <==> j == i)
  {
    if es[0].kind == k {
      NoneCounted(es[1..], k);
      i := 0;
      assert forall j :: 0 < j < |es| ==> es[j] == es[1..][j - 1];
    } else {
      var rest := OnlyOne(es[1..], k);
      i := rest + 1;
      assert forall j :: 0 < j < |es| ==> es[j] == es[1..][j - 1];
    }
  }

  /** Every event on the wire arrives as a JSON object that carries its fields. */
  lemma ClientReadsEvent(q: Request, b: Behaviour, at: string, chunks: seq<string>, i: nat)
    requires forall e :: e in b.events ==> WellFormed(e.body) && Defined(e.body) && Says(e.body, e)
    requires Concat(chunks) == EventsText(Wire(q, b, at), true)
    requires i < |Wire(q, b, at)|
    ensures |Yielded(Concat(chunks))| == |Wire(q, b, at)|
    ensures Says(Yielded(Concat(chunks))[i], Wire(q, b, at)[i])
  {
    ClientReceivesWire(q, b, at, chunks);
    var e := Wire(q, b, at)[i];
    BodySays(q, b, at, e);
    SameSays(e.body, Yielded(Concat(chunks))[i], e);
  }

  /** End to end: however the text is cut, exactly one of the objects the client receives is a message
      end, and its stop reason, error code and usage are those of the one audit row. */
  lemma ClientReadsRow(q: Request, b: Behaviour, at: string, chunks: seq<string>) returns (i: nat)
    requires forall e :: e in b.events ==> WellFormed(e.body) && Defined(e.body) && Says(e.body, e)
    requires forall e :: e in Forwarded(INITIAL, b.events) ==> !BareEnd(e)
    requires Concat(chunks) == EventsText(Wire(q, b, at), true)
    ensures
      var values := Yielded(Concat(chunks));
      && i < |values| && SaysRow(values[i], StreamConclusion(q, b, at))
      && forall j :: 0 <= j < |values| ==> (IsEnd(values[j]) <==> j == i)
  {
    var wire, values := Wire(q, b, at), Yielded(Concat(chunks));
    OneEndExactly(q, b, at);
    i := OnlyOne(wire, MessageEnd);
    forall j | 0 <= j < |wire| ensures |values| == |wire| && Says(values[j], wire[j]) {
      ClientReadsEvent(q, b, at, chunks, j);
      KindNamed(wire[j].kind);
    }
    ClientReadsEvent(q, b, at, chunks, i);
    forall j | 0 <= j < |values| ensures IsEnd(values[j]) <==> j == i {
      assert Says(values[j], wire[j]);
      KindNamed(wire[j].kind);
    }
    EndMatches(q, b, at, wire[i]);
  }

  /** The client's side of `AuditMatchesWire`: every message end it receives says what the row says, if
      and only if no end without a stop reason was forwarded. */
  lemma ClientReadsRowIff(q: Request, b: Behaviour, at: string, chunks: seq<string>)
    requires forall e :: e in b.events ==> WellFormed(e.body) && Defined(e.body) && Says(e.body, e)
    requires Concat(chunks) == EventsText(Wire(q, b, at), true)
    ensures
      var values := Yielded(Concat(chunks));
      (forall j :: 0 <= j < |values| && IsEnd(values[j]) ==> SaysRow(values[j], StreamConclusion(q, b, at))) <==>
      (forall e :: e in Forwarded(INITIAL, b.events) ==> !BareEnd(e))
  {
    var sent, wire, values := Forwarded(INITIAL, b.events), Wire(q, b, at), Yielded(Concat(chunks));
    if forall e :: e in sent ==> !BareEnd(e) {
      var i := ClientReadsRow(q, b, at, chunks);
    } else {
      var j :| 0 <= j < |sent| && BareEnd(sent[j]);
      assert wire[j] == sent[j];
      ClientReadsEvent(q, b, at, chunks, j);
      assert IsEnd(values[j]) && !SaysRow(values[j], StreamConclusion(q, b, at));
    }
  }
}
