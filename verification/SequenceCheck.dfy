/**
 The sequence checker every adapter stream passes through, and the language it accepts.

 The checker is an automaton over event kinds with a sequence counter beside it. The main result
 gives its language outright, in both directions: a stream passes and completes exactly when its
 sequences start at zero or above and strictly increase, it opens with its only `MessageStart`,
 it holds one `MessageEnd`, and what is left is a run of whole content blocks.
 */
module SequenceCheck {
  import opened Wrappers
  import opened StreamTypes

  datatype CheckerState = CheckerState(
    messageStarted: bool,
    messageEnded: bool,
    openBlockIndex: Option<int>,
    lastSeq: int)

  const INITIAL := CheckerState(false, false, None, -1)

  /** The checks of one event; false stands for the thrown error. */
  predicate Passes(s: CheckerState, e: StreamEvent) {
    && e.sequence > s.lastSeq
    && match e.kind
       case MessageStart => !s.messageStarted
       case ContentBlockStart => s.messageStarted && s.openBlockIndex.None?
       case ContentBlockDelta => s.openBlockIndex.Some?
       case ContentBlockEnd => s.openBlockIndex.Some?
       case MessageEnd => s.messageStarted && !s.messageEnded
  }

  function Advance(s: CheckerState, e: StreamEvent): CheckerState {
    var t := s.(lastSeq := e.sequence);
    match e.kind
    case MessageStart => t.(messageStarted := true)
    case ContentBlockStart => t.(openBlockIndex := Some(e.blockIndex.GetOr(0)))
    case ContentBlockDelta => t
    case ContentBlockEnd => t.(openBlockIndex := None)
    case MessageEnd => t.(messageEnded := true)
  }

  predicate Complete(s: CheckerState) {
    s.messageStarted && s.messageEnded && s.openBlockIndex.None?
  }

  class SequenceChecker {
    var messageStarted: bool
    var messageEnded: bool
    var openBlockIndex: Option<int>
    var lastSeq: int

    ghost function State(): CheckerState
      reads this
    {
      CheckerState(messageStarted, messageEnded, openBlockIndex, lastSeq)
    }

    constructor ()
      ensures State() == INITIAL
    {
      messageStarted, messageEnded, openBlockIndex, lastSeq := false, false, None, -1;
    }

    /** `check`; a false result is the thrown error, after which the checker is not used again. */
    method Check(e: StreamEvent) returns (ok: bool)
      modifies this
      ensures ok <==> Passes(old(State()), e)
      ensures ok ==> State() == Advance(old(State()), e)
    {
      if e.sequence <= lastSeq {
        return false;
      }
      lastSeq := e.sequence;
      match e.kind {
        case MessageStart =>
          if messageStarted { return false; }
          messageStarted := true;
        case ContentBlockStart =>
          if !messageStarted { return false; }
          if openBlockIndex.Some? { return false; }
          openBlockIndex := Some(e.blockIndex.GetOr(0));
        case ContentBlockDelta =>
          if openBlockIndex.None? { return false; }
        case ContentBlockEnd =>
          if openBlockIndex.None? { return false; }
          openBlockIndex := None;
        case MessageEnd =>
          if !messageStarted { return false; }
          if messageEnded { return false; }
          messageEnded := true;
      }
      return true;
    }

    method IsComplete() returns (done: bool)
      ensures done <==> Complete(State())
    {
      return messageStarted && messageEnded && openBlockIndex.None?;
    }
  }

  // ---------------------------------------------------------------- runs

  /** The state after a whole stream, or None once an event is refused. */
  function Run(s: CheckerState, es: seq<StreamEvent>): Option<CheckerState>
    decreases |es|
  {
    if es == [] then Some(s)
    else if Passes(s, es[0]) then Run(Advance(s, es[0]), es[1..])
    else None
  }

  ghost predicate Accepts(es: seq<StreamEvent>) {
    Run(INITIAL, es).Some? && Complete(Run(INITIAL, es).value)
  }

  lemma {:induction false} RunAppend(s: CheckerState, a: seq<StreamEvent>, b: seq<StreamEvent>)
    ensures Run(s, a + b) == if Run(s, a).Some? then Run(Run(s, a).value, b) else None
    decreases |a|
  {
    if a == [] {
      assert a + b == b;
    } else {
      assert (a + b)[1..] == a[1..] + b;
      if Passes(s, a[0]) { RunAppend(Advance(s, a[0]), a[1..], b); }
    }
  }

  // ---------------------------------------------------------------- the language, independently

  ghost predicate Increasing(es: seq<StreamEvent>) {
    && (forall i :: 0 <= i < |es| ==> es[i].sequence >= 0)
    && (forall i, j :: 0 <= i < j < |es| ==> es[i].sequence < es[j].sequence)
  }

  ghost predicate Holds(es: seq<StreamEvent>, k: EventKind) {
    exists i :: 0 <= i < |es| && es[i].kind == k
  }

  function Count(es: seq<StreamEvent>, k: EventKind): nat {
    if es == [] then 0 else (if es[0].kind == k then 1 else 0) + Count(es[1..], k)
  }

  /** The kinds of a stream with its message end erased. */
  function Erase(es: seq<StreamEvent>): seq<EventKind> {
    if es == [] then []
    else (if es[0].kind == MessageEnd then [] else [es[0].kind]) + Erase(es[1..])
  }

  /** A concatenation of blocks, each one Start Delta* End. */
  ghost predicate Blocks(ks: seq<EventKind>)
    decreases |ks|, 1
  {
    ks == [] || exists n :: FirstBlockEnds(ks, n)
  }

  /** The first block is `ks[..n + 1]`, and whole blocks follow. */
  ghost predicate FirstBlockEnds(ks: seq<EventKind>, n: int)
    decreases |ks|, 0
  {
    && 1 <= n < |ks|
    && ks[0] == ContentBlockStart
    && (forall i :: 0 < i < n ==> ks[i] == ContentBlockDelta)
    && ks[n] == ContentBlockEnd
    && Blocks(ks[n + 1..])
  }

  ghost predicate InLanguage(es: seq<StreamEvent>) {
    && Increasing(es)
    && es != []
    && es[0].kind == MessageStart
    && !Holds(es[1..], MessageStart)
    && Count(es, MessageEnd) == 1
    && Blocks(Erase(es[1..]))
  }

  // ---------------------------------------------------------------- the automaton on kinds alone

  /** The block half of the checker: whether a block is open after the kinds, None if refused. */
  function BlockRun(open: bool, ks: seq<EventKind>): Option<bool>
    decreases |ks|
  {
    if ks == [] then Some(open)
    else match ks[0]
      case ContentBlockStart => if open then None else BlockRun(true, ks[1..])
      case ContentBlockDelta => if open then BlockRun(true, ks[1..]) else None
      case ContentBlockEnd => if open then BlockRun(false, ks[1..]) else None
      case _ => None
  }

  /** A rest of one block followed by whole blocks: Delta* End Blocks. */
  ghost predicate OpenRest(ks: seq<EventKind>) {
    exists n :: OpenBlockEnds(ks, n)
  }

  ghost predicate OpenBlockEnds(ks: seq<EventKind>, n: int) {
    && 0 <= n < |ks|
    && (forall i :: 0 <= i < n ==> ks[i] == ContentBlockDelta)
    && ks[n] == ContentBlockEnd
    && Blocks(ks[n + 1..])
  }

  lemma {:induction false} BlockRunAccepts(open: bool, ks: seq<EventKind>)
    ensures BlockRun(open, ks) == Some(false) <==> if open then OpenRest(ks) else Blocks(ks)
    decreases |ks|
  {
    if ks == [] {
    } else if open {
      if ks[0] == ContentBlockDelta {
        BlockRunAccepts(true, ks[1..]);
        OpenRestDelta(ks);
      } else if ks[0] == ContentBlockEnd {
        BlockRunAccepts(false, ks[1..]);
        OpenRestEnd(ks);
      } else {
        forall n ensures !OpenBlockEnds(ks, n) {}
      }
    } else if ks[0] == ContentBlockStart {
      BlockRunAccepts(true, ks[1..]);
      BlocksStart(ks);
    } else {
      forall n ensures !FirstBlockEnds(ks, n) {}
    }
  }

  lemma OpenRestDelta(ks: seq<EventKind>)
    requires ks != [] && ks[0] == ContentBlockDelta
    ensures OpenRest(ks) <==> OpenRest(ks[1..])
  {
    var tail := ks[1..];
    forall n | OpenBlockEnds(ks, n) ensures OpenBlockEnds(tail, n - 1) {
      assert tail[n - 1 + 1..] == ks[n + 1..];
    }
    forall n | OpenBlockEnds(tail, n) ensures OpenBlockEnds(ks, n + 1) {
      assert ks[n + 1 + 1..] == tail[n + 1..];
      assert forall i :: 0 < i < n + 1 ==> ks[i] == tail[i - 1];
    }
  }

  lemma OpenRestEnd(ks: seq<EventKind>)
    requires ks != [] && ks[0] == ContentBlockEnd
    ensures OpenRest(ks) <==> Blocks(ks[1..])
  {
    forall n | OpenBlockEnds(ks, n) ensures n == 0 {}
    assert ks[0 + 1..] == ks[1..];
    assert Blocks(ks[1..]) ==> OpenBlockEnds(ks, 0);
  }

  lemma BlocksStart(ks: seq<EventKind>)
    requires ks != [] && ks[0] == ContentBlockStart
    ensures Blocks(ks) <==> OpenRest(ks[1..])
  {
    var tail := ks[1..];
    forall n | FirstBlockEnds(ks, n) ensures OpenBlockEnds(tail, n - 1) {
      assert tail[n - 1 + 1..] == ks[n + 1..];
    }
    forall n | OpenBlockEnds(tail, n) ensures FirstBlockEnds(ks, n + 1) {
      assert ks[n + 1 + 1..] == tail[n + 1..];
      assert forall i :: 0 < i < n + 1 ==> ks[i] == tail[i - 1];
    }
  }

  // ---------------------------------------------------------------- the checker is that language

  ghost predicate Above(es: seq<StreamEvent>, low: int) {
    && (forall i :: 0 <= i < |es| ==> es[i].sequence > low)
    && (forall i, j :: 0 <= i < j < |es| ==> es[i].sequence < es[j].sequence)
  }

  lemma AboveStep(es: seq<StreamEvent>, low: int)
    requires es != []
    ensures Above(es, low) <==> es[0].sequence > low && Above(es[1..], es[0].sequence)
  {
  }

  lemma HoldsStep(es: seq<StreamEvent>, k: EventKind)
    requires es != []
    ensures Holds(es, k) <==> es[0].kind == k || Holds(es[1..], k)
  {
  }

  /** From any state past the message start, the checker's three concerns come apart. */
  lemma {:induction false} RunSplits(s: CheckerState, es: seq<StreamEvent>)
    requires s.messageStarted
    ensures
      var ends := Count(es, MessageEnd) + if s.messageEnded then 1 else 0;
      var blocks := BlockRun(s.openBlockIndex.Some?, Erase(es));
      && (Run(s, es).Some? <==>
          Above(es, s.lastSeq) && !Holds(es, MessageStart) && ends <= 1 && blocks.Some?)
      && (Run(s, es).Some? ==>
            && Run(s, es).value.messageStarted
            && (Run(s, es).value.messageEnded <==> ends == 1)
            && Run(s, es).value.openBlockIndex.Some? == blocks.value)
    decreases |es|
  {
    if es == [] {
    } else {
      AboveStep(es, s.lastSeq);
      HoldsStep(es, MessageStart);
      var e := es[0];
      EraseStep(es);
      if Passes(s, e) { RunSplits(Advance(s, e), es[1..]); }
    }
  }

  lemma EraseStep(es: seq<StreamEvent>)
    requires es != []
    ensures es[0].kind == MessageEnd ==> Erase(es) == Erase(es[1..])
    ensures es[0].kind != MessageEnd ==>
              Erase(es) != [] && Erase(es)[0] == es[0].kind && Erase(es)[1..] == Erase(es[1..])
  {
  }

  /** The language of the checker, in both directions. */
  lemma AcceptsIsLanguage(es: seq<StreamEvent>)
    ensures Accepts(es) <==> InLanguage(es)
  {
    if es != [] {
      AboveStep(es, -1);
      assert Increasing(es) <==> Above(es, -1);
      if es[0].kind == MessageStart {
        if Passes(INITIAL, es[0]) { RunSplits(Advance(INITIAL, es[0]), es[1..]); }
        BlockRunAccepts(false, Erase(es[1..]));
      }
    }
  }

  /** Every refused event leaves the stream short: nothing after the first refusal can repair it,
      and every accepted stream has accepted beginnings only. */
  lemma {:induction false} PrefixPasses(s: CheckerState, es: seq<StreamEvent>, n: nat)
    requires n <= |es| && Run(s, es).Some?
    ensures Run(s, es[..n]).Some?
  {
    assert es == es[..n] + es[n..];
    RunAppend(s, es[..n], es[n..]);
  }
}
