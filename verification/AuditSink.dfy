/**
 The three-state audit sink: degradation, buffering while the external sink is away, and the flush
 that recovers. Flushes are taken as one step against row arrivals.
 */
module AuditSink {
  import opened Wrappers
  import AuditChain

  datatype State = Healthy | DegradedBuffering | UnreachableHalt

  datatype EventKind = SinkDegraded | SinkUnreachable | SinkRecovered

  /** `records` is the buffered or flushed count of the event's detail. */
  datatype Event = Event(id: string, kind: EventKind, at: int, records: nat, reason: string)

  type Row = AuditChain.Row

  datatype Sink = Sink(
    state: State,
    events: seq<Event>,
    buffer: seq<Row>,
    pending: set<string>,
    firstFailedAt: Option<int>,
    unreachableSince: Option<int>)

  const NEW := Sink(Healthy, [], [], {}, None, None)

  function KindFor(next: State): EventKind {
    match next
    case DegradedBuffering => SinkDegraded
    case UnreachableHalt => SinkUnreachable
    case Healthy => SinkRecovered
  }

  /** `transitionTo`: nothing when already there, else one event named after the new state. */
  function Transition(s: Sink, next: State, reason: string, now: int, id: string): Sink {
    if s.state == next then s
    else
      Sink(next,
           s.events + [Event(id, KindFor(next), now, |s.buffer|, reason)],
           s.buffer, s.pending,
           if next == DegradedBuffering then Some(now) else if next == Healthy then None else s.firstFailedAt,
           if next == UnreachableHalt then Some(now) else if next == Healthy then None else s.unreachableSince)
  }

  /** `recordAuditRow`: a healthy sink keeps nothing. */
  function Receive(s: Sink, row: Row): Sink {
    if s.state == Healthy then s
    else s.(buffer := s.buffer + [row], pending := s.pending + {row.thisHash})
  }

  /** How many rows go out before the shipping call fails, if it does. */
  function ShippedCount(s: Sink, failAt: Option<nat>): nat {
    if failAt.Some? && failAt.value < |s.buffer| then failAt.value else |s.buffer|
  }

  predicate FlushFails(s: Sink, failAt: Option<nat>) {
    failAt.Some? && failAt.value < |s.buffer|
  }

  /** `flushAndRecover`: a failed ship leaves everything as it was; a full flush empties the buffer
      and the pending queue and recovers, with the number of rows flushed in its event. */
  function Flush(s: Sink, failAt: Option<nat>, now: int, id: string): Sink {
    if FlushFails(s, failAt) then s
    else if s.state == Healthy then s.(buffer := [], pending := {})
    else Sink(Healthy, s.events + [Event(id, SinkRecovered, now, |s.buffer|, "sink-recovered")], [], {}, None, None)
  }

  class AuditSink {
    var state: State
    var events: seq<Event>
    var buffer: seq<Row>
    var pending: set<string>
    var firstFailedAt: Option<int>
    var unreachableSince: Option<int>

    ghost function Value(): Sink
      reads this
    {
      Sink(state, events, buffer, pending, firstFailedAt, unreachableSince)
    }

    /** A fresh sink; a named initial state counts as a transition from healthy. */
    constructor (initial: State, reason: string, now: int, id: string)
      ensures Value() == Transition(NEW, initial, reason, now, id)
    {
      state, events, buffer, pending := Healthy, [], [], {};
      firstFailedAt, unreachableSince := None, None;
      new;
      if initial != Healthy {
        var event := TransitionTo(initial, reason, now, id);
      }
    }

    method TransitionTo(next: State, reason: string, now: int, id: string) returns (event: Option<Event>)
      modifies this
      ensures Value() == Transition(old(Value()), next, reason, now, id)
      ensures event.None? <==> old(state) == next
      ensures event.Some? ==> event.value == events[|events| - 1] && |events| == |old(events)| + 1
    {
      if state == next {
        return None;
      }
      event := None;
      if next == DegradedBuffering {
        firstFailedAt := Some(now);
        event := Some(Event(id, SinkDegraded, now, |buffer|, reason));
      } else if next == UnreachableHalt {
        unreachableSince := Some(now);
        event := Some(Event(id, SinkUnreachable, now, |buffer|, reason));
      } else if next == Healthy {
        if state == DegradedBuffering || state == UnreachableHalt {
          event := Some(Event(id, SinkRecovered, now, |buffer|, reason));
        }
      }
      if event.Some? {
        events := events + [event.value];
      }
      state := next;
      if next == Healthy {
        firstFailedAt, unreachableSince := None, None;
      }
    }

    method RecordAuditRow(row: Row)
      modifies this
      ensures Value() == Receive(old(Value()), row)
    {
      if state == Healthy {
        return;
      }
      buffer := buffer + [row];
      pending := pending + {row.thisHash};
    }

    /** Ships the buffer in order; `failed` stands for an exception of the shipping call. */
    method FlushAndRecover(failAt: Option<nat>, now: int, id: string)
      returns (shipped: seq<Row>, failed: bool, event: Option<Event>)
      modifies this
      ensures Value() == Flush(old(Value()), failAt, now, id)
      ensures failed <==> failAt.Some? && failAt.value < |old(buffer)|
      ensures shipped == if failed then old(buffer)[..failAt.value] else old(buffer)
      ensures event.Some? <==> !failed && old(state) != Healthy
      ensures event.Some? ==> event.value == events[|events| - 1]
    {
      var snapshot := buffer;
      shipped, failed, event := [], false, None;
      var n := 0;
      while n < |snapshot|
        invariant 0 <= n <= |snapshot| && shipped == snapshot[..n]
        invariant failAt.Some? ==> n <= failAt.value
        invariant Value() == old(Value())
      {
        if failAt == Some(n) {
          failed := true;
          return;
        }
        shipped := shipped + [snapshot[n]];
        n := n + 1;
      }
      buffer := [];
      pending := {};
      event := TransitionTo(Healthy, "sink-recovered", now, id);
      if event.Some? {
        var swapped := event.value.(records := |snapshot|);
        events := events[..|events| - 1] + [swapped];
        event := Some(swapped);
      }
    }
  }

  // ---------------------------------------------------------------- recovering the state from the log

  /** The state a log of events names. */
  function NamedState(events: seq<Event>): State {
    if events == [] then Healthy
    else match events[|events| - 1].kind
      case SinkDegraded => DegradedBuffering
      case SinkUnreachable => UnreachableHalt
      case SinkRecovered => Healthy
  }

  /** When the latest event of a kind happened, looking back no further than the last recovery. */
  function LatestAt(events: seq<Event>, kind: EventKind): Option<int> {
    if events == [] then None
    else
      var last := events[|events| - 1];
      if last.kind == SinkRecovered then None
      else if last.kind == kind then Some(last.at)
      else LatestAt(events[..|events| - 1], kind)
  }

  ghost predicate Alternates(events: seq<Event>) {
    && (events != [] ==> events[0].kind != SinkRecovered)
    && forall i :: 0 < i < |events| ==> events[i - 1].kind != events[i].kind
  }

  function Hashes(rows: seq<Row>): set<string> {
    set i | 0 <= i < |rows| :: rows[i].thisHash
  }

  /** What every reachable sink satisfies. */
  ghost predicate Recoverable(s: Sink) {
    && s.state == NamedState(s.events)
    && s.firstFailedAt == LatestAt(s.events, SinkDegraded)
    && s.unreachableSince == LatestAt(s.events, SinkUnreachable)
    && Alternates(s.events)
    && s.pending == Hashes(s.buffer)
  }

  lemma TransitionRecoverable(s: Sink, next: State, reason: string, now: int, id: string)
    requires Recoverable(s)
    ensures Recoverable(Transition(s, next, reason, now, id))
  {
  }

  lemma ReceiveRecoverable(s: Sink, row: Row)
    requires Recoverable(s)
    ensures Recoverable(Receive(s, row))
  {
    var all := s.buffer + [row];
    assert forall h :: h in Hashes(all) <==> h in Hashes(s.buffer) || h == row.thisHash by {
      assert all[|s.buffer|] == row;
      forall h | h in Hashes(s.buffer) ensures h in Hashes(all) {
        var i :| 0 <= i < |s.buffer| && s.buffer[i].thisHash == h;
        assert all[i] == s.buffer[i];
      }
    }
  }

  lemma FlushRecoverable(s: Sink, failAt: Option<nat>, now: int, id: string)
    requires Recoverable(s)
    ensures Recoverable(Flush(s, failAt, now, id))
  {
  }

  // ---------------------------------------------------------------- runs

  datatype Op =
    | Transit(next: State, reason: string, now: int, id: string)
    | Arrive(row: Row)
    | FlushOp(failAt: Option<nat>, now: int, id: string)

  /** A sink with the history around it: rows received while it was not healthy, rows shipped, rows
      shipped by flushes that completed, and whether any flush failed. */
  datatype Run = Run(sink: Sink, received: seq<Row>, shipped: seq<Row>, acked: seq<Row>, anyFailed: bool)

  function Step(r: Run, op: Op): Run {
    match op
    case Transit(next, reason, now, id) => r.(sink := Transition(r.sink, next, reason, now, id))
    case Arrive(row) =>
      r.(sink := Receive(r.sink, row),
         received := if r.sink.state == Healthy then r.received else r.received + [row])
    case FlushOp(failAt, now, id) =>
      var out := r.sink.buffer[..ShippedCount(r.sink, failAt)];
      Run(Flush(r.sink, failAt, now, id), r.received, r.shipped + out,
          if FlushFails(r.sink, failAt) then r.acked else r.acked + out,
          r.anyFailed || FlushFails(r.sink, failAt))
  }

  function RunOps(initial: Sink, ops: seq<Op>): Run {
    if ops == [] then Run(initial, [], [], [], false)
    else Step(RunOps(initial, ops[..|ops| - 1]), ops[|ops| - 1])
  }

  /** Over any run the whole state can be read off the event log, and the pending files are those of
      the buffer. */
  lemma {:induction false} RunRecoverable(initial: State, reason: string, now: int, id: string, ops: seq<Op>)
    ensures Recoverable(RunOps(Transition(NEW, initial, reason, now, id), ops).sink)
  {
    var start := Transition(NEW, initial, reason, now, id);
    if ops == [] {
      assert Hashes([]) == {};
      TransitionRecoverable(NEW, initial, reason, now, id);
    } else {
      var init, op := ops[..|ops| - 1], ops[|ops| - 1];
      RunRecoverable(initial, reason, now, id, init);
      var s := RunOps(start, init).sink;
      match op
      case Transit(next, why, at, eid) => TransitionRecoverable(s, next, why, at, eid);
      case Arrive(row) => ReceiveRecoverable(s, row);
      case FlushOp(failAt, at, eid) => FlushRecoverable(s, failAt, at, eid);
    }
  }

  /** Conservation: the rows acknowledged by completed flushes, then the buffer, are exactly the rows
      received while not healthy, in order. Every one of them was shipped or is still buffered, as
      often as it was received; and if no flush failed, each was shipped once. */
  lemma {:induction false} RunConserves(initial: Sink, ops: seq<Op>)
    requires initial.buffer == []
    ensures
      var r := RunOps(initial, ops);
      && r.acked + r.sink.buffer == r.received
      && multiset(r.received) <= multiset(r.shipped) + multiset(r.sink.buffer)
      && (!r.anyFailed ==> r.shipped + r.sink.buffer == r.received)
  {
    RunShips(initial, ops);
    var r := RunOps(initial, ops);
    assert multiset(r.acked + r.sink.buffer) == multiset(r.acked) + multiset(r.sink.buffer);
  }

  lemma {:induction false} RunShips(initial: Sink, ops: seq<Op>)
    requires initial.buffer == []
    ensures
      var r := RunOps(initial, ops);
      && r.acked + r.sink.buffer == r.received
      && multiset(r.acked) <= multiset(r.shipped)
      && (!r.anyFailed ==> r.shipped == r.acked)
  {
    if ops == [] {
    } else {
      var init, op := ops[..|ops| - 1], ops[|ops| - 1];
      RunShips(initial, init);
      var r := RunOps(initial, init);
      match op
      case Transit(_, _, _, _) =>
      case Arrive(row) =>
        assert r.acked + (r.sink.buffer + [row]) == r.acked + r.sink.buffer + [row];
      case FlushOp(failAt, _, _) =>
        var out := r.sink.buffer[..ShippedCount(r.sink, failAt)];
        assert multiset(r.shipped + out) == multiset(r.shipped) + multiset(out);
        if !FlushFails(r.sink, failAt) {
          assert out == r.sink.buffer;
          assert multiset(r.acked + out) == multiset(r.acked) + multiset(out);
          assert r.acked + out + [] == r.acked + out;
        }
    }
  }

  /** The events of every run, and its state: a transition to another state adds one event, named after
      that state, and a completed flush of a sink that is not healthy adds a recovery. Each counts the rows
      received and not yet acknowledged. Nothing else adds an event. */
  lemma EventsExact(initial: Sink, ops: seq<Op>, op: Op)
    requires initial.buffer == []
    ensures
      var r, r' := RunOps(initial, ops), RunOps(initial, ops + [op]);
      var waiting := |r.received| - |r.acked|;
      waiting >= 0 &&
      match op
      case Arrive(_) => r'.sink.events == r.sink.events && r'.sink.state == r.sink.state
      case Transit(next, reason, now, id) =>
        && r'.sink.state == next
        && r'.sink.events == r.sink.events +
           if next == r.sink.state then []
           else
             var kind := if next == DegradedBuffering then SinkDegraded
                         else if next == UnreachableHalt then SinkUnreachable else SinkRecovered;
             [Event(id, kind, now, waiting, reason)]
      case FlushOp(failAt, now, id) =>
        var failed := failAt.Some? && failAt.value < waiting;
        && r'.sink.state == (if failed then r.sink.state else Healthy)
        && r'.sink.events == r.sink.events +
           (if failed || r.sink.state == Healthy then []
            else [Event(id, SinkRecovered, now, waiting, "sink-recovered")])
        && r'.sink.buffer == if failed then r.sink.buffer else []
    ensures
      var r, r' := RunOps(initial, ops), RunOps(initial, ops + [op]);
      op.FlushOp? ==>
        r'.shipped == r.shipped +
        if op.failAt.Some? && op.failAt.value < |r.sink.buffer| then r.sink.buffer[..op.failAt.value] else r.sink.buffer
  {
    RunShips(initial, ops);
    assert (ops + [op])[..|ops|] == ops;
    var r := RunOps(initial, ops);
    assert |r.acked + r.sink.buffer| == |r.acked| + |r.sink.buffer|;
  }

  // ---------------------------------------------------------------- what the recovery events count

  /** The rows that the recovery events of a log claim to have flushed, together. */
  function Claimed(events: seq<Event>): nat {
    if events == [] then 0
    else
      var last := events[|events| - 1];
      Claimed(events[..|events| - 1]) + (if last.kind == SinkRecovered then last.records else 0)
  }

  /** Rows claimed by an earlier recovery that are still buffered when the sink leaves healthy: the
      next recovery claims them again. */
  function Reclaimed(initial: Sink, ops: seq<Op>): nat {
    if ops == [] then 0
    else
      var init, op := ops[..|ops| - 1], ops[|ops| - 1];
      Reclaimed(initial, init) + LeftBehind(RunOps(initial, init).sink, op)
  }

  function LeftBehind(s: Sink, op: Op): nat {
    if s.state == Healthy && op.Transit? && op.next != Healthy then |s.buffer| else 0
  }

  function HeldOver(s: Sink): nat {
    if s.state == Healthy then |s.buffer| else 0
  }

  lemma ClaimedPush(events: seq<Event>, e: Event)
    ensures Claimed(events + [e]) == Claimed(events) + (if e.kind == SinkRecovered then e.records else 0)
  {
    assert (events + [e])[..|events|] == events;
  }

  lemma StepClaims(r: Run, op: Op)
    ensures
      var r' := Step(r, op);
      Claimed(r'.sink.events) - |r'.acked| - HeldOver(r'.sink) ==
      Claimed(r.sink.events) - |r.acked| - HeldOver(r.sink) + LeftBehind(r.sink, op)
  {
    var s := r.sink;
    match op
    case Transit(next, reason, now, id) =>
      if s.state != next { ClaimedPush(s.events, Event(id, KindFor(next), now, |s.buffer|, reason)); }
    case Arrive(_) =>
    case FlushOp(failAt, now, id) =>
      if !FlushFails(s, failAt) && s.state != Healthy {
        ClaimedPush(s.events, Event(id, SinkRecovered, now, |s.buffer|, "sink-recovered"));
      }
  }

  /** In every run the recovery events claim the acknowledged rows, the rows held over by a healthy sink,
      and the rows claimed more than once. */
  lemma {:induction false} ClaimsExact(initial: Sink, ops: seq<Op>)
    requires initial.buffer == [] && Claimed(initial.events) == 0
    ensures
      var r := RunOps(initial, ops);
      Claimed(r.sink.events) == |r.acked| + HeldOver(r.sink) + Reclaimed(initial, ops)
  {
    if ops == [] {
    } else {
      var init := ops[..|ops| - 1];
      ClaimsExact(initial, init);
      StepClaims(RunOps(initial, init), ops[|ops| - 1]);
    }
  }

  /** The counts add up: what the events claim is what completed flushes shipped. */
  ghost predicate AddsUp(initial: Sink, ops: seq<Op>) {
    Claimed(RunOps(initial, ops).sink.events) == |RunOps(initial, ops).acked|
  }

  /** This operation declares the sink recovered although rows are buffered. */
  ghost predicate SkipsFlush(initial: Sink, ops: seq<Op>, n: nat)
    requires n < |ops|
  {
    var s := RunOps(initial, ops[..n]).sink;
    ops[n].Transit? && ops[n].next == Healthy && s.state != Healthy && s.buffer != []
  }

  lemma OneMoreOp(initial: Sink, ops: seq<Op>, n: nat)
    requires n < |ops|
    ensures RunOps(initial, ops[..n + 1]) == Step(RunOps(initial, ops[..n]), ops[n])
    ensures Reclaimed(initial, ops[..n + 1]) ==
            Reclaimed(initial, ops[..n]) + LeftBehind(RunOps(initial, ops[..n]).sink, ops[n])
  {
    assert ops[..n + 1][..n] == ops[..n];
  }

  /** A run whose recoveries all go through a flush, or find nothing buffered, holds nothing over. */
  lemma {:induction false} NothingHeldOver(initial: Sink, ops: seq<Op>, n: nat)
    requires initial.buffer == [] && n <= |ops|
    requires forall i :: 0 <= i < n ==> !SkipsFlush(initial, ops, i)
    ensures HeldOver(RunOps(initial, ops[..n]).sink) == 0 && Reclaimed(initial, ops[..n]) == 0
  {
    if n == 0 {
    } else {
      NothingHeldOver(initial, ops, n - 1);
      OneMoreOp(initial, ops, n - 1);
      assert !SkipsFlush(initial, ops, n - 1);
    }
  }

  /** The counts of the recovery events add up to the acknowledged rows at every point of a run if and
      only if no transition declared the sink healthy over a nonempty buffer. */
  lemma CountsAddUpIff(initial: Sink, ops: seq<Op>)
    requires initial.buffer == [] && Claimed(initial.events) == 0
    ensures
      (forall n :: 0 <= n <= |ops| ==> AddsUp(initial, ops[..n])) <==>
      (forall n :: 0 <= n < |ops| ==> !SkipsFlush(initial, ops, n))
  {
    if forall n :: 0 <= n < |ops| ==> !SkipsFlush(initial, ops, n) {
      forall n | 0 <= n <= |ops| ensures AddsUp(initial, ops[..n]) {
        NothingHeldOver(initial, ops, n);
        ClaimsExact(initial, ops[..n]);
      }
    } else {
      var n :| 0 <= n < |ops| && SkipsFlush(initial, ops, n);
      ClaimsExact(initial, ops[..n + 1]);
      OneMoreOp(initial, ops, n);
      assert !AddsUp(initial, ops[..n + 1]);
    }
  }

  /** A recovery that claims a row nobody shipped: degraded, one row, declared healthy. */
  lemma ClaimsUnshipped(row: Row, now: int)
    ensures
      var ops := [Transit(DegradedBuffering, "down", now, "a"), Arrive(row), Transit(Healthy, "up", now, "b")];
      var r := RunOps(NEW, ops);
      Claimed(r.sink.events) == 1 && r.shipped == [] && r.sink.buffer == [row]
  {
    var ops := [Transit(DegradedBuffering, "down", now, "a"), Arrive(row), Transit(Healthy, "up", now, "b")];
    assert ops[..0] == [];
    OneMoreOp(NEW, ops, 0);
    OneMoreOp(NEW, ops, 1);
    OneMoreOp(NEW, ops, 2);
    assert ops[..3] == ops;
    ClaimsExact(NEW, ops);
  }
}
