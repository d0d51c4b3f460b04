/**
 Deadlines of the handoff service: when a task can read as timed out, when the deadline callback
 speaks up, and what the startup guard on the execute hook is worth.
 */
module HandoffTiming {
  import opened Wrappers
  import opened Handoff
  import opened HandoffLaws

  // ---------------------------------------------------------------- what every legal run keeps

  /** The loop is no later than it may be with any pending timer. */
  ghost predicate OnTime(s: State, c: Config) {
    forall h :: h in s.timers.live ==> s.nowMs <= s.timers.live[h].due + c.lateness
  }

  lemma {:induction false} RunOnTime(ops: seq<Op>, c: Config)
    requires Legal(ops, c) && c.deadlineS >= 0
    ensures OnTime(Run(ops, c), c)
  {
    if ops == [] {
    } else {
      var init, op := ops[..|ops| - 1], ops[|ops| - 1];
      RunOnTime(init, c);
      StepOnTime(Run(init, c), op, c);
    }
  }

  /** Timers that were not pending before are set for now or later. */
  lemma NewTimers(t: Timers, now: int, task: string, c: Config)
    requires c.deadlineS >= 0
    ensures
      var t' := TransferTimers(t, now, task, c);
      forall h :: h in t'.live ==> t'.live[h].due >= now || (h in t.live && t.live[h] == t'.live[h])
  {
  }

  lemma StepOnTime(s: State, op: Op, c: Config)
    requires OnTime(s, c) && Enabled(s, op, c) && c.deadlineS >= 0
    ensures OnTime(Next(s, op, c), c)
  {
    if op.TransferOp? { NewTimers(s.timers, s.nowMs, op.task.GetOr(""), c); }
  }

  // ---------------------------------------------------------------- with the execute hook on

  /** When the pair pending for a task was scheduled. */
  function PairAt(t: Timers, task: string, n: int): Option<int> {
    if task in t.auto && t.auto[task].complete in t.live then
      Some(t.live[t.auto[task].complete].due - 2 * n * 1000)
    else None
  }

  lemma ScheduledPair(t: Timers, now: int, task: string, n: int, other: string)
    requires Consistent(t)
    ensures PairAt(ScheduleAuto(t, now, task, n), other, n) ==
            if other == task && task !in t.auto then Some(now) else PairAt(t, other, n)
  {
  }

  lemma ClearedPair(t: Timers, task: string, n: int, other: string)
    requires Consistent(t)
    ensures PairAt(CancelDeadline(t, task), other, n) == PairAt(t, other, n)
  {
  }

  lemma ArmedPair(t: Timers, now: int, task: string, destination: string, deadlineS: int, n: int, other: string)
    requires Consistent(t)
    ensures PairAt(ArmDeadline(t, now, task, destination, deadlineS), other, n) == PairAt(t, other, n)
  {
  }

  lemma CancelledPair(t: Timers, task: string, n: int, other: string)
    requires Consistent(t)
    ensures PairAt(CancelAuto(t, task), other, n) == if other == task then None else PairAt(t, other, n)
  {
  }

  lemma RetiredPair(t: Timers, h: nat, n: int, other: string)
    requires Consistent(t) && h in t.live
    ensures PairAt(Retire(t, h), other, n) ==
            if t.live[h].kind.Complete? && other == t.live[h].task then None else PairAt(t, other, n)
  {
  }

  /** An accepted transfer gives its task a pair if it has none, and leaves every other alone. */
  lemma TransferPair(t: Timers, now: int, task: string, c: Config, n: int, other: string)
    requires Consistent(t) && c.autoN == Some(n) && n > 0
    ensures PairAt(TransferTimers(t, now, task, c), other, n) ==
            if other == task && task !in t.auto then Some(now) else PairAt(t, other, n)
  {
    ScheduleKeeps(t, now, task, n);
    ScheduledPair(t, now, task, n, other);
    ArmedPair(ScheduleAuto(t, now, task, n), now, task, DestinationFor(task), c.deadlineS, n, other);
  }

  /** A row is in order: not ended, it has a pair pending that was set no later than its stamp. */
  ghost predicate RowCovered(row: TaskRow, pair: Option<int>) {
    && (row.status.Accepted? || row.status.Executing? || row.status.Completed?)
    && (row.acceptedAtS.Some? && !Terminal(row.status) ==>
          pair.Some? && Seconds(pair.value) <= row.acceptedAtS.value)
  }

  ghost predicate Covered(s: State, n: int) {
    && (forall task :: task in s.tasks ==> RowCovered(s.tasks[task], PairAt(s.timers, task, n)))
    && (forall task :: PastPair(PairAt(s.timers, task, n), s.nowMs))
  }

  ghost predicate PastPair(pair: Option<int>, now: int) { pair.Some? ==> pair.value <= now }

  lemma {:induction false} RunCovered(ops: seq<Op>, c: Config, n: int)
    requires Legal(ops, c) && c.autoN == Some(n) && n > 0
    ensures Covered(Run(ops, c), n)
  {
    if ops == [] {
    } else {
      var init, op := ops[..|ops| - 1], ops[|ops| - 1];
      RunCovered(init, c, n);
      TimersConsistent(init, c);
      StepCovered(Run(init, c), op, c, n);
    }
  }

  lemma StepCovered(s: State, op: Op, c: Config, n: int)
    requires Covered(s, n) && Consistent(s.timers) && Enabled(s, op, c) && c.autoN == Some(n) && n > 0
    ensures Covered(Next(s, op, c), n)
  {
    match op
    case OfferOp(_, _, _, _, _) =>
    case TransferOp(task, _, _, _, _) =>
      if Answer(s, op, c).Transferred? { TransferCovered(s, task.value, c, n); }
    case StatusOp(_) =>
    case ReturnOp(task, digest) =>
      if task.Some? { ReturnCovered(s, task.value, digest, c, n); }
    case Fire(h) => FireCovered(s, h, c, n);
    case Tick(to) =>
  }

  lemma TransferCovered(s: State, task: string, c: Config, n: int)
    requires Covered(s, n) && Consistent(s.timers) && c.autoN == Some(n) && n > 0 && task in s.tasks
    ensures
      Covered(s.(tasks := Record(s.tasks, task, Accepted, Some(Seconds(s.nowMs))),
                 timers := TransferTimers(s.timers, s.nowMs, task, c)), n)
  {
    var tasks := Record(s.tasks, task, Accepted, Some(Seconds(s.nowMs)));
    var timers := TransferTimers(s.timers, s.nowMs, task, c);
    forall other ensures PastPair(PairAt(timers, other, n), s.nowMs) {
      TransferPair(s.timers, s.nowMs, task, c, n, other);
    }
    if task in s.timers.auto { assert PairOk(s.timers, task); }
    forall other | other in tasks ensures RowCovered(tasks[other], PairAt(timers, other, n)) {
      TransferPair(s.timers, s.nowMs, task, c, n, other);
      assert PastPair(PairAt(s.timers, other, n), s.nowMs);
    }
  }

  /** A row whose stamp is the old one, and that has not come back from its end. */
  ghost predicate SameStamp(before: Tasks, after: Tasks, task: string) {
    task in after ==>
      && (after[task].status.Accepted? || after[task].status.Executing? || after[task].status.Completed?)
      && (if task in before then
            after[task].acceptedAtS == before[task].acceptedAtS
            && (Terminal(before[task].status) ==> Terminal(after[task].status))
          else after[task].acceptedAtS.None?)
  }

  ghost predicate SamePair(s: State, s': State, n: int, task: string) {
    || PairAt(s'.timers, task, n) == PairAt(s.timers, task, n)
    || (PairAt(s'.timers, task, n) == None && Ended(s', task))
  }

  /** A step that neither stamps nor schedules keeps every row in order. */
  lemma CoverCarries(s: State, s': State, n: int)
    requires Covered(s, n) && s'.nowMs == s.nowMs
    requires forall task :: SamePair(s, s', n, task) && SameStamp(s.tasks, s'.tasks, task)
    ensures Covered(s', n)
  {
    forall task ensures PastPair(PairAt(s'.timers, task, n), s'.nowMs) {
      assert PastPair(PairAt(s.timers, task, n), s.nowMs) && SamePair(s, s', n, task);
    }
    forall task | task in s'.tasks ensures RowCovered(s'.tasks[task], PairAt(s'.timers, task, n)) {
      assert SamePair(s, s', n, task) && SameStamp(s.tasks, s'.tasks, task);
    }
  }

  lemma RecordedStamp(s: State, n: int, task: string, status: Status, other: string)
    requires Covered(s, n) && (status.Executing? || status.Completed?)
    ensures SameStamp(s.tasks, Record(s.tasks, task, status, None), other)
  {
  }

  lemma ReturnCovered(s: State, task: string, digest: string, c: Config, n: int)
    requires Covered(s, n) && Consistent(s.timers)
    ensures Covered(Next(s, ReturnOp(Some(task), digest), c), n)
  {
    var cleared, s' := CancelDeadline(s.timers, task), Next(s, ReturnOp(Some(task), digest), c);
    CancelDeadlineKeeps(s.timers, task);
    forall other ensures SamePair(s, s', n, other) && SameStamp(s.tasks, s'.tasks, other) {
      ClearedPair(s.timers, task, n, other);
      CancelledPair(cleared, task, n, other);
      RecordedStamp(s, n, task, Completed, other);
      assert other in s.tasks ==> RowCovered(s.tasks[other], PairAt(s.timers, other, n));
    }
    CoverCarries(s, s', n);
  }

  lemma FireCovered(s: State, h: nat, c: Config, n: int)
    requires Covered(s, n) && Consistent(s.timers) && Enabled(s, Fire(h), c)
    ensures Covered(Next(s, Fire(h), c), n)
  {
    var s' := Next(s, Fire(h), c);
    var task := s.timers.live[h].task;
    forall other ensures SamePair(s, s', n, other) && SameStamp(s.tasks, s'.tasks, other) {
      RetiredPair(s.timers, h, n, other);
      RecordedStamp(s, n, task, Executing, other);
      RecordedStamp(s, n, task, Completed, other);
      assert other in s.tasks ==> RowCovered(s.tasks[other], PairAt(s.timers, other, n));
    }
    CoverCarries(s, s', n);
  }

  // ---------------------------------------------------------------- never read as timed out

  ghost predicate NeverTimedOut(c: Config) {
    forall ops, task :: Legal(ops, c) ==> StatusAfter(ops, c, task) != StatusIs(TimedOut)
  }

  /** The reply to a status request after the run. */
  function StatusAfter(ops: seq<Op>, c: Config, task: string): Response {
    Answer(Run(ops, c), StatusOp(Some(task)), c)
  }

  /** With the execute hook at N and a loop late by at most L, no legal run ever reads a task as timed
      out when 2000 N + L <= 1000 D, however often transfers are replayed and restamp the task. */
  lemma NoTimeout(ops: seq<Op>, c: Config, n: int, task: string)
    requires Legal(ops, c) && c.autoN == Some(n) && n > 0
    requires 2000 * n + c.lateness <= 1000 * c.deadlineS
    ensures StatusAfter(ops, c, task) != StatusIs(TimedOut)
  {
    RunCovered(ops, c, n);
    RunOnTime(ops, c);
    var s := Run(ops, c);
    if task in s.tasks {
      var pair := PairAt(s.timers, task, n);
      assert RowCovered(s.tasks[task], pair);
      if pair.Some? {
        var h := s.timers.auto[task].complete;
        assert s.nowMs <= s.timers.live[h].due + c.lateness;
      }
    }
  }

  const DIGEST := "sha256:" + Zeros(64)

  lemma DigestWellFormed()
    ensures WellFormedDigest(DIGEST)
  {
  }

  const OFFER := OfferOp(Some("t"), true, DIGEST, DIGEST, Matches)
  const TRANSFER := TransferOp(Some("t"), true, true, DIGEST, DIGEST)

  function ExecuteDue(n: int): int { 999 + 1000 * n }

  function CompleteDue(n: int): int { 999 + 2000 * n }

  function DeadlineDue(c: Config): int { 999 + 1000 * c.deadlineS }

  function LateTimers(c: Config, n: int): map<nat, Timer> {
    var pair := map[0 := Timer(ExecuteDue(n), "t", Execute), 1 := Timer(CompleteDue(n), "t", Complete)];
    if c.hook then pair[2 := Timer(DeadlineDue(c), "t", Deadline(DestinationFor("t")))] else pair
  }

  /** The task `t`, accepted in second 0, has not ended. */
  ghost predicate Open(s: State) {
    "t" in s.tasks && s.tasks["t"].acceptedAtS == Some(0) && !Terminal(s.tasks["t"].status)
  }

  /** One task, offered and transferred in the last millisecond of a second. */
  lemma TransferredLate(c: Config, n: int) returns (ops: seq<Op>)
    requires c.autoN == Some(n) && n > 0 && c.retentionS >= 0
    ensures Legal(ops, c)
    ensures
      var s := Run(ops, c);
      Open(s) && s.nowMs == 999 && s.timers.live == LateTimers(c, n)
  {
    DigestWellFormed();
    RunSnoc([], Tick(999), c);
    RunSnoc([] + [Tick(999)], OFFER, c);
    RunSnoc([] + [Tick(999)] + [OFFER], TRANSFER, c);
    ops := [] + [Tick(999)] + [OFFER] + [TRANSFER];
  }

  /** Time passes to when a timer is due that is the earliest and ends nothing, and it fires. */
  lemma FireWhenDue(ops: seq<Op>, c: Config, h: nat) returns (more: seq<Op>)
    requires Legal(ops, c) && Open(Run(ops, c)) && h in Run(ops, c).timers.live
    requires
      var live := Run(ops, c).timers.live;
      && !live[h].kind.Complete? && Run(ops, c).nowMs <= live[h].due
      && forall k :: k in live ==> live[h].due <= live[k].due
    ensures Legal(more, c) && Open(Run(more, c))
    ensures Run(more, c).nowMs == Run(ops, c).timers.live[h].due
    ensures Run(more, c).timers.live == Run(ops, c).timers.live - {h}
  {
    var due := Tick(Run(ops, c).timers.live[h].due);
    RunSnoc(ops, due, c);
    RunSnoc(ops + [due], Fire(h), c);
    more := ops + [due] + [Fire(h)];
  }

  /** If the margin is missing, some legal run does read a task as timed out, with a deadline callback
      or without one. */
  lemma TimeoutReached(c: Config, n: int) returns (ops: seq<Op>)
    requires c.autoN == Some(n) && n > 0 && c.retentionS >= 0 && c.deadlineS >= 0
    requires 2000 * n + c.lateness > 1000 * c.deadlineS
    ensures Legal(ops, c) && StatusAfter(ops, c, "t") == StatusIs(TimedOut)
  {
    ops := TransferredLate(c, n);
    if ExecuteDue(n) <= DeadlineDue(c) { ops := FireWhenDue(ops, c, 0); }
    if c.hook && c.lateness == 0 { ops := FireWhenDue(ops, c, 2); }
    ops := PastDeadline(ops, c);
  }

  lemma PastDeadline(ops: seq<Op>, c: Config) returns (more: seq<Op>)
    requires Legal(ops, c) && Open(Run(ops, c)) && Run(ops, c).nowMs <= DeadlineDue(c)
    requires
      var live := Run(ops, c).timers.live;
      forall h :: h in live ==> DeadlineDue(c) + 1 <= live[h].due + c.lateness
    ensures Legal(more, c) && StatusAfter(more, c, "t") == StatusIs(TimedOut)
  {
    var end := Tick(DeadlineDue(c) + 1);
    RunSnoc(ops, end, c);
    more := ops + [end];
  }

  /** Exactly when the service can never read a task as timed out. */
  lemma NeverTimedOutIff(c: Config, n: int)
    requires c.autoN == Some(n) && n > 0 && c.retentionS >= 0 && c.deadlineS >= 0
    ensures NeverTimedOut(c) <==> 2000 * n + c.lateness <= 1000 * c.deadlineS
  {
    if 2000 * n + c.lateness <= 1000 * c.deadlineS {
      forall ops, task | Legal(ops, c) ensures StatusAfter(ops, c, task) != StatusIs(TimedOut) {
        NoTimeout(ops, c, n, task);
      }
    } else {
      var ops := TimeoutReached(c, n);
    }
  }

  // ---------------------------------------------------------------- the startup guard

  /** `SOA_A2A_TASK_DEADLINE_S` after `parseInt`. */
  datatype Env = Unset | NotANumber | Parsed(n: int)

  /** What the service uses: a positive integer, or else 300. */
  function ResolveDeadline(env: Env): int {
    if env.Parsed? && env.n > 0 then env.n else 300
  }

  /** What the guard on the hook compares: a comparison with NaN is false, so NaN passes. */
  predicate StartupPasses(n: int, env: Env) {
    && n > 0
    && match env
       case Unset => 2 * n < 300
       case NotANumber => true
       case Parsed(d) => 2 * n < d
  }

  /** The guard keeps its promise exactly when the deadline is not an unreadable text, or N is small
      enough for the default. */
  lemma GuardMeans(n: int, env: Env)
    requires StartupPasses(n, env)
    ensures ResolveDeadline(env) == (if env.Parsed? then env.n else 300)
    ensures 2 * n < ResolveDeadline(env) <==> !(env.NotANumber? && n >= 150)
  {
  }

  /** A service that starts and does read a task as timed out: N = 200 beside an unreadable deadline,
      even on a loop that is never late. */
  lemma GuardFails(c: Config) returns (ops: seq<Op>)
    requires c.autoN == Some(200) && c.deadlineS == ResolveDeadline(NotANumber) && c.retentionS >= 0
    ensures StartupPasses(200, NotANumber)
    ensures Legal(ops, c) && StatusAfter(ops, c, "t") == StatusIs(TimedOut)
  {
    ops := TimeoutReached(c, 200);
  }

  /** A service that starts, on a loop late by a second at most, never reads a task as timed out,
      unless its deadline setting is unreadable and N too large for the default deadline. */
  lemma StartedNeverTimesOut(c: Config, n: int, env: Env)
    requires StartupPasses(n, env) && c.autoN == Some(n) && c.deadlineS == ResolveDeadline(env)
    requires c.retentionS >= 0 && c.lateness <= 1000
    ensures NeverTimedOut(c) <==> !(env.NotANumber? && 2000 * n + c.lateness > 300000)
  {
    GuardMeans(n, env);
    NeverTimedOutIff(c, n);
  }

  // ---------------------------------------------------------------- accepted tasks end

  ghost predicate EndingBy(s: State, task: string, n: int, at: int) {
    Ended(s, task) || (PairAt(s.timers, task, n).Some? && PairAt(s.timers, task, n).value <= at)
  }

  lemma StepEnding(s: State, op: Op, c: Config, n: int, task: string, at: int)
    requires EndingBy(s, task, n, at) && Consistent(s.timers) && c.autoN == Some(n) && n > 0
    ensures EndingBy(Next(s, op, c), task, n, at)
  {
    if Ended(s, task) {
      StepKeepsEnded(s, op, c, task);
    } else {
      match op
      case TransferOp(t, _, _, _, _) => TransferPair(s.timers, s.nowMs, t.GetOr(""), c, n, task);
      case ReturnOp(t, _) =>
        if t.Some? {
          CancelDeadlineKeeps(s.timers, t.value);
          ClearedPair(s.timers, t.value, n, task);
          CancelledPair(CancelDeadline(s.timers, t.value), t.value, n, task);
        }
      case Fire(h) => if h in s.timers.live { RetiredPair(s.timers, h, n, task); }
      case _ =>
    }
  }

  lemma {:induction false} RunEnding(ops: seq<Op>, more: seq<Op>, c: Config, n: int, task: string, at: int)
    requires Legal(ops + more, c) && c.autoN == Some(n) && n > 0
    requires EndingBy(Run(ops, c), task, n, at)
    ensures EndingBy(Run(ops + more, c), task, n, at)
  {
    if more == [] {
      assert ops + more == ops;
    } else {
      var init := more[..|more| - 1];
      assert ops + more == (ops + init) + [more[|more| - 1]];
      RunSnoc(ops + init, more[|more| - 1], c);
      RunEnding(ops, init, c, n, task, at);
      TimersConsistent(ops + init, c);
      StepEnding(Run(ops + init, c), more[|more| - 1], c, n, task, at);
    }
  }

  /** With the hook on, an accepted task has ended once 2N seconds and the lateness have passed since
      the transfer, whatever else is requested in between. */
  lemma AcceptedTaskEnds(ops: seq<Op>, transfer: Op, more: seq<Op>, c: Config, n: int, task: string)
    requires c.autoN == Some(n) && n > 0 && c.deadlineS >= 0
    requires transfer.TransferOp? && transfer.task == Some(task) && Answer(Run(ops, c), transfer, c).Transferred?
    requires Legal(ops + [transfer] + more, c)
    requires Run(ops + [transfer] + more, c).nowMs > Run(ops, c).nowMs + 2000 * n + c.lateness
    ensures Ended(Run(ops + [transfer] + more, c), task)
  {
    var s, at := Run(ops, c), Run(ops, c).nowMs;
    LegalPrefix(ops + [transfer], more, c);
    RunSnoc(ops, transfer, c);
    RunCovered(ops, c, n);
    TimersConsistent(ops, c);
    TransferPair(s.timers, at, task, c, n, task);
    assert PastPair(PairAt(s.timers, task, n), at);
    if task in s.timers.auto { assert PairOk(s.timers, task); }
    RunEnding(ops + [transfer], more, c, n, task, at);
    RunOnTime(ops + [transfer] + more, c);
    PairOnTime(Run(ops + [transfer] + more, c), c, n, task);
  }

  lemma PairOnTime(s: State, c: Config, n: int, task: string)
    requires OnTime(s, c)
    ensures PairAt(s.timers, task, n).Some? ==> s.nowMs <= PairAt(s.timers, task, n).value + 2000 * n + c.lateness
  {
  }

  lemma {:induction false} LegalPrefix(ops: seq<Op>, more: seq<Op>, c: Config)
    requires Legal(ops + more, c)
    ensures Legal(ops, c)
  {
    if more == [] {
      assert ops + more == ops;
    } else {
      assert (ops + more)[..|ops + more| - 1] == ops + more[..|more| - 1];
      LegalPrefix(ops, more[..|more| - 1], c);
    }
  }

  // ---------------------------------------------------------------- exactly when the callback speaks up

  /** When the deadline timer pending for a task is due. */
  function DueAt(t: Timers, task: string): Option<int> {
    if task in t.deadline && t.deadline[task] in t.live then Some(t.live[t.deadline[task]].due) else None
  }

  lemma ScheduledDue(t: Timers, now: int, task: string, n: int, other: string)
    requires Consistent(t)
    ensures DueAt(ScheduleAuto(t, now, task, n), other) == DueAt(t, other)
  {
  }

  lemma ClearedDue(t: Timers, task: string, other: string)
    requires Consistent(t)
    ensures DueAt(CancelDeadline(t, task), other) == if other == task then None else DueAt(t, other)
  {
  }

  lemma ArmedDue(t: Timers, now: int, task: string, destination: string, deadlineS: int, other: string)
    requires Consistent(t)
    ensures DueAt(ArmDeadline(t, now, task, destination, deadlineS), other) ==
            if other == task then Some(now + deadlineS * 1000) else DueAt(t, other)
  {
  }

  lemma CancelledDue(t: Timers, task: string, other: string)
    requires Consistent(t)
    ensures DueAt(CancelAuto(t, task), other) == DueAt(t, other)
  {
  }

  lemma RetiredDue(t: Timers, h: nat, other: string)
    requires Consistent(t) && h in t.live
    ensures DueAt(Retire(t, h), other) ==
            if t.live[h].kind.Deadline? && other == t.live[h].task then None else DueAt(t, other)
  {
  }

  lemma TransferDue(t: Timers, now: int, task: string, c: Config, other: string)
    requires Consistent(t)
    ensures DueAt(TransferTimers(t, now, task, c), other) ==
            if c.hook && other == task then Some(now + c.deadlineS * 1000) else DueAt(t, other)
  {
    var scheduled := t;
    if c.autoN.Some? && c.autoN.value > 0 {
      ScheduleKeeps(t, now, task, c.autoN.value);
      ScheduledDue(t, now, task, c.autoN.value, other);
      scheduled := ScheduleAuto(t, now, task, c.autoN.value);
    }
    ArmedDue(scheduled, now, task, DestinationFor(task), c.deadlineS, other);
  }

  /** The deadline pending for a task that has not ended was armed when the task was last stamped. */
  ghost predicate Stamped(s: State, c: Config, task: string) {
    DueAt(s.timers, task).Some? ==>
      && c.hook && task in s.tasks
      && (!Terminal(s.tasks[task].status) ==>
            s.tasks[task].acceptedAtS == Some(Seconds(DueAt(s.timers, task).value - c.deadlineS * 1000)))
  }

  lemma StepStamped(s: State, op: Op, c: Config, task: string)
    requires Consistent(s.timers) && Stamped(s, c, task)
    ensures Stamped(Next(s, op, c), c, task)
  {
    match op
    case TransferOp(t, _, _, _, _) => TransferDue(s.timers, s.nowMs, t.GetOr(""), c, task);
    case ReturnOp(t, digest) => if t.Some? { ReturnStamped(s, t.value, digest, c, task); }
    case Fire(h) => if h in s.timers.live { RetiredDue(s.timers, h, task); }
    case _ =>
  }

  lemma ReturnStamped(s: State, t: string, digest: string, c: Config, task: string)
    requires Consistent(s.timers) && Stamped(s, c, task)
    ensures Stamped(Next(s, ReturnOp(Some(t), digest), c), c, task)
  {
    CancelDeadlineKeeps(s.timers, t);
    ClearedDue(s.timers, t, task);
    CancelledDue(CancelDeadline(s.timers, t), t, task);
  }

  lemma {:induction false} RunStamped(ops: seq<Op>, c: Config, task: string)
    requires Legal(ops, c)
    ensures Stamped(Run(ops, c), c, task)
  {
    if ops == [] {
    } else {
      var init, op := ops[..|ops| - 1], ops[|ops| - 1];
      RunStamped(init, c, task);
      TimersConsistent(init, c);
      StepStamped(Run(init, c), op, c, task);
    }
  }

  /** Every deadline timer carries the destination of its task. */
  ghost predicate Addressed(t: Timers) {
    forall h :: h in t.live && t.live[h].kind.Deadline? ==>
                  t.live[h].kind.destination == DestinationFor(t.live[h].task)
  }

  lemma {:induction false} RunAddressed(ops: seq<Op>, c: Config)
    ensures Addressed(Run(ops, c).timers)
  {
    if ops == [] {
    } else {
      RunAddressed(ops[..|ops| - 1], c);
      StepAddressed(Run(ops[..|ops| - 1], c), ops[|ops| - 1], c);
    }
  }

  lemma StepAddressed(s: State, op: Op, c: Config)
    requires Addressed(s.timers)
    ensures Addressed(Next(s, op, c).timers)
  {
  }

  /** The only step that calls the deadline callback is the firing of a deadline timer whose task has not
      ended and that is not late into another clock second: a timer even one millisecond late that crosses
      into the next second finds the task already reading as timed out, and the callback is skipped. It is
      called with the task and its destination. */
  lemma DeadlineEmitsIff(ops: seq<Op>, op: Op, c: Config)
    requires Legal(ops, c) && Enabled(Run(ops, c), op, c)
    ensures
      var s := Run(ops, c);
      Next(s, op, c).emitted == s.emitted +
      if !op.Fire? || !s.timers.live[op.handle].kind.Deadline? then []
      else
        var timer := s.timers.live[op.handle];
        if Ended(s, timer.task) || s.nowMs / 1000 != timer.due / 1000 then []
        else [Emission(timer.task, DestinationFor(timer.task))]
  {
    TimersConsistent(ops, c);
    RunAddressed(ops, c);
    var s := Run(ops, c);
    if op.Fire? {
      assert Listed(s.timers, op.handle);
      RunStamped(ops, c, s.timers.live[op.handle].task);
    }
  }

  /** Such a run: a task that never ends, transferred in the last millisecond of a second, whose
      deadline timer fires one millisecond late. The callback stays silent. */
  lemma LateCallbackSilent(c: Config) returns (ops: seq<Op>)
    requires c.hook && c.autoN.None? && c.retentionS >= 0 && c.deadlineS >= 0 && c.lateness >= 1
    ensures Legal(ops, c) && Enabled(Run(ops, c), Fire(0), c)
    ensures
      var s := Run(ops, c);
      && Open(s) && s.timers.live[0] == Timer(DeadlineDue(c), "t", Deadline(DestinationFor("t")))
      && s.nowMs == DeadlineDue(c) + 1
      && Next(s, Fire(0), c).emitted == s.emitted == []
  {
    DigestWellFormed();
    var late := Tick(DeadlineDue(c) + 1);
    RunSnoc([], Tick(999), c);
    RunSnoc([] + [Tick(999)], OFFER, c);
    RunSnoc([] + [Tick(999)] + [OFFER], TRANSFER, c);
    RunSnoc([] + [Tick(999)] + [OFFER] + [TRANSFER], late, c);
    ops := [] + [Tick(999)] + [OFFER] + [TRANSFER] + [late];
  }
}
