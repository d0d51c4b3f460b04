/**
 What every run of the handoff service keeps: ended tasks stay ended, timers and handles match, no
 deadline callback after a return, exactly when a transfer is accepted, exactly when a task can read
 as timed out, and exactly when the deadline callback speaks up.
 */
module HandoffLaws {
  import opened Wrappers
  import opened Handoff

  function Run(ops: seq<Op>, c: Config): State {
    if ops == [] then START else Next(Run(ops[..|ops| - 1], c), ops[|ops| - 1], c)
  }

  /** A timer fires when it is due and none is due before it; time passes only as far as the loop
      may be late with the pending timers. */
  predicate Enabled(s: State, op: Op, c: Config) {
    match op
    case Fire(h) =>
      && h in s.timers.live && s.timers.live[h].due <= s.nowMs
      && forall k :: k in s.timers.live ==> s.timers.live[h].due <= s.timers.live[k].due
    case Tick(to) => s.nowMs <= to && forall k :: k in s.timers.live ==> to <= s.timers.live[k].due + c.lateness
    case _ => true
  }

  predicate Legal(ops: seq<Op>, c: Config) {
    ops == [] || (Legal(ops[..|ops| - 1], c) && Enabled(Run(ops[..|ops| - 1], c), ops[|ops| - 1], c))
  }

  lemma RunSnoc(ops: seq<Op>, op: Op, c: Config)
    ensures Run(ops + [op], c) == Next(Run(ops, c), op, c)
    ensures Legal(ops + [op], c) <==> Legal(ops, c) && Enabled(Run(ops, c), op, c)
  {
  }

  // ---------------------------------------------------------------- ended tasks stay ended

  ghost predicate Ended(s: State, task: string) { task in s.tasks && Terminal(s.tasks[task].status) }

  lemma StepKeepsEnded(s: State, op: Op, c: Config, task: string)
    requires Ended(s, task)
    ensures Ended(Next(s, op, c), task) && Next(s, op, c).tasks[task].status == s.tasks[task].status
  {
  }

  /** Whatever happens next, in any order, a stored terminal status never changes. */
  lemma {:induction false} TerminalIsFinal(ops: seq<Op>, more: seq<Op>, c: Config, task: string)
    requires Ended(Run(ops, c), task)
    ensures Ended(Run(ops + more, c), task)
    ensures Run(ops + more, c).tasks[task].status == Run(ops, c).tasks[task].status
  {
    if more == [] {
      assert ops + more == ops;
    } else {
      var init := more[..|more| - 1];
      TerminalIsFinal(ops, init, c, task);
      assert ops + more == (ops + init) + [more[|more| - 1]];
      RunSnoc(ops + init, more[|more| - 1], c);
      StepKeepsEnded(Run(ops + init, c), more[|more| - 1], c, task);
    }
  }

  function EmittedFor(emitted: seq<Emission>, task: string): seq<Emission> {
    if emitted == [] then []
    else
      var last := emitted[|emitted| - 1];
      EmittedFor(emitted[..|emitted| - 1], task) + (if last.task == task then [last] else [])
  }

  lemma StepEmits(s: State, op: Op, c: Config, task: string)
    requires Ended(s, task)
    ensures EmittedFor(Next(s, op, c).emitted, task) == EmittedFor(s.emitted, task)
  {
    var after := Next(s, op, c).emitted;
    if after != s.emitted {
      assert after[..|after| - 1] == s.emitted;
      assert EmittedFor(s.emitted, task) + [] == EmittedFor(s.emitted, task);
    }
  }

  lemma {:induction false} EndedIsSilent(ops: seq<Op>, more: seq<Op>, c: Config, task: string)
    requires Ended(Run(ops, c), task)
    ensures EmittedFor(Run(ops + more, c).emitted, task) == EmittedFor(Run(ops, c).emitted, task)
  {
    if more == [] {
      assert ops + more == ops;
    } else {
      var init := more[..|more| - 1];
      EndedIsSilent(ops, init, c, task);
      TerminalIsFinal(ops, init, c, task);
      assert ops + more == (ops + init) + [more[|more| - 1]];
      RunSnoc(ops + init, more[|more| - 1], c);
      StepEmits(Run(ops + init, c), more[|more| - 1], c, task);
    }
  }

  /** After an acknowledged return the deadline callback never fires for the task again, even if a
      later transfer is accepted and arms a new timer. */
  lemma NoEmissionAfterReturn(ops: seq<Op>, more: seq<Op>, c: Config, task: string, digest: string)
    requires Answer(Run(ops, c), ReturnOp(Some(task), digest), c) == Ack
    ensures
      var returned := ops + [ReturnOp(Some(task), digest)];
      && Ended(Run(returned + more, c), task)
      && EmittedFor(Run(returned + more, c).emitted, task) == EmittedFor(Run(ops, c).emitted, task)
  {
    var ret := ReturnOp(Some(task), digest);
    RunSnoc(ops, ret, c);
    EndedIsSilent(ops + [ret], more, c, task);
    TerminalIsFinal(ops + [ret], more, c, task);
  }

  // ---------------------------------------------------------------- timers and handles match

  ghost predicate PairOk(t: Timers, task: string)
    requires task in t.auto
  {
    var p := t.auto[task];
    && p.execute < p.complete < t.next
    && p.complete in t.live && t.live[p.complete].task == task && t.live[p.complete].kind.Complete?
    && (p.execute in t.live ==>
          && t.live[p.execute].task == task && t.live[p.execute].kind.Execute?
          && t.live[p.execute].due < t.live[p.complete].due)
  }

  ghost predicate DeadlineOk(t: Timers, task: string)
    requires task in t.deadline
  {
    var h := t.deadline[task];
    h in t.live && t.live[h].task == task && t.live[h].kind.Deadline?
  }

  /** Every pending timer is the one its task's handle names. */
  ghost predicate Listed(t: Timers, h: nat)
    requires h in t.live
  {
    var task := t.live[h].task;
    match t.live[h].kind
    case Execute => task in t.auto && t.auto[task].execute == h
    case Complete => task in t.auto && t.auto[task].complete == h
    case Deadline(_) => task in t.deadline && t.deadline[task] == h
  }

  ghost predicate Consistent(t: Timers) {
    && (forall task :: task in t.auto ==> PairOk(t, task))
    && (forall task :: task in t.deadline ==> DeadlineOk(t, task))
    && (forall h :: h in t.live ==> h < t.next && Listed(t, h))
  }

  /** So each task has at most one pending timer of each kind. */
  lemma OneTimerEach(t: Timers, h: nat, k: nat)
    requires Consistent(t) && h in t.live && k in t.live && t.live[h].task == t.live[k].task
    requires t.live[h].kind == t.live[k].kind || (t.live[h].kind.Deadline? && t.live[k].kind.Deadline?)
    ensures h == k
  {
  }

  lemma ScheduleKeeps(t: Timers, now: int, task: string, n: int)
    requires Consistent(t) && n > 0
    ensures Consistent(ScheduleAuto(t, now, task, n))
  {
    var t' := ScheduleAuto(t, now, task, n);
    if task !in t.auto {
      forall other | other in t'.auto ensures PairOk(t', other) {
        if other != task { assert PairOk(t, other); }
      }
      forall other | other in t'.deadline ensures DeadlineOk(t', other) { assert DeadlineOk(t, other); }
      forall h | h in t'.live ensures h < t'.next && Listed(t', h) {
        if h < t.next { assert Listed(t, h); }
      }
    }
  }

  lemma CancelAutoKeeps(t: Timers, task: string)
    requires Consistent(t)
    ensures Consistent(CancelAuto(t, task))
  {
    if task in t.auto {
      var t' := CancelAuto(t, task);
      assert PairOk(t, task);
      forall other | other in t'.auto ensures PairOk(t', other) { assert PairOk(t, other); }
      forall other | other in t'.deadline ensures DeadlineOk(t', other) { assert DeadlineOk(t, other); }
      forall h | h in t'.live ensures h < t'.next && Listed(t', h) { assert Listed(t, h); }
    }
  }

  lemma CancelDeadlineKeeps(t: Timers, task: string)
    requires Consistent(t)
    ensures Consistent(CancelDeadline(t, task))
  {
  }

  lemma ArmKeeps(t: Timers, now: int, task: string, destination: string, deadlineS: int)
    requires Consistent(t)
    ensures Consistent(ArmDeadline(t, now, task, destination, deadlineS))
  {
    CancelDeadlineKeeps(t, task);
    var cleared, t' := CancelDeadline(t, task), ArmDeadline(t, now, task, destination, deadlineS);
    forall other | other in t'.auto ensures PairOk(t', other) { assert PairOk(cleared, other); }
    forall other | other in t'.deadline ensures DeadlineOk(t', other) {
      if other != task { assert DeadlineOk(cleared, other); }
    }
    forall h | h in t'.live ensures h < t'.next && Listed(t', h) {
      if h in cleared.live { assert Listed(cleared, h); }
    }
  }

  /** Firing in order of due times means an execute timer is gone before its completion fires. */
  lemma RetireKeeps(t: Timers, h: nat)
    requires Consistent(t) && h in t.live
    requires forall k :: k in t.live ==> t.live[h].due <= t.live[k].due
    ensures Consistent(Retire(t, h))
  {
    var t' := Retire(t, h);
    assert Listed(t, h);
    if t.live[h].kind.Complete? { assert PairOk(t, t.live[h].task); }
    forall other | other in t'.auto ensures PairOk(t', other) { assert PairOk(t, other); }
    forall other | other in t'.deadline ensures DeadlineOk(t', other) { assert DeadlineOk(t, other); }
    forall k | k in t'.live ensures k < t'.next && Listed(t', k) { assert Listed(t, k); }
  }

  /** In every run the pending timers and the two handle maps match, so that no task ever has a
      second execute pair or a second deadline timer pending. */
  lemma {:induction false} TimersConsistent(ops: seq<Op>, c: Config)
    requires Legal(ops, c)
    ensures Consistent(Run(ops, c).timers)
  {
    if ops == [] {
    } else {
      var init, op := ops[..|ops| - 1], ops[|ops| - 1];
      TimersConsistent(init, c);
      StepConsistent(Run(init, c), op, c);
    }
  }

  lemma StepConsistent(s: State, op: Op, c: Config)
    requires Consistent(s.timers) && Enabled(s, op, c)
    ensures Consistent(Next(s, op, c).timers)
  {
    match op
    case TransferOp(task, _, _, _, _) =>
      TransferConsistent(s.timers, s.nowMs, task.GetOr(""), c);
    case ReturnOp(task, _) =>
      if task.Some? {
        CancelDeadlineKeeps(s.timers, task.value);
        CancelAutoKeeps(CancelDeadline(s.timers, task.value), task.value);
      }
    case Fire(h) => RetireKeeps(s.timers, h);
    case _ =>
  }

  lemma TransferConsistent(t: Timers, now: int, task: string, c: Config)
    requires Consistent(t)
    ensures Consistent(TransferTimers(t, now, task, c))
  {
    var scheduled := t;
    if c.autoN.Some? && c.autoN.value > 0 {
      ScheduleKeeps(t, now, task, c.autoN.value);
      scheduled := ScheduleAuto(t, now, task, c.autoN.value);
    }
    ArmKeeps(scheduled, now, task, DestinationFor(task), c.deadlineS);
  }

  // ---------------------------------------------------------------- exactly when a transfer is accepted

  function NowAfter(ops: seq<Op>): int {
    if ops == [] then 0
    else if ops[|ops| - 1].Tick? then ops[|ops| - 1].to
    else NowAfter(ops[..|ops| - 1])
  }

  predicate AcceptableOffer(op: Op) {
    && op.OfferOp? && op.summaryOk && op.matched == Matches
    && WellFormedDigest(op.messagesDigest) && WellFormedDigest(op.workflowDigest)
  }

  /** The last acceptable offer made for the task, with the second it came in. */
  function LatestOffer(ops: seq<Op>, task: string): Option<Offer> {
    if ops == [] then None
    else
      var init, op := ops[..|ops| - 1], ops[|ops| - 1];
      if AcceptableOffer(op) && op.task == Some(task) then
        Some(Offer(op.messagesDigest, op.workflowDigest, NowAfter(init) / 1000))
      else LatestOffer(init, task)
  }

  lemma {:induction false} OffersKept(ops: seq<Op>, c: Config, task: string)
    ensures Run(ops, c).nowMs == NowAfter(ops)
    ensures (if task in Run(ops, c).tasks then Run(ops, c).tasks[task].offer else None) == LatestOffer(ops, task)
  {
    if ops == [] {
    } else {
      OffersKept(ops[..|ops| - 1], c, task);
      StepOffer(Run(ops[..|ops| - 1], c), ops[|ops| - 1], c, task);
    }
  }

  function OfferOf(s: State, task: string): Option<Offer> {
    if task in s.tasks then s.tasks[task].offer else None
  }

  lemma StepOffer(s: State, op: Op, c: Config, task: string)
    ensures
      var s' := Next(s, op, c);
      && s'.nowMs == (if op.Tick? then op.to else s.nowMs)
      && OfferOf(s', task) ==
         if AcceptableOffer(op) && op.task == Some(task) then
           Some(Offer(op.messagesDigest, op.workflowDigest, Seconds(s.nowMs)))
         else OfferOf(s, task)
  {
  }
}
