/**
 What the handoff service answers, read off the requests, callbacks and ticks so far instead of the
 registry: which replies an offer, a transfer, a status request and a return get, and what a return
 leaves pending.
 */
module HandoffStatus {
  import opened Wrappers
  import opened Handoff
  import opened HandoffLaws

  // ---------------------------------------------------------------- digests and destinations

  /** "sha256:" and 64 lower-case hex digits. */
  ghost predicate Sha256Text(d: string) {
    exists hex :: |hex| == 64 && d == "sha256:" + hex && forall c :: c in hex ==> c in "0123456789abcdef"
  }

  lemma HexDigits(c: char)
    ensures LowerHex(c) <==> c in "0123456789abcdef"
  {
    var digits := "0123456789abcdef";
    if LowerHex(c) {
      assert c == digits[if c <= '9' then c as int - '0' as int else c as int - 'a' as int + 10];
    }
  }

  lemma DigestMeans(d: string)
    ensures WellFormedDigest(d) <==> Sha256Text(d)
  {
    if WellFormedDigest(d) {
      var hex := d[7..];
      assert d == "sha256:" + hex;
      forall c | c in hex ensures c in "0123456789abcdef" {
        var i :| 0 <= i < 64 && hex[i] == c;
        assert d[i + 7] == c;
        HexDigits(c);
      }
    }
    if Sha256Text(d) {
      var hex :| |hex| == 64 && d == "sha256:" + hex && forall c :: c in hex ==> c in "0123456789abcdef";
      forall i | 7 <= i < 71 ensures LowerHex(d[i]) {
        assert d[i] == hex[i - 7] && hex[i - 7] in hex;
        HexDigits(d[i]);
      }
    }
  }

  /** "ses_", then the first sixteen characters of the task id, with zeros for those it lacks. */
  lemma DestinationMeans(task: string)
    ensures |DestinationFor(task)| == 20 && DestinationFor(task)[..4] == "ses_"
    ensures forall i :: 0 <= i < 16 ==> DestinationFor(task)[4 + i] == if i < |task| then task[i] else '0'
  {
  }

  // ---------------------------------------------------------------- offers, transfers and returns

  /** Each reply to an offer, and the one condition it has. */
  lemma OfferAnswers(s: State, op: Op, c: Config)
    requires op.OfferOp?
    ensures
      var shaped := op.task.Some? && op.summaryOk;
      var digests := Sha256Text(op.messagesDigest) && Sha256Text(op.workflowDigest);
      var r := Answer(s, op, c);
      && (r == Offered(true) <==> shaped && digests && op.matched == Matches)
      && (r == Offered(false) <==> shaped && digests && op.matched == NoneAdvertised)
      && (r == CapabilityMismatch <==> shaped && digests && op.matched == MissingCapabilities)
      && (r == HandoffRejected(DigestMismatch) <==> shaped && !digests)
      && (r == HandoffRejected(WireIncompatibility) <==> !shaped || (digests && op.matched == Malformed))
  {
    DigestMeans(op.messagesDigest);
    DigestMeans(op.workflowDigest);
  }

  /** Each reply to a transfer, by the latest acceptable offer for its task. */
  lemma TransferAnswers(ops: seq<Op>, op: Op, c: Config)
    requires op.TransferOp?
    ensures
      var shaped := op.task.Some? && op.shapeOk && op.tagsOk;
      var offer := LatestOffer(ops, op.task.GetOr(""));
      var live := offer.Some? && NowAfter(ops) / 1000 - offer.value.offeredAtS <= c.retentionS;
      var named := live && op.messagesDigest == offer.value.messagesDigest
                   && op.workflowDigest == offer.value.workflowDigest;
      var r := Answer(Run(ops, c), op, c);
      && (r == HandoffRejected(WireIncompatibility) <==> !shaped)
      && (r == HandoffRejected(WorkflowStateIncompatible) <==> shaped && !live)
      && (r == HandoffRejected(DigestMismatch) <==> shaped && live && !named)
      && (r == Transferred(DestinationFor(op.task.GetOr(""))) <==> shaped && named)
  {
    OffersKept(ops, c, op.task.GetOr(""));
  }

  /** A return is acknowledged exactly if it names a task and a digest. Either way no deadline timer of
      the task is left pending, and after an acknowledged one no timer at all; the other tasks' stay. */
  lemma ReturnAnswers(ops: seq<Op>, op: Op, c: Config, task: string)
    requires Legal(ops, c) && op.ReturnOp? && op.task == Some(task)
    ensures Answer(Run(ops, c), op, c) ==
            if Sha256Text(op.resultDigest) then Ack else HandoffRejected(DigestMismatch)
    ensures
      var before, after := Run(ops, c).timers.live, Next(Run(ops, c), op, c).timers.live;
      && (forall h :: h in after ==> h in before && after[h] == before[h])
      && (forall h :: h in before ==>
            (h in after <==>
             before[h].task != task || !(before[h].kind.Deadline? || Sha256Text(op.resultDigest))))
  {
    DigestMeans(op.resultDigest);
    TimersConsistent(ops, c);
    var t := Run(ops, c).timers;
    DeadlineCleared(t, task);
    if WellFormedDigest(op.resultDigest) {
      CancelDeadlineKeeps(t, task);
      PairCleared(CancelDeadline(t, task), task);
    }
  }

  lemma DeadlineCleared(t: Timers, task: string)
    requires Consistent(t)
    ensures
      var after := CancelDeadline(t, task).live;
      && (forall h :: h in after ==> h in t.live && after[h] == t.live[h])
      && (forall h :: h in t.live ==> (h in after <==> t.live[h].task != task || !t.live[h].kind.Deadline?))
  {
    if task in t.deadline { assert DeadlineOk(t, task); }
    forall h | h in t.live ensures Listed(t, h) {}
  }

  lemma PairCleared(t: Timers, task: string)
    requires Consistent(t) && task !in t.deadline
    ensures
      var after := CancelAuto(t, task).live;
      && (forall h :: h in after ==> h in t.live && after[h] == t.live[h])
      && (forall h :: h in t.live ==> (h in after <==> t.live[h].task != task))
  {
    if task in t.auto { assert PairOk(t, task); }
    forall h | h in t.live ensures Listed(t, h) {}
  }

  // ---------------------------------------------------------------- the status of a task

  /** A transfer of the task that is accepted after these operations. */
  predicate Transfers(ops: seq<Op>, op: Op, c: Config, task: string) {
    var offer := LatestOffer(ops, task);
    && op.TransferOp? && op.task == Some(task) && op.shapeOk && op.tagsOk
    && offer.Some? && op.messagesDigest == offer.value.messagesDigest
    && op.workflowDigest == offer.value.workflowDigest
    && NowAfter(ops) / 1000 - offer.value.offeredAtS <= c.retentionS
  }

  /** The task's pending timer of this kind fires after these operations. */
  predicate Fires(ops: seq<Op>, op: Op, c: Config, task: string, kind: Kind) {
    && op.Fire? && op.handle in Run(ops, c).timers.live
    && Run(ops, c).timers.live[op.handle].task == task && Run(ops, c).timers.live[op.handle].kind == kind
  }

  predicate Returned(op: Op, task: string) {
    op.ReturnOp? && op.task == Some(task) && WellFormedDigest(op.resultDigest)
  }

  /** The service has heard of the task: an acceptable offer, or an acknowledged return. */
  predicate Known(ops: seq<Op>, task: string) {
    exists i :: 0 <= i < |ops| && ((AcceptableOffer(ops[i]) && ops[i].task == Some(task)) || Returned(ops[i], task))
  }

  /** It has ended: an acknowledged return, or its completion timer fired. */
  predicate Finished(ops: seq<Op>, c: Config, task: string) {
    exists i :: 0 <= i < |ops| && (Returned(ops[i], task) || Fires(ops[..i], ops[i], c, task, Complete))
  }

  /** The second of the last accepted transfer. */
  function StampedAt(ops: seq<Op>, c: Config, task: string): Option<int> {
    if ops == [] then None
    else
      var init := ops[..|ops| - 1];
      if Transfers(init, ops[|ops| - 1], c, task) then Some(NowAfter(init) / 1000) else StampedAt(init, c, task)
  }

  /** Its execute timer fired, and no transfer was accepted since. */
  predicate Began(ops: seq<Op>, c: Config, task: string) {
    ops != [] &&
    var init, op := ops[..|ops| - 1], ops[|ops| - 1];
    !Transfers(init, op, c, task) && (Fires(init, op, c, task, Execute) || Began(init, c, task))
  }

  /** The registry row of a task, as the operations tell it. */
  ghost predicate RowTells(s: State, ops: seq<Op>, c: Config, task: string) {
    && (task in s.tasks <==> Known(ops, task))
    && (!Known(ops, task) ==> !Finished(ops, c, task) && !Began(ops, c, task) && StampedAt(ops, c, task) == None)
    && (task in s.tasks && Finished(ops, c, task) ==> s.tasks[task].status == Completed)
    && (task in s.tasks && !Finished(ops, c, task) ==>
          && s.tasks[task].status == (if Began(ops, c, task) then Executing else Accepted)
          && s.tasks[task].acceptedAtS == StampedAt(ops, c, task))
  }

  /** Timers are pending for known tasks only. */
  ghost predicate TimersKnown(s: State) {
    forall h :: h in s.timers.live ==> s.timers.live[h].task in s.tasks
  }

  lemma {:induction false} RunTimersKnown(ops: seq<Op>, c: Config)
    ensures TimersKnown(Run(ops, c))
  {
    if ops == [] {
    } else {
      RunTimersKnown(ops[..|ops| - 1], c);
      StepTimersKnown(Run(ops[..|ops| - 1], c), ops[|ops| - 1], c);
    }
  }

  lemma StepTimersKnown(s: State, op: Op, c: Config)
    requires TimersKnown(s)
    ensures TimersKnown(Next(s, op, c))
  {
  }

  lemma OneMoreOp(ops: seq<Op>, c: Config, task: string)
    requires ops != []
    ensures
      var init, op := ops[..|ops| - 1], ops[|ops| - 1];
      && (Known(ops, task) <==>
          Known(init, task) || (AcceptableOffer(op) && op.task == Some(task)) || Returned(op, task))
      && (Finished(ops, c, task) <==>
          Finished(init, c, task) || Returned(op, task) || Fires(init, op, c, task, Complete))
  {
    var init := ops[..|ops| - 1];
    forall i | 0 <= i < |init| ensures init[i] == ops[i] && init[..i] == ops[..i] {}
  }

  lemma {:induction false} RunTells(ops: seq<Op>, c: Config, task: string)
    ensures RowTells(Run(ops, c), ops, c, task)
  {
    if ops == [] {
    } else {
      var init, op := ops[..|ops| - 1], ops[|ops| - 1];
      RunTells(init, c, task);
      RunTimersKnown(init, c);
      OffersKept(init, c, task);
      OneMoreOp(ops, c, task);
      StepTells(init, op, c, task);
    }
  }

  /** One operation's effect on the row. */
  lemma StepTells(ops: seq<Op>, op: Op, c: Config, task: string)
    requires TimersKnown(Run(ops, c))
    requires Run(ops, c).nowMs == NowAfter(ops) && OfferOf(Run(ops, c), task) == LatestOffer(ops, task)
    ensures
      var s := Run(ops, c);
      var s' := Next(s, op, c);
      && (task in s'.tasks <==> task in s.tasks || (AcceptableOffer(op) && op.task == Some(task)) || Returned(op, task))
      && (task in s'.tasks ==>
            if task !in s.tasks then
              s'.tasks[task].status == (if Returned(op, task) then Completed else Accepted)
              && s'.tasks[task].acceptedAtS == None
            else if Terminal(s.tasks[task].status) then s'.tasks[task].status == s.tasks[task].status
            else
              && s'.tasks[task].status ==
                 (if Returned(op, task) || Fires(ops, op, c, task, Complete) then Completed
                  else if Transfers(ops, op, c, task) then Accepted
                  else if Fires(ops, op, c, task, Execute) then Executing
                  else s.tasks[task].status)
              && s'.tasks[task].acceptedAtS ==
                 (if Transfers(ops, op, c, task) then Some(NowAfter(ops) / 1000) else s.tasks[task].acceptedAtS))
  {
  }

  /** The reply to a status request, whatever happened before: an unknown task is an error; a task that
      ended reads as completed, one whose last accepted transfer is more than the deadline ago as timed
      out, one whose execute timer fired since that transfer as executing, and any other as accepted. */
  lemma StatusExact(ops: seq<Op>, c: Config, task: string)
    ensures
      var stamp := StampedAt(ops, c, task);
      var late := stamp.Some? && NowAfter(ops) / 1000 - stamp.value > c.deadlineS;
      Answer(Run(ops, c), StatusOp(Some(task)), c) ==
      if !Known(ops, task) then HandoffStateIncompatible
      else if Finished(ops, c, task) then StatusIs(Completed)
      else if late then StatusIs(TimedOut)
      else if Began(ops, c, task) then StatusIs(Executing)
      else StatusIs(Accepted)
    ensures Answer(Run(ops, c), StatusOp(None), c) == HandoffStateIncompatible
  {
    RunTells(ops, c, task);
    OffersKept(ops, c, task);
  }

  // ---------------------------------------------------------------- what an accepted transfer sets

  ghost predicate Pending(t: Timers, timer: Timer) { exists h :: h in t.live && t.live[h] == timer }

  ghost predicate CompletionPending(t: Timers, task: string) {
    exists h :: h in t.live && t.live[h].task == task && t.live[h].kind == Complete
  }

  /** With an execute hook of N seconds, an accepted transfer sets a timer at N and one at 2N, unless a
      completion of the task is pending already; with a deadline callback it puts one deadline timer, at the
      deadline, in place of the task's old one. Every other timer stays as it was, and nothing else is set. */
  lemma TransferSets(ops: seq<Op>, op: Op, c: Config, task: string)
    requires Legal(ops, c) && Transfers(ops, op, c, task)
    ensures
      var t, t', now := Run(ops, c).timers, Next(Run(ops, c), op, c).timers, NowAfter(ops);
      var n := c.autoN.GetOr(0);
      var scheduled := n > 0 && !CompletionPending(t, task);
      forall timer ::
        Pending(t', timer) <==>
        || (Pending(t, timer) && !(c.hook && timer.task == task && timer.kind.Deadline?))
        || (scheduled && timer == Timer(now + 1000 * n, task, Execute))
        || (scheduled && timer == Timer(now + 2000 * n, task, Complete))
        || (c.hook && timer == Timer(now + 1000 * c.deadlineS, task, Deadline(DestinationFor(task))))
  {
    TimersConsistent(ops, c);
    OffersKept(ops, c, task);
    ListedCompletion(Run(ops, c).timers, task);
    TimersSet(Run(ops, c).timers, NowAfter(ops), task, c);
    assert Next(Run(ops, c), op, c).timers == TransferTimers(Run(ops, c).timers, NowAfter(ops), task, c);
  }

  lemma ListedCompletion(t: Timers, task: string)
    requires Consistent(t)
    ensures CompletionPending(t, task) <==> task in t.auto
  {
    if task in t.auto { assert PairOk(t, task); }
    if CompletionPending(t, task) {
      var h :| h in t.live && t.live[h].task == task && t.live[h].kind == Complete;
      assert Listed(t, h);
    }
  }

  lemma TimersSet(t: Timers, now: int, task: string, c: Config)
    requires Consistent(t)
    ensures
      var n := c.autoN.GetOr(0);
      var scheduled := n > 0 && task !in t.auto;
      forall timer ::
        Pending(TransferTimers(t, now, task, c), timer) <==>
        || (Pending(t, timer) && !(c.hook && timer.task == task && timer.kind.Deadline?))
        || (scheduled && timer == Timer(now + 1000 * n, task, Execute))
        || (scheduled && timer == Timer(now + 2000 * n, task, Complete))
        || (c.hook && timer == Timer(now + 1000 * c.deadlineS, task, Deadline(DestinationFor(task))))
  {
    var n := c.autoN.GetOr(0);
    var scheduled := t;
    if n > 0 {
      ScheduleSets(t, now, task, n);
      ScheduleKeeps(t, now, task, n);
      scheduled := ScheduleAuto(t, now, task, n);
    }
    if c.hook { ArmSets(scheduled, now, task, DestinationFor(task), c.deadlineS); }
  }

  lemma ScheduleSets(t: Timers, now: int, task: string, n: int)
    requires Consistent(t)
    ensures forall timer ::
              Pending(ScheduleAuto(t, now, task, n), timer) <==>
              || Pending(t, timer)
              || (task !in t.auto && timer == Timer(now + 1000 * n, task, Execute))
              || (task !in t.auto && timer == Timer(now + 2000 * n, task, Complete))
  {
    var t' := ScheduleAuto(t, now, task, n);
    if task !in t.auto {
      assert t'.live[t.next] == Timer(now + 1000 * n, task, Execute);
      assert t'.live[t.next + 1] == Timer(now + 2000 * n, task, Complete);
      assert forall h :: h in t.live ==> h in t'.live && t'.live[h] == t.live[h];
    }
  }

  lemma ClearSets(t: Timers, task: string)
    requires Consistent(t)
    ensures forall timer ::
              Pending(CancelDeadline(t, task), timer) <==>
              Pending(t, timer) && !(timer.task == task && timer.kind.Deadline?)
  {
    var t' := CancelDeadline(t, task);
    if task in t.deadline { assert DeadlineOk(t, task); }
    forall h | h in t.live ensures h in t'.live <==> !(t.live[h].task == task && t.live[h].kind.Deadline?) {
      assert Listed(t, h);
    }
    assert forall h :: h in t'.live ==> h in t.live && t'.live[h] == t.live[h];
  }

  lemma ArmSets(t: Timers, now: int, task: string, destination: string, deadlineS: int)
    requires Consistent(t)
    ensures forall timer ::
              Pending(ArmDeadline(t, now, task, destination, deadlineS), timer) <==>
              || (Pending(t, timer) && !(timer.task == task && timer.kind.Deadline?))
              || timer == Timer(now + 1000 * deadlineS, task, Deadline(destination))
  {
    ClearSets(t, task);
    CancelDeadlineKeeps(t, task);
    var cleared, t' := CancelDeadline(t, task), ArmDeadline(t, now, task, destination, deadlineS);
    assert t'.live[cleared.next] == Timer(now + 1000 * deadlineS, task, Deadline(destination));
    assert forall h :: h in cleared.live ==> h in t'.live && t'.live[h] == cleared.live[h];
    assert forall h :: h in t'.live && h != cleared.next ==> h in cleared.live;
  }
}
