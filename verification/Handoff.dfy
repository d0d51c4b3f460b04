/**
 The A2A handoff service: the task registry, the request handlers and the timers they set.

 The event loop is part of the state: `live` holds the pending timers, `nowMs` the clock that both
 the timers and the handlers read. Capability matching and the recomputed digests of a transfer are
 parameters. One request, timer callback or tick is one step. `last_event_id` is null in every row
 this service writes and is not kept.
 */
module Handoff {
  import opened Wrappers

  datatype Status = Accepted | Executing | Completed | Rejected | Failed | TimedOut

  predicate Terminal(s: Status) { s.Completed? || s.Rejected? || s.Failed? || s.TimedOut? }

  datatype Offer = Offer(messagesDigest: string, workflowDigest: string, offeredAtS: int)

  datatype TaskRow = TaskRow(status: Status, offer: Option<Offer>, acceptedAtS: Option<int>)

  type Tasks = map<string, TaskRow>

  datatype Kind = Execute | Complete | Deadline(destination: string)

  datatype Timer = Timer(due: int, task: string, kind: Kind)

  datatype Pair = Pair(execute: nat, complete: nat)

  /** Pending timers of the event loop, and the plugin's two maps of handles. */
  datatype Timers = Timers(live: map<nat, Timer>, next: nat, auto: map<string, Pair>, deadline: map<string, nat>)

  datatype Emission = Emission(task: string, destination: string)

  datatype State = State(tasks: Tasks, timers: Timers, nowMs: int, emitted: seq<Emission>)

  /** `autoN` is the execute hook's N, `hook` whether a deadline callback is wired up, `lateness` by
      how many milliseconds the event loop may be late with a timer. */
  datatype Config = Config(retentionS: int, deadlineS: int, autoN: Option<int>, hook: bool, lateness: nat)

  const START := State(map[], Timers(map[], 0, map[], map[]), 0, [])

  function Seconds(ms: int): int { ms / 1000 }

  // ---------------------------------------------------------------- the registry

  /** `record`: a stored terminal status stays. */
  function Record(tasks: Tasks, task: string, status: Status, acceptedAtS: Option<int>): Tasks {
    if task !in tasks then tasks[task := TaskRow(status, None, acceptedAtS)]
    else
      var prev := tasks[task];
      if Terminal(prev.status) then tasks
      else tasks[task := TaskRow(status, prev.offer, if acceptedAtS.Some? then acceptedAtS else prev.acceptedAtS)]
  }

  function RecordOffer(tasks: Tasks, task: string, offer: Offer): Tasks {
    if task in tasks then tasks[task := tasks[task].(offer := Some(offer))]
    else tasks[task := TaskRow(Accepted, Some(offer), None)]
  }

  function RetainedOffer(tasks: Tasks, task: string, nowS: int, retentionS: int): Option<Offer> {
    if task !in tasks || tasks[task].offer.None? || nowS - tasks[task].offer.value.offeredAtS > retentionS then None
    else tasks[task].offer
  }

  /** The status a reader sees: a task past its deadline and not stored as ended reads as timed out. */
  function Read(tasks: Tasks, task: string, nowS: int, deadlineS: int): Option<Status> {
    if task !in tasks then None
    else
      var row := tasks[task];
      if row.acceptedAtS.Some? && !Terminal(row.status) && nowS - row.acceptedAtS.value > deadlineS then Some(TimedOut)
      else Some(row.status)
  }

  // ---------------------------------------------------------------- timers

  function Set(t: Timers, timer: Timer): Timers {
    t.(live := t.live[t.next := timer], next := t.next + 1)
  }

  /** `scheduleAutoExecute`: no second pair while one is listed. */
  function ScheduleAuto(t: Timers, now: int, task: string, n: int): Timers {
    if task in t.auto then t
    else
      var both := Set(Set(t, Timer(now + n * 1000, task, Execute)), Timer(now + 2 * n * 1000, task, Complete));
      both.(auto := t.auto[task := Pair(t.next, t.next + 1)])
  }

  function CancelAuto(t: Timers, task: string): Timers {
    if task !in t.auto then t
    else t.(live := t.live - {t.auto[task].execute, t.auto[task].complete}, auto := t.auto - {task})
  }

  function CancelDeadline(t: Timers, task: string): Timers {
    if task !in t.deadline then t
    else t.(live := t.live - {t.deadline[task]}, deadline := t.deadline - {task})
  }

  function ArmDeadline(t: Timers, now: int, task: string, destination: string, deadlineS: int): Timers {
    var cleared := CancelDeadline(t, task);
    var armed := Set(cleared, Timer(now + deadlineS * 1000, task, Deadline(destination)));
    armed.(deadline := armed.deadline[task := cleared.next])
  }

  /** A timer leaves the loop when it fires, and its callback forgets the handles it knows of. */
  function Retire(t: Timers, handle: nat): Timers
    requires handle in t.live
  {
    var timer := t.live[handle];
    var gone := t.(live := t.live - {handle});
    match timer.kind
    case Execute => gone
    case Complete => gone.(auto := gone.auto - {timer.task})
    case Deadline(_) => gone.(deadline := gone.deadline - {timer.task})
  }

  // ---------------------------------------------------------------- requests

  datatype Reason = WireIncompatibility | DigestMismatch | WorkflowStateIncompatible

  datatype Match = Matches | NoneAdvertised | Malformed | MissingCapabilities

  datatype Response =
    | HandoffRejected(reason: Reason)
    | CapabilityMismatch
    | HandoffStateIncompatible
    | Offered(accept: bool)
    | Transferred(destination: string)
    | StatusIs(status: Status)
    | Ack
    | Silent

  /** A request, a timer callback or time passing. An absent or non-string `task_id` is None; the
      digests of a transfer are those recomputed from its messages and workflow. */
  datatype Op =
    | OfferOp(task: Option<string>, summaryOk: bool, messagesDigest: string, workflowDigest: string, matched: Match)
    | TransferOp(task: Option<string>, shapeOk: bool, tagsOk: bool, messagesDigest: string, workflowDigest: string)
    | StatusOp(task: Option<string>)
    | ReturnOp(task: Option<string>, resultDigest: string)
    | Fire(handle: nat)
    | Tick(to: int)

  predicate LowerHex(c: char) { '0' <= c <= '9' || 'a' <= c <= 'f' }

  predicate WellFormedDigest(d: string) {
    |d| == 71 && d[..7] == "sha256:" && forall i :: 7 <= i < 71 ==> LowerHex(d[i])
  }

  function Zeros(n: nat): string { seq(n, _ => '0') }

  function DestinationFor(task: string): string {
    "ses_" + (if |task| >= 16 then task[..16] else task + Zeros(16 - |task|))
  }

  /** The answer to a request. */
  function Answer(s: State, op: Op, c: Config): Response {
    match op
    case OfferOp(task, summaryOk, md, wd, matched) =>
      if task.None? || !summaryOk then HandoffRejected(WireIncompatibility)
      else if !WellFormedDigest(md) || !WellFormedDigest(wd) then HandoffRejected(DigestMismatch)
      else (match matched
            case Matches => Offered(true)
            case NoneAdvertised => Offered(false)
            case Malformed => HandoffRejected(WireIncompatibility)
            case MissingCapabilities => CapabilityMismatch)
    case TransferOp(task, shapeOk, tagsOk, md, wd) =>
      if task.None? || !shapeOk || !tagsOk then HandoffRejected(WireIncompatibility)
      else (match RetainedOffer(s.tasks, task.value, Seconds(s.nowMs), c.retentionS)
            case None => HandoffRejected(WorkflowStateIncompatible)
            case Some(offer) =>
              if md != offer.messagesDigest || wd != offer.workflowDigest then HandoffRejected(DigestMismatch)
              else Transferred(DestinationFor(task.value)))
    case StatusOp(task) =>
      if task.None? then HandoffStateIncompatible
      else (match Read(s.tasks, task.value, Seconds(s.nowMs), c.deadlineS)
            case None => HandoffStateIncompatible
            case Some(status) => StatusIs(status))
    case ReturnOp(task, digest) =>
      if task.None? || !WellFormedDigest(digest) then HandoffRejected(DigestMismatch) else Ack
    case _ => Silent
  }

  /** What an accepted transfer does to the timers. */
  function TransferTimers(t: Timers, now: int, task: string, c: Config): Timers {
    var scheduled := if c.autoN.Some? && c.autoN.value > 0 then ScheduleAuto(t, now, task, c.autoN.value) else t;
    if c.hook then ArmDeadline(scheduled, now, task, DestinationFor(task), c.deadlineS) else scheduled
  }

  /** The tasks after the callback of a timer. */
  function FiredTasks(tasks: Tasks, timer: Timer): Tasks {
    match timer.kind
    case Execute => Record(tasks, timer.task, Executing, None)
    case Complete => Record(tasks, timer.task, Completed, None)
    case Deadline(_) => tasks
  }

  /** The deadline callback speaks up only for a task that does not read as ended. */
  predicate Emits(s: State, timer: Timer, c: Config) {
    var status := Read(s.tasks, timer.task, Seconds(s.nowMs), c.deadlineS);
    timer.kind.Deadline? && status.Some? && !Terminal(status.value)
  }

  function Next(s: State, op: Op, c: Config): State {
    match op
    case OfferOp(task, _, md, wd, _) =>
      if Answer(s, op, c) == Offered(true) then
        s.(tasks := RecordOffer(s.tasks, task.GetOr(""), Offer(md, wd, Seconds(s.nowMs))))
      else s
    case TransferOp(task, _, _, _, _) =>
      if Answer(s, op, c).Transferred? then
        s.(tasks := Record(s.tasks, task.GetOr(""), Accepted, Some(Seconds(s.nowMs))),
           timers := TransferTimers(s.timers, s.nowMs, task.GetOr(""), c))
      else s
    case StatusOp(_) => s
    case ReturnOp(task, digest) =>
      if task.None? then s
      else
        var cleared := CancelDeadline(s.timers, task.value);
        if !WellFormedDigest(digest) then s.(timers := cleared)
        else s.(tasks := Record(s.tasks, task.value, Completed, None), timers := CancelAuto(cleared, task.value))
    case Fire(h) =>
      if h !in s.timers.live then s
      else
        var timer := s.timers.live[h];
        State(FiredTasks(s.tasks, timer), Retire(s.timers, h), s.nowMs,
              if Emits(s, timer, c) then s.emitted + [Emission(timer.task, timer.kind.destination)] else s.emitted)
    case Tick(to) => s.(nowMs := to)
  }

  // ---------------------------------------------------------------- the service as it runs

  class HandoffService {
    const config: Config
    var tasks: Tasks
    var timers: Timers
    var nowMs: int
    var emitted: seq<Emission>

    ghost function Value(): State
      reads this
    {
      State(tasks, timers, nowMs, emitted)
    }

    constructor (c: Config)
      ensures Value() == START && config == c
    {
      config, tasks, timers, nowMs, emitted := c, map[], Timers(map[], 0, map[], map[]), 0, [];
    }

    method RecordStatus(task: string, status: Status, acceptedAtS: Option<int>)
      modifies this`tasks
      ensures tasks == Record(old(tasks), task, status, acceptedAtS)
    {
      var offer, stamp := None, acceptedAtS;
      if task in tasks {
        if Terminal(tasks[task].status) {
          return;
        }
        offer := tasks[task].offer;
        stamp := if acceptedAtS.Some? then acceptedAtS else tasks[task].acceptedAtS;
      }
      tasks := tasks[task := TaskRow(status, offer, stamp)];
    }

    method KeepOffer(task: string, offer: Offer)
      modifies this`tasks
      ensures tasks == RecordOffer(old(tasks), task, offer)
    {
      var status, stamp := Accepted, None;
      if task in tasks {
        status, stamp := tasks[task].status, tasks[task].acceptedAtS;
      }
      tasks := tasks[task := TaskRow(status, Some(offer), stamp)];
    }

    method SetTimeout(timer: Timer) returns (handle: nat)
      modifies this`timers
      ensures timers == Set(old(timers), timer) && handle == old(timers).next
    {
      handle := timers.next;
      timers := timers.(live := timers.live[handle := timer], next := handle + 1);
    }

    method ClearTimeout(handle: nat)
      modifies this`timers
      ensures timers == old(timers).(live := old(timers).live - {handle})
    {
      timers := timers.(live := timers.live - {handle});
    }

    method ScheduleAutoExecute(task: string, n: int)
      modifies this`timers
      ensures timers == ScheduleAuto(old(timers), nowMs, task, n)
    {
      if task in timers.auto {
        return;
      }
      var t1 := SetTimeout(Timer(nowMs + n * 1000, task, Execute));
      var t2 := SetTimeout(Timer(nowMs + 2 * n * 1000, task, Complete));
      timers := timers.(auto := timers.auto[task := Pair(t1, t2)]);
    }

    method CancelAutoExecute(task: string)
      modifies this`timers
      ensures timers == CancelAuto(old(timers), task)
    {
      if task !in timers.auto {
        return;
      }
      var pair := timers.auto[task];
      ClearTimeout(pair.execute);
      ClearTimeout(pair.complete);
      timers := timers.(auto := timers.auto - {task});
      assert timers.live == old(timers).live - {pair.execute, pair.complete};
    }

    method CancelTaskDeadline(task: string)
      modifies this`timers
      ensures timers == CancelDeadline(old(timers), task)
    {
      if task in timers.deadline {
        ClearTimeout(timers.deadline[task]);
        timers := timers.(deadline := timers.deadline - {task});
      }
    }

    method HandleOffer(op: Op) returns (r: Response)
      requires op.OfferOp?
      modifies this`tasks
      ensures r == Answer(old(Value()), op, config) && Value() == Next(old(Value()), op, config)
    {
      if op.task.None? || !op.summaryOk { return HandoffRejected(WireIncompatibility); }
      if !WellFormedDigest(op.messagesDigest) || !WellFormedDigest(op.workflowDigest) {
        return HandoffRejected(DigestMismatch);
      }
      match op.matched
      case Matches =>
        KeepOffer(op.task.value, Offer(op.messagesDigest, op.workflowDigest, Seconds(nowMs)));
        return Offered(true);
      case NoneAdvertised => return Offered(false);
      case Malformed => return HandoffRejected(WireIncompatibility);
      case MissingCapabilities => return CapabilityMismatch;
    }

    /** The handler, and the plugin's arming of the deadline after an accepted transfer. */
    method HandleTransfer(op: Op) returns (r: Response)
      requires op.TransferOp?
      modifies this`tasks, this`timers
      ensures r == Answer(old(Value()), op, config) && Value() == Next(old(Value()), op, config)
    {
      if op.task.None? || !op.shapeOk { return HandoffRejected(WireIncompatibility); }
      if !op.tagsOk { return HandoffRejected(WireIncompatibility); }
      var task := op.task.value;
      var offer := RetainedOffer(tasks, task, Seconds(nowMs), config.retentionS);
      if offer.None? { return HandoffRejected(WorkflowStateIncompatible); }
      if op.messagesDigest != offer.value.messagesDigest || op.workflowDigest != offer.value.workflowDigest {
        return HandoffRejected(DigestMismatch);
      }
      RecordStatus(task, Accepted, Some(Seconds(nowMs)));
      if config.autoN.Some? && config.autoN.value > 0 {
        ScheduleAutoExecute(task, config.autoN.value);
      }
      if config.hook {
        CancelTaskDeadline(task);
        var t := SetTimeout(Timer(nowMs + config.deadlineS * 1000, task, Deadline(DestinationFor(task))));
        timers := timers.(deadline := timers.deadline[task := t]);
      }
      return Transferred(DestinationFor(task));
    }

    method HandleStatus(op: Op) returns (r: Response)
      requires op.StatusOp?
      ensures r == Answer(Value(), op, config)
    {
      if op.task.None? { return HandoffStateIncompatible; }
      var status := Read(tasks, op.task.value, Seconds(nowMs), config.deadlineS);
      if status.None? { return HandoffStateIncompatible; }
      return StatusIs(status.value);
    }

    method HandleReturn(op: Op) returns (r: Response)
      requires op.ReturnOp?
      modifies this`tasks, this`timers
      ensures r == Answer(old(Value()), op, config) && Value() == Next(old(Value()), op, config)
    {
      if op.task.Some? {
        CancelTaskDeadline(op.task.value);
      }
      if op.task.None? || !WellFormedDigest(op.resultDigest) { return HandoffRejected(DigestMismatch); }
      CancelAutoExecute(op.task.value);
      RecordStatus(op.task.value, Completed, None);
      return Ack;
    }

    /** The event loop runs the callback of a pending timer. */
    method FireTimer(handle: nat)
      requires handle in timers.live
      modifies this
      ensures Value() == Next(old(Value()), Fire(handle), config)
    {
      var timer := timers.live[handle];
      timers := timers.(live := timers.live - {handle});
      match timer.kind
      case Execute =>
        RecordStatus(timer.task, Executing, None);
      case Complete =>
        RecordStatus(timer.task, Completed, None);
        timers := timers.(auto := timers.auto - {timer.task});
      case Deadline(destination) =>
        var status := Read(tasks, timer.task, Seconds(nowMs), config.deadlineS);
        if status.Some? && !Terminal(status.value) {
          emitted := emitted + [Emission(timer.task, destination)];
        }
        timers := timers.(deadline := timers.deadline - {timer.task});
    }
  }
}
