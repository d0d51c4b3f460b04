/** What every dispatch and every run of dispatches keeps. */
module DispatchLaws {
  import opened Wrappers
  import opened StreamTypes
  import opened Dispatch
  import Budget
  import Percentile

  // ---------------------------------------------------------------- the retry loop

  /** Attempt n failed in a way the loop retries: it threw, no abort was seen in its handler, the
      error is retryable, as every foreign one is, and the shared budget was not used up. */
  ghost predicate Retried(w: World, n: nat) {
    && n <= 3
    && !Aborted(w, 2 * n + 1)
    && match w.outcome(n)
       case Returns(_) => false
       case Fails(f) => f.code in {ProviderRateLimited, ProviderUnavailable, ProviderNetworkFailed}
       case Throws(_) => true
  }

  /** The loop ends at attempt n: every earlier one was retried from an unaborted loop head. */
  ghost predicate EndsAt(w: World, first: nat, n: nat) {
    && first <= n
    && (forall i :: first <= i < n ==> !Aborted(w, 2 * i) && Retried(w, i))
    && (Aborted(w, 2 * n) || !Retried(w, n))
  }

  /** The response belongs to the request. */
  predicate Belongs(r: Response, q: Request) {
    && r.sessionId == q.sessionId && r.turnId == q.turnId
    && r.billingTag == q.billingTag && r.correlationId == q.correlationId
  }

  /** A response the dispatcher makes itself: its own id, no usage, the time it took, and this verdict. */
  predicate Made(r: Response, q: Request, w: World, provider: string, stop: StopReason, code: Option<ErrorCode>,
                 refusal: Option<string>, providerRequestId: Option<string>)
  {
    && Belongs(r, q) && r.dispatchId == w.mintedId && r.provider == provider && r.model == q.model
    && r.usage == Usage(0, 0, Some(0))
    && r.latencyMs == (if w.completed > w.started then w.completed - w.started else 0)
    && r.stopReason == stop && r.errorCode == code && r.refusal == refusal && r.providerRequestId == providerRequestId
  }

  /** The response is the one the final attempt calls for. */
  ghost predicate Decided(q: Request, w: World, provider: string, t: Trace, n: nat) {
    if Aborted(w, 2 * n) then
      t.calls + 1 == n && !t.recorded && Made(t.response, q, w, provider, UserInterrupt, None, None, None)
    else
      && t.calls == n && t.recorded
      && match w.outcome(n)
         case Returns(r) =>
           if Belongs(r, q) then t.response == r
           else
             Made(t.response, q, w, provider, DispatcherError, Some(DispatcherRequestInvalid),
                  Some("Adapter violated echo contract (session_id/turn_id/billing_tag/correlation_id mismatch)"), None)
         case Fails(f) =>
           if Aborted(w, 2 * n + 1) then Made(t.response, q, w, provider, UserInterrupt, None, None, None)
           else
             Made(t.response, q, w, provider, DispatcherError, Some(f.code),
                  if f.code == ContentFilterRefusal then Some(f.message) else None, f.providerRequestId)
         case Throws(_) =>
           if Aborted(w, 2 * n + 1) then Made(t.response, q, w, provider, UserInterrupt, None, None, None)
           else Made(t.response, q, w, provider, DispatcherError, Some(ProviderNetworkFailed), None, None)
  }

  /** The sleep after failed attempt n: what the provider asked for, else a draw below 200, 400, 800 ms. */
  function SleepAfter(w: World, n: nat): int
    requires 1 <= n <= 3
  {
    var drawn := (w.random(n) * [200.0, 400.0, 800.0][n - 1]).Floor;
    match w.outcome(n)
    case Fails(f) => f.retryAfterMs.GetOr(drawn)
    case _ => drawn
  }

  /** One sleep after each attempt but the last. */
  ghost predicate Slept(w: World, sleeps: seq<int>, first: nat, n: nat)
    requires 1 <= first <= n <= 4
  {
    |sleeps| == n - first && forall i :: 0 <= i < n - first ==> sleeps[i] == SleepAfter(w, first + i)
  }

  lemma DelayIsSleep(w: World, attempt: nat)
    requires 1 <= attempt <= 3 && !w.outcome(attempt).Returns?
    ensures Delay(w, attempt) == SleepAfter(w, attempt)
  {
    assert Pow2(1) == 2 && Pow2(2) == 4 && Pow2(3) == 8;
  }

  lemma SleptMore(w: World, delay: int, sleeps: seq<int>, first: nat, n: nat)
    requires 1 <= first < n <= 4 && delay == SleepAfter(w, first) && Slept(w, sleeps, first + 1, n)
    ensures Slept(w, [delay] + sleeps, first, n)
  {
    var all := [delay] + sleeps;
    forall i | 0 < i < n - first ensures all[i] == SleepAfter(w, first + i) {
      assert all[i] == sleeps[i - 1] == SleepAfter(w, first + 1 + (i - 1));
    }
  }

  /** This trace is that of a loop entered at one attempt and ended by another. */
  ghost predicate Ends(q: Request, w: World, provider: string, t: Trace, first: nat, n: nat) {
    1 <= first <= n <= 4 && EndsAt(w, first, n) && Decided(q, w, provider, t, n) && Slept(w, t.sleeps, first, n)
  }

  /** The loop from an attempt on ends at some attempt, with the response that one calls for. */
  lemma {:induction false} RetryEnds(q: Request, w: World, provider: string, attempt: nat) returns (n: nat)
    requires 1 <= attempt <= 4
    ensures Ends(q, w, provider, Retry(q, w, provider, attempt), attempt, n)
    decreases 4 - attempt
  {
    if Aborted(w, 2 * attempt) || !Retried(w, attempt) {
      n := attempt;
      LastAttempt(q, w, provider, attempt);
    } else {
      n := RetryEnds(q, w, provider, attempt + 1);
      GoesOnTo(q, w, provider, attempt);
      EndsSooner(q, w, provider, Retry(q, w, provider, attempt), Retry(q, w, provider, attempt + 1), attempt, n);
    }
  }

  /** What ends the loop from the next attempt on ends it from this one on, if this one is retried. */
  lemma EndsSooner(q: Request, w: World, provider: string, t: Trace, rest: Trace, attempt: nat, n: nat)
    requires 1 <= attempt && !Aborted(w, 2 * attempt) && Retried(w, attempt)
    requires attempt <= 3 && t == rest.(sleeps := [SleepAfter(w, attempt)] + rest.sleeps)
    requires Ends(q, w, provider, rest, attempt + 1, n)
    ensures Ends(q, w, provider, t, attempt, n)
  {
    SleptMore(w, SleepAfter(w, attempt), rest.sleeps, attempt, n);
    DecidedAlike(q, w, provider, t, rest, n);
  }

  lemma GoesOnTo(q: Request, w: World, provider: string, attempt: nat)
    requires 1 <= attempt <= 3 && !Aborted(w, 2 * attempt) && Retried(w, attempt)
    ensures
      var rest := Retry(q, w, provider, attempt + 1);
      Retry(q, w, provider, attempt) == rest.(sleeps := [SleepAfter(w, attempt)] + rest.sleeps)
  {
    DelayIsSleep(w, attempt);
  }

  lemma DecidedAlike(q: Request, w: World, provider: string, t: Trace, rest: Trace, n: nat)
    requires Decided(q, w, provider, rest, n) && t == rest.(sleeps := t.sleeps)
    ensures Decided(q, w, provider, t, n)
  {
  }

  lemma LastAttempt(q: Request, w: World, provider: string, n: nat)
    requires 1 <= n <= 4 && (Aborted(w, 2 * n) || !Retried(w, n))
    ensures Ends(q, w, provider, Retry(q, w, provider, n), n, n)
  {
  }

  lemma EndUnique(w: World, first: nat, m: nat, n: nat)
    requires EndsAt(w, first, m) && EndsAt(w, first, n)
    ensures m == n
  {
  }

  /** Every dispatch makes at most four adapter calls, whatever mix of errors occurs; all but the
      last were retried, the response is the one its last attempt calls for, and there is one sleep
      between attempts, as long as the failed one calls for. */
  lemma DispatchBounded(q: Request, w: World, provider: string, n: nat)
    requires EndsAt(w, 1, n)
    ensures n <= 4
    ensures
      var t := Retry(q, w, provider, 1);
      t.calls <= 4 && Decided(q, w, provider, t, n) && Slept(w, t.sleeps, 1, n)
  {
    var m := RetryEnds(q, w, provider, 1);
    EndUnique(w, 1, m, n);
  }

  /** The two gates before the loop: a request the schema refuses gets an error and leaves no row; one the
      budget refuses is recorded as exhausted. Neither calls the adapter. */
  lemma GatesAnswer(q: Request, w: World, provider: string, refused: bool)
    ensures
      var t := DispatchTrace(q, w, provider, false, refused);
      && t.calls == 0 && t.sleeps == [] && !t.recorded
      && Made(t.response, q, w, provider, DispatcherError, Some(DispatcherRequestInvalid),
              Some("Dispatcher request failed schema"), None)
    ensures
      var t := DispatchTrace(q, w, provider, true, true);
      && t.calls == 0 && t.sleeps == [] && t.recorded
      && Made(t.response, q, w, provider, StopReason.BudgetExhausted, None, None, None)
  {
  }

  /** What the gate asks of the tracker, over any run of it: refused exactly if the session was recorded
      and what it used, with 1.15 times the projection, is above the request's ceiling. */
  lemma GateExact(ops: seq<Budget.Op>, window: nat, maxTokens: int, q: Request)
    ensures
      var sessions := Budget.RunOps(ops, window);
      var projection := if q.sessionId in sessions
                        then Some(Budget.Project(sessions[q.sessionId], window, maxTokens, 0)) else None;
      BudgetRefuses(projection, q) <==>
      && Budget.Recorded(ops, q.sessionId).Some?
      && var history := Budget.Recorded(ops, q.sessionId).value;
      && var recent := Budget.Totals(Budget.LastOf(history, window));
      && var next := if |recent| < 3 then 4710.4 else 1.15 * Percentile.Percentile95(recent);
      && Budget.SumTokens(history) as real + next > q.budgetCeilingTokens as real
  {
    Budget.RunKeepsHistory(ops, window, q.sessionId);
    if q.sessionId in Budget.RunOps(ops, window) {
      Budget.GatesExact(ops, window, q.sessionId, maxTokens, 0, q.budgetCeilingTokens);
    }
  }

  lemma EndExists(w: World)
    ensures exists n :: 1 <= n <= 4 && EndsAt(w, 1, n)
  {
    var n := RetryEnds(Request("", "", "", "", "", 0), w, "", 1);
  }

  function Sum(s: seq<int>): int {
    if s == [] then 0 else s[0] + Sum(s[1..])
  }

  /** A jitter source drawing from [0, 1). */
  ghost predicate UnitDraws(w: World) {
    forall n :: 0.0 <= w.random(n) < 1.0
  }

  ghost predicate NoRetryAfter(w: World) {
    forall n :: w.outcome(n).Returns? || Failure(w.outcome(n)).retryAfterMs.None?
  }

  lemma JitterBelow(w: World, attempt: nat)
    requires UnitDraws(w) && 1 <= attempt <= 3
    ensures 0 <= JitteredBackoff(w, attempt) <= 100 * Pow2(attempt) - 1
  {
  }

  function SleepBudget(attempt: nat): int
    requires 1 <= attempt <= 4
    decreases 4 - attempt
  {
    if attempt == 4 then 0 else 100 * Pow2(attempt) - 1 + SleepBudget(attempt + 1)
  }

  lemma SumCons(x: int, s: seq<int>)
    ensures Sum([x] + s) == x + Sum(s)
  {
  }

  lemma {:induction false} SleepsWithin(q: Request, w: World, provider: string, attempt: nat)
    requires 1 <= attempt <= 4 && UnitDraws(w) && NoRetryAfter(w)
    ensures 0 <= Sum(Retry(q, w, provider, attempt).sleeps) <= SleepBudget(attempt)
    decreases 4 - attempt
  {
    SleepBudgetSign(attempt);
    if Attempt(q, w, provider, attempt).None? {
      SleepsWithin(q, w, provider, attempt + 1);
      JitterBelow(w, attempt);
      SumCons(JitteredBackoff(w, attempt), Retry(q, w, provider, attempt + 1).sleeps);
    }
  }

  lemma {:induction false} SleepBudgetSign(attempt: nat)
    requires 1 <= attempt <= 4
    ensures SleepBudget(attempt) >= 0
    decreases 4 - attempt
  {
  }

  /** Without a Retry-After, the jittered sleeps of one dispatch total at most 1397 ms. */
  lemma SleepTotal(q: Request, w: World, provider: string)
    requires UnitDraws(w) && NoRetryAfter(w)
    ensures 0 <= Sum(Retry(q, w, provider, 1).sleeps) <= 1397
  {
    SleepsWithin(q, w, provider, 1);
    assert Pow2(1) == 2 && Pow2(2) == 4 && Pow2(3) == 8;
    assert SleepBudget(3) == 799 && SleepBudget(2) == 399 + 799;
  }

  /** The bound is met: three rate limits drawn just under one. */
  lemma SleepTotalReached()
    ensures
      var q := Request("", "", "", "", "", 0);
      exists w: World :: UnitDraws(w) && NoRetryAfter(w) && Sum(Retry(q, w, "", 1).sleeps) == 1397
  {
    var q := Request("", "", "", "", "", 0);
    var limited := Fails(AdapterFailure(ProviderRateLimited, "", None, None));
    var w := World(_ => limited, None, _ => 0.999, "", 0, 0, 0);
    assert Pow2(1) == 2 && Pow2(2) == 4 && Pow2(3) == 8;
    assert JitteredBackoff(w, 1) == 199 && JitteredBackoff(w, 2) == 399 && JitteredBackoff(w, 3) == 799;
    var t3 := Retry(q, w, "", 3);
    assert t3.sleeps == [799];
    var t2 := Retry(q, w, "", 2);
    assert t2.sleeps == [399, 799];
    assert Retry(q, w, "", 1).sleeps == [199, 399, 799];
    assert Sum([799]) == 799 + Sum([]);
    assert [399, 799][1..] == [799] && [199, 399, 799][1..] == [399, 799];
  }

  /** Whatever happens, the response belongs to the request. */
  lemma {:induction false} RetryEchoes(q: Request, w: World, provider: string, attempt: nat)
    requires 1 <= attempt <= MAX_RETRIES + 1
    ensures Belongs(Retry(q, w, provider, attempt).response, q)
    decreases MAX_RETRIES + 1 - attempt
  {
    if attempt <= MAX_RETRIES { RetryEchoes(q, w, provider, attempt + 1); }
  }

  lemma DispatchEchoes(q: Request, w: World, provider: string, valid: bool, refused: bool)
    ensures Belongs(DispatchTrace(q, w, provider, valid, refused).response, q)
  {
    if valid && !refused { RetryEchoes(q, w, provider, 1); }
  }

  /** One row per dispatch, and none exactly for a request the schema refuses or an abort seen at a
      loop head. */
  lemma RecordedExactly(q: Request, w: World, provider: string, valid: bool, refused: bool, n: nat)
    requires EndsAt(w, 1, n)
    ensures DispatchTrace(q, w, provider, valid, refused).recorded <==>
            valid && (refused || !Aborted(w, 2 * n))
  {
  }

  /** A dispatch without a row: valid, affordable, and aborted no later than the head of the loop, which is
      checkpoint 2. */
  lemma AbortLeavesNoRow(q: Request, w: World, provider: string)
    requires w.abortAt.Some? && w.abortAt.value <= 2
    ensures
      var t := DispatchTrace(q, w, provider, true, false);
      !t.recorded && t.calls == 0 && t.response.stopReason == UserInterrupt
  {
  }

  // ---------------------------------------------------------------- the ring follows the audit

  /** The audit row that a ring row of a session stands beside. */
  function AuditOf(row: RecentRow, session: string): AuditRow {
    AuditRow(row.completedAt, row.dispatchId, session, row.turnId, row.billingTag, row.stopReason, row.errorCode,
             row.provider, row.providerRequestId, row.usage, row.latencyMs,
             if row.errorCode.Some? then Some(Subcode(row.errorCode.value)) else None)
  }

  function AuditsOf(rows: seq<RecentRow>, session: string): (r: seq<AuditRow>)
    ensures |r| == |rows|
  {
    if rows == [] then [] else [AuditOf(rows[0], session)] + AuditsOf(rows[1..], session)
  }

  /** The audit rows of one session, newest first. */
  function NewestFirst(audit: seq<AuditRow>, session: string): seq<AuditRow> {
    if audit == [] then []
    else
      var last := audit[|audit| - 1];
      (if last.sessionId == session then [last] else []) + NewestFirst(audit[..|audit| - 1], session)
  }

  /** The first n of a list, or all of it if it has no more. */
  ghost predicate FirstOf<T>(some: seq<T>, all: seq<T>, n: nat) {
    some <= all && |some| == if |all| < n then |all| else n
  }

  /** Every session's ring is the newest part of its audit trail, row for row. */
  ghost predicate RingsFollowAudit(rs: Records, ringSize: nat) {
    forall s: string :: FirstOf(AuditsOf(Ring(rs, s), s), NewestFirst(rs.audit, s), ringSize)
  }

  lemma TakeIsFirst<T>(some: seq<T>, all: seq<T>, n: nat)
    ensures some == Take(all, n) <==> FirstOf(some, all, n)
  {
  }

  lemma {:induction false} AuditsOfTake(rows: seq<RecentRow>, session: string, n: nat)
    ensures AuditsOf(Take(rows, n), session) == Take(AuditsOf(rows, session), n)
  {
    if rows != [] && n > 0 {
      AuditsOfTake(rows[1..], session, n - 1);
      if |rows| > n {
        assert rows[..n][1..] == rows[1..][..n - 1];
        assert AuditsOf(rows, session)[..n] == [AuditOf(rows[0], session)] + AuditsOf(rows[1..], session)[..n - 1];
      }
    }
  }

  lemma TakeTake<T>(x: T, s: seq<T>, n: nat)
    ensures Take([x] + Take(s, n), n) == Take([x] + s, n)
  {
  }

  /** Recording keeps the rings in step with the audit trail. */
  lemma RecordKeepsRings(rs: Records, r: Response, started: int, now: int, ringSize: nat)
    requires RingsFollowAudit(rs, ringSize)
    ensures RingsFollowAudit(Record(rs, r, r.sessionId, started, now, ringSize), ringSize)
  {
    var rs' := Record(rs, r, r.sessionId, started, now, ringSize);
    var row := ToAudit(r, now);
    forall s: string ensures FirstOf(AuditsOf(Ring(rs', s), s), NewestFirst(rs'.audit, s), ringSize) {
      assert rs'.audit[..|rs.audit|] == rs.audit;
      TakeIsFirst(AuditsOf(Ring(rs, s), s), NewestFirst(rs.audit, s), ringSize);
      TakeIsFirst(AuditsOf(Ring(rs', s), s), NewestFirst(rs'.audit, s), ringSize);
      if s == r.sessionId {
        var newRow := ToRecent(r, started, now);
        AuditsOfTake([newRow] + Ring(rs, s), s, ringSize);
        assert ([newRow] + Ring(rs, s))[1..] == Ring(rs, s);
        assert AuditOf(newRow, s) == row;
        TakeTake(row, NewestFirst(rs.audit, s), ringSize);
      } else {
        assert [] + NewestFirst(rs.audit, s) == NewestFirst(rs.audit, s);
      }
    }
  }

  // ---------------------------------------------------------------- runs of dispatches

  /** One dispatch of either mode: what `Dispatcher.Dispatch` or `RecordStreamDispatch` is called with. */
  datatype Op =
    | Sync(q: Request, w: World, valid: bool, refused: bool)
    | Stream(q: Request, id: string, stop: StopReason, code: Option<ErrorCode>, usage: Usage,
             started: int, completed: int, now: int)

  function Recorded(op: Op, provider: string): bool {
    match op
    case Sync(q, w, valid, refused) => DispatchTrace(q, w, provider, valid, refused).recorded
    case Stream(_, _, _, _, _, _, _, _) => true
  }

  function OpResponse(op: Op, provider: string): Response {
    match op
    case Sync(q, w, valid, refused) => DispatchTrace(q, w, provider, valid, refused).response
    case Stream(q, id, stop, code, usage, started, completed, _) =>
      StreamResponse(q, provider, id, stop, code, usage, started, completed)
  }

  /** The effect of one dispatch on the records, as the dispatcher's contracts state it. */
  function Step(rs: Records, op: Op, provider: string, ringSize: nat): Records {
    if !Recorded(op, provider) then rs
    else match op
      case Sync(q, w, _, _) => Record(rs, OpResponse(op, provider), q.sessionId, w.started, w.recorded, ringSize)
      case Stream(q, _, _, _, _, started, _, now) =>
        Record(rs, OpResponse(op, provider), q.sessionId, started, now, ringSize)
  }

  /** The codes the specification numbers from -32100 down, and those it numbers from -32110 down. */
  const PROVIDER_CODES := [ProviderRateLimited, ProviderAuthFailed, ProviderUnavailable, ProviderNetworkFailed,
                           ContentFilterRefusal, ContextLengthExceeded]
  const DISPATCHER_CODES := [DispatcherRequestInvalid, DispatcherStreamUnsupported, DispatcherAdapterError]

  lemma SubcodesListed(c: ErrorCode)
    ensures forall i :: 0 <= i < 6 ==> Subcode(PROVIDER_CODES[i]) == -32100 - i
    ensures forall i :: 0 <= i < 3 ==> Subcode(DISPATCHER_CODES[i]) == -32110 - i
    ensures c in PROVIDER_CODES + DISPATCHER_CODES
  {
    if c in PROVIDER_CODES {
    } else {
      assert c == DISPATCHER_CODES[0] || c == DISPATCHER_CODES[1] || c == DISPATCHER_CODES[2];
    }
  }

  function StartOf(op: Op): int { if op.Sync? then op.w.started else op.started }

  function EndOf(op: Op): int { if op.Sync? then op.w.recorded else op.now }

  /** What a recorded dispatch of either mode leaves: one audit row at the end and one ring row in front of
      its session's, both with the fields of its response, missing cached tokens counted as none; every
      other ring stays. */
  lemma RowsExact(rs: Records, op: Op, provider: string, ringSize: nat)
    requires Recorded(op, provider)
    ensures
      var r, rs' := OpResponse(op, provider), Step(rs, op, provider, ringSize);
      var usage := Usage(r.usage.inputTokens, r.usage.outputTokens,
                         if r.usage.cachedTokens == None then Some(0) else r.usage.cachedTokens);
      && rs'.audit == rs.audit +
         [AuditRow(EndOf(op), r.dispatchId, op.q.sessionId, r.turnId, r.billingTag, r.stopReason, r.errorCode,
                   r.provider, r.providerRequestId, usage, r.latencyMs,
                   if r.errorCode == None then None else Some(Subcode(r.errorCode.value)))]
      && FirstOf(Ring(rs', op.q.sessionId),
                 [RecentRow(r.dispatchId, r.turnId, r.provider, r.model, r.stopReason, r.errorCode, usage, r.latencyMs,
                            r.billingTag, r.correlationId, r.providerRequestId, StartOf(op), EndOf(op))]
                 + Ring(rs, op.q.sessionId), ringSize)
      && forall s: string :: s != op.q.sessionId ==> Ring(rs', s) == Ring(rs, s)
  {
    OpEchoes(op, provider);
  }

  /** A dispatch the budget refuses leaves a row that says so. */
  lemma RefusedRow(rs: Records, q: Request, w: World, provider: string, ringSize: nat)
    ensures
      Step(rs, Sync(q, w, true, true), provider, ringSize).audit == rs.audit +
      [AuditRow(w.recorded, w.mintedId, q.sessionId, q.turnId, q.billingTag, StopReason.BudgetExhausted, None,
                provider, None, Usage(0, 0, Some(0)),
                if w.completed > w.started then w.completed - w.started else 0, None)]
  {
  }

  function RunOps(ops: seq<Op>, provider: string, ringSize: nat): Records {
    if ops == [] then Records(map[], [])
    else Step(RunOps(ops[..|ops| - 1], provider, ringSize), ops[|ops| - 1], provider, ringSize)
  }

  /** The audit rows the dispatches of a run call for, in order: one for each recorded dispatch. */
  function AuditTrail(ops: seq<Op>, provider: string): seq<AuditRow> {
    if ops == [] then []
    else
      var op := ops[|ops| - 1];
      AuditTrail(ops[..|ops| - 1], provider) +
      if Recorded(op, provider)
      then [ToAudit(OpResponse(op, provider), if op.Sync? then op.w.recorded else op.now)]
      else []
  }

  lemma OpEchoes(op: Op, provider: string)
    ensures OpResponse(op, provider).sessionId == op.q.sessionId
  {
  }

  /** Over any run of dispatches, sync and stream mixed: the audit holds one row per recorded
      dispatch in order, and each session's ring is the newest-first list of its last R of them. */
  lemma {:induction false} RunKeepsRings(ops: seq<Op>, provider: string, ringSize: nat)
    ensures RunOps(ops, provider, ringSize).audit == AuditTrail(ops, provider)
    ensures RingsFollowAudit(RunOps(ops, provider, ringSize), ringSize)
  {
    if ops == [] {
    } else {
      var init, op := ops[..|ops| - 1], ops[|ops| - 1];
      RunKeepsRings(init, provider, ringSize);
      OpEchoes(op, provider);
      if Recorded(op, provider) {
        var rs := RunOps(init, provider, ringSize);
        match op
        case Sync(q, w, _, _) =>
          RecordKeepsRings(rs, OpResponse(op, provider), w.started, w.recorded, ringSize);
        case Stream(_, _, _, _, _, started, _, now) =>
          RecordKeepsRings(rs, OpResponse(op, provider), started, now, ringSize);
      } else {
        assert AuditTrail(init, provider) + [] == AuditTrail(init, provider);
      }
    }
  }
}
