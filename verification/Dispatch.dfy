/**
 The synchronous dispatcher: the budget gate, the retry loop with one shared budget, and the
 record every dispatch leaves in the newest-first ring and in the audit trail.
 */
module Dispatch {
  import opened Wrappers
  import opened StreamTypes
  import Budget

  const MAX_RETRIES := 3
  const BACKOFF_BASE_MS := 100
  const BACKOFF_CAP_MS := 5000

  datatype AdapterFailure = AdapterFailure(
    code: ErrorCode,
    message: string,
    providerRequestId: Option<string>,
    retryAfterMs: Option<int>)

  datatype Response = Response(
    dispatchId: string,
    sessionId: string,
    turnId: string,
    stopReason: StopReason,
    errorCode: Option<ErrorCode>,
    refusal: Option<string>,
    usage: Usage,
    latencyMs: int,
    providerRequestId: Option<string>,
    provider: string,
    model: string,
    billingTag: string,
    correlationId: string)

  /** One adapter call: it returns, throws its own error type, or throws anything else. */
  datatype Outcome =
    | Returns(response: Response)
    | Fails(failure: AdapterFailure)
    | Throws(message: string)

  /** What one dispatch meets: the adapter per attempt, the moment of abort, the jitter draws, the
      minted id and the clock. The abort is seen at the first checkpoint not before it: checkpoint
      2n is the loop head of attempt n, checkpoint 2n + 1 its error handler. */
  datatype World = World(
    outcome: nat -> Outcome,
    abortAt: Option<nat>,
    random: nat -> real,
    mintedId: string,
    started: int,
    completed: int,
    recorded: int)

  predicate Aborted(w: World, checkpoint: nat) {
    w.abortAt.Some? && w.abortAt.value <= checkpoint
  }

  predicate Retryable(code: ErrorCode) {
    code == ProviderRateLimited || code == ProviderUnavailable || code == ProviderNetworkFailed
  }

  /** `classifyThrowable` and the wrapping of foreign errors. */
  function Failure(o: Outcome): AdapterFailure
    requires !o.Returns?
  {
    match o
    case Fails(f) => f
    case Throws(m) => AdapterFailure(ProviderNetworkFailed, m, None, None)
  }

  predicate Echoes(r: Response, q: Request) {
    && r.sessionId == q.sessionId && r.turnId == q.turnId
    && r.billingTag == q.billingTag && r.correlationId == q.correlationId
  }

  function Min(a: int, b: int): int {
    if a <= b then a else b
  }

  function Pow2(n: nat): nat {
    if n == 0 then 1 else 2 * Pow2(n - 1)
  }

  function BackoffCeiling(attempt: nat): int {
    Min(BACKOFF_CAP_MS, BACKOFF_BASE_MS * Pow2(attempt))
  }

  function JitteredBackoff(w: World, attempt: nat): int {
    (w.random(attempt) * BackoffCeiling(attempt) as real).Floor
  }

  function Latency(w: World): int {
    if w.completed >= w.started then w.completed - w.started else 0
  }

  /** The shape shared by every synthesized response. */
  function Synthesize(q: Request, w: World, provider: string, stop: StopReason, code: Option<ErrorCode>,
                      providerRequestId: Option<string>, refusal: Option<string>): Response
  {
    Response(w.mintedId, q.sessionId, q.turnId, stop, code, refusal, Usage(0, 0, Some(0)), Latency(w),
             providerRequestId, provider, q.model, q.billingTag, q.correlationId)
  }

  function SynthesizeCancelled(q: Request, w: World, provider: string): Response {
    Synthesize(q, w, provider, UserInterrupt, None, None, None)
  }

  function SynthesizeBudgetExhausted(q: Request, w: World, provider: string): Response {
    Synthesize(q, w, provider, StopReason.BudgetExhausted, None, None, None)
  }

  function SynthesizeError(q: Request, w: World, provider: string, code: ErrorCode,
                           providerRequestId: Option<string>, refusal: Option<string>): Response
  {
    Synthesize(q, w, provider, DispatcherError, Some(code), providerRequestId, refusal)
  }

  const ECHO_REFUSAL :=
    "Adapter violated echo contract (session_id/turn_id/billing_tag/correlation_id mismatch)"

  /** The validator's errors, which follow it, are not part of this model. */
  const SCHEMA_REFUSAL := "Dispatcher request failed schema"

  function FailureResponse(q: Request, w: World, provider: string, f: AdapterFailure): Response {
    SynthesizeError(q, w, provider, f.code, f.providerRequestId,
                    if f.code == ContentFilterRefusal then Some(f.message) else None)
  }

  // ---------------------------------------------------------------- the record

  datatype RecentRow = RecentRow(
    dispatchId: string, turnId: string, provider: string, model: string,
    stopReason: StopReason, errorCode: Option<ErrorCode>, usage: Usage, latencyMs: int,
    billingTag: string, correlationId: string, providerRequestId: Option<string>,
    startedAt: int, completedAt: int)

  datatype AuditRow = AuditRow(
    timestamp: int, dispatchId: string, sessionId: string, turnId: string, billingTag: string,
    stopReason: StopReason, errorCode: Option<ErrorCode>, provider: string,
    providerRequestId: Option<string>, usage: Usage, latencyMs: int, subcode: Option<int>)

  function Subcode(c: ErrorCode): int {
    match c
    case ProviderRateLimited => -32100
    case ProviderAuthFailed => -32101
    case ProviderUnavailable => -32102
    case ProviderNetworkFailed => -32103
    case ContentFilterRefusal => -32104
    case ContextLengthExceeded => -32105
    case DispatcherRequestInvalid => -32110
    case DispatcherStreamUnsupported => -32111
    case DispatcherAdapterError => -32112
  }

  function RowUsage(u: Usage): Usage {
    u.(cachedTokens := Some(u.cachedTokens.GetOr(0)))
  }

  function ToRecent(r: Response, started: int, now: int): RecentRow {
    RecentRow(r.dispatchId, r.turnId, r.provider, r.model, r.stopReason, r.errorCode, RowUsage(r.usage),
              r.latencyMs, r.billingTag, r.correlationId, r.providerRequestId, started, now)
  }

  function ToAudit(r: Response, now: int): AuditRow {
    AuditRow(now, r.dispatchId, r.sessionId, r.turnId, r.billingTag, r.stopReason, r.errorCode, r.provider,
             r.providerRequestId, RowUsage(r.usage), r.latencyMs,
             if r.errorCode.Some? then Some(Subcode(r.errorCode.value)) else None)
  }

  datatype Records = Records(recent: map<string, seq<RecentRow>>, audit: seq<AuditRow>)

  function Ring(rs: Records, session: string): seq<RecentRow> {
    if session in rs.recent then rs.recent[session] else []
  }

  function Take<T>(s: seq<T>, n: nat): seq<T> {
    if |s| <= n then s else s[..n]
  }

  /** `recordDispatch` as a step: one row in front of the session's ring, one at the audit tail. */
  function Record(rs: Records, r: Response, session: string, started: int, now: int, ringSize: nat): Records {
    var ring := Take([ToRecent(r, started, now)] + Ring(rs, session), ringSize);
    Records(rs.recent[session := ring], rs.audit + [ToAudit(r, now)])
  }

  // ---------------------------------------------------------------- the loop, as a function

  datatype Trace = Trace(response: Response, calls: nat, sleeps: seq<int>, recorded: bool)

  /** What one attempt ends the loop with; None when it is to be retried. */
  function Attempt(q: Request, w: World, provider: string, attempt: nat): Option<Trace>
    requires attempt >= 1
  {
    if Aborted(w, 2 * attempt) then Some(Trace(SynthesizeCancelled(q, w, provider), attempt - 1, [], false))
    else
      var o := w.outcome(attempt);
      if o.Returns? then
        Some(Trace(if Echoes(o.response, q) then o.response
                   else SynthesizeError(q, w, provider, DispatcherRequestInvalid, None, Some(ECHO_REFUSAL)),
                   attempt, [], true))
      else if Aborted(w, 2 * attempt + 1) then
        Some(Trace(SynthesizeCancelled(q, w, provider), attempt, [], true))
      else if !Retryable(Failure(o).code) || attempt > MAX_RETRIES then
        Some(Trace(FailureResponse(q, w, provider, Failure(o)), attempt, [], true))
      else None
  }

  /** The sleep after a failed attempt. */
  function Delay(w: World, attempt: nat): int
    requires !w.outcome(attempt).Returns?
  {
    Failure(w.outcome(attempt)).retryAfterMs.GetOr(JitteredBackoff(w, attempt))
  }

  /** The loop from a given attempt on. */
  function Retry(q: Request, w: World, provider: string, attempt: nat): Trace
    requires 1 <= attempt <= MAX_RETRIES + 1
    decreases MAX_RETRIES + 1 - attempt
  {
    match Attempt(q, w, provider, attempt)
    case Some(t) => t
    case None =>
      var rest := Retry(q, w, provider, attempt + 1);
      rest.(sleeps := [Delay(w, attempt)] + rest.sleeps)
  }

  /** A trace that is the rest of the loop after some sleeps. */
  ghost predicate Continues(whole: Trace, sleeps: seq<int>, rest: Trace) {
    && whole.response == rest.response && whole.calls == rest.calls && whole.recorded == rest.recorded
    && whole.sleeps == sleeps + rest.sleeps
  }

  lemma GoesOn(whole: Trace, sleeps: seq<int>, delay: int, q: Request, w: World, provider: string, attempt: nat)
    requires 1 <= attempt <= MAX_RETRIES
    requires Attempt(q, w, provider, attempt).None? && delay == Delay(w, attempt)
    requires Continues(whole, sleeps, Retry(q, w, provider, attempt))
    ensures Continues(whole, sleeps + [delay], Retry(q, w, provider, attempt + 1))
  {
  }

  lemma StopsHere(whole: Trace, sleeps: seq<int>, q: Request, w: World, provider: string, attempt: nat)
    requires 1 <= attempt <= MAX_RETRIES + 1
    requires Attempt(q, w, provider, attempt).Some?
    requires Continues(whole, sleeps, Retry(q, w, provider, attempt))
    ensures whole == Attempt(q, w, provider, attempt).value.(sleeps := sleeps)
  {
  }

  /** A whole dispatch: schema, budget gate, then the loop. The gate's verdict comes from the
      tracker. */
  function DispatchTrace(q: Request, w: World, provider: string, valid: bool, refused: bool): Trace {
    if !valid then
      Trace(SynthesizeError(q, w, provider, DispatcherRequestInvalid, None, Some(SCHEMA_REFUSAL)), 0, [], false)
    else if refused then Trace(SynthesizeBudgetExhausted(q, w, provider), 0, [], true)
    else Retry(q, w, provider, 1)
  }

  /** The budget pre-check against the request's own ceiling; no tracked session, no refusal. */
  predicate BudgetRefuses(p: Option<Budget.Projection>, q: Request) {
    p.Some? && Budget.DispatchRefused(p.value, q.budgetCeilingTokens)
  }

  /** `recordStreamDispatch`: the stream's terminal state as a response. */
  function StreamResponse(q: Request, provider: string, id: string, stop: StopReason, code: Option<ErrorCode>,
                          usage: Usage, started: int, completed: int): Response
  {
    Response(id, q.sessionId, q.turnId, stop, code, None, usage,
             if completed >= started then completed - started else 0,
             None, provider, q.model, q.billingTag, q.correlationId)
  }

  // ---------------------------------------------------------------- the dispatcher

  class Dispatcher {
    const provider: string
    const ringSize: nat
    const budget: Budget.BudgetTracker?
    var recent: map<string, seq<RecentRow>>
    var audit: seq<AuditRow>

    constructor (provider: string, budget: Budget.BudgetTracker?, ringSize: nat := 500)
      ensures this.provider == provider && this.budget == budget && this.ringSize == ringSize
      ensures Rows() == Records(map[], [])
    {
      this.provider, this.budget, this.ringSize := provider, budget, ringSize;
      recent, audit := map[], [];
    }

    ghost function Rows(): Records
      reads this
    {
      Records(recent, audit)
    }

    method RecordDispatch(r: Response, q: Request, started: int, now: int)
      modifies this
      ensures Rows() == Record(old(Rows()), r, q.sessionId, started, now, ringSize)
    {
      var rows := if q.sessionId in recent then recent[q.sessionId] else [];
      rows := [ToRecent(r, started, now)] + rows;
      if |rows| > ringSize {
        rows := rows[..ringSize];
      }
      recent := recent[q.sessionId := rows];
      audit := audit + [ToAudit(r, now)];
    }

    /** `invokeWithRetry`. The fall-through after the loop is never reached. */
    method InvokeWithRetry(q: Request, w: World) returns (response: Response, calls: nat, sleeps: seq<int>)
      modifies this
      ensures
        var t := Retry(q, w, provider, 1);
        && response == t.response && calls == t.calls && sleeps == t.sleeps
        && Rows() == if t.recorded then Record(old(Rows()), response, q.sessionId, w.started, w.recorded, ringSize)
                     else old(Rows())
    {
      var attempt := 1;
      calls, sleeps := 0, [];
      ghost var whole := Retry(q, w, provider, 1);
      assert [] + whole.sleeps == whole.sleeps;
      while attempt <= MAX_RETRIES + 1
        invariant 1 <= attempt <= MAX_RETRIES + 1
        invariant calls == attempt - 1
        invariant Rows() == old(Rows())
        invariant Continues(whole, sleeps, Retry(q, w, provider, attempt))
        decreases MAX_RETRIES + 1 - attempt
      {
        ghost var end := Attempt(q, w, provider, attempt);
        if end.Some? { StopsHere(whole, sleeps, q, w, provider, attempt); }
        if Aborted(w, 2 * attempt) {
          response := SynthesizeCancelled(q, w, provider);
          return;
        }
        calls := calls + 1;
        var o := w.outcome(attempt);
        if o.Returns? {
          response := o.response;
          if response.sessionId != q.sessionId || response.turnId != q.turnId
             || response.billingTag != q.billingTag || response.correlationId != q.correlationId {
            response := SynthesizeError(q, w, provider, DispatcherRequestInvalid, None, Some(ECHO_REFUSAL));
          }
          RecordDispatch(response, q, w.started, w.recorded);
          return;
        }
        if Aborted(w, 2 * attempt + 1) {
          response := SynthesizeCancelled(q, w, provider);
          RecordDispatch(response, q, w.started, w.recorded);
          return;
        }
        var failure := Failure(o);
        if !Retryable(failure.code) || attempt > MAX_RETRIES {
          response := FailureResponse(q, w, provider, failure);
          RecordDispatch(response, q, w.started, w.recorded);
          return;
        }
        var delay := if failure.retryAfterMs.Some? then failure.retryAfterMs.value else JitteredBackoff(w, attempt);
        GoesOn(whole, sleeps, delay, q, w, provider, attempt);
        sleeps := sleeps + [delay];
        attempt := attempt + 1;
      }
      assert false;
    }

    method Dispatch(q: Request, w: World, valid: bool) returns (response: Response, calls: nat, sleeps: seq<int>)
      modifies this
      ensures
        var refused := BudgetRefuses(if budget == null then None else old(budget.GetProjection(q.sessionId, 0)), q);
        var t := DispatchTrace(q, w, provider, valid, refused);
        && response == t.response && calls == t.calls && sleeps == t.sleeps
        && Rows() == if t.recorded then Record(old(Rows()), response, q.sessionId, w.started, w.recorded, ringSize)
                     else old(Rows())
    {
      if !valid {
        response := SynthesizeError(q, w, provider, DispatcherRequestInvalid, None, Some(SCHEMA_REFUSAL));
        return response, 0, [];
      }
      if budget != null && budget.Has(q.sessionId) {
        var projection := budget.GetProjection(q.sessionId, 0);
        if projection.Some? && Budget.DispatchRefused(projection.value, q.budgetCeilingTokens) {
          response := SynthesizeBudgetExhausted(q, w, provider);
          RecordDispatch(response, q, w.started, w.recorded);
          return response, 0, [];
        }
      }
      response, calls, sleeps := InvokeWithRetry(q, w);
    }

    method RecordStreamDispatch(q: Request, id: string, stop: StopReason, code: Option<ErrorCode>, usage: Usage,
                                started: int, completed: int, now: int)
      modifies this
      ensures Rows() == Record(old(Rows()), StreamResponse(q, provider, id, stop, code, usage, started, completed),
                               q.sessionId, started, now, ringSize)
    {
      var response := StreamResponse(q, provider, id, stop, code, usage, started, completed);
      RecordDispatch(response, q, started, now);
    }

    /** `recent_response`: the newest rows of one session, at least one asked for and never more than
        the ring holds. */
    function RecentResponse(session: string, limit: int): (rows: seq<RecentRow>)
      reads this
      ensures rows <= Ring(Rows(), session)
      ensures |rows| == Min(|Ring(Rows(), session)|, Min(if limit < 1 then 1 else limit, ringSize))
    {
      var atLeastOne := if limit < 1 then 1 else limit;
      var cap := Min(atLeastOne, ringSize);
      Take(if session in recent then recent[session] else [], cap)
    }
  }
}
