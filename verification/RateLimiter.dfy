/**
 The per-bearer sliding-window limiter in front of `POST /dispatch` and of the audit reader, which
 hold the same class. Times are whole milliseconds; the clock is a parameter of each call.
 */
module RateLimiter {
  const WINDOW_MS := 60000

  datatype Decision = Decision(allowed: bool, retryAfterSeconds: int)

  function Fresh(window: seq<int>, t: int): seq<int> {
    if window == [] then []
    else (if t - window[0] < WINDOW_MS then [window[0]] else []) + Fresh(window[1..], t)
  }

  /** `Math.ceil(ms / 1000)`, for negative numbers too. */
  function CeilSeconds(ms: int): int { -((-ms) / 1000) }

  function RetryAfter(live: seq<int>, t: int): int {
    var oldest := if live == [] then t else live[0];
    var wait := CeilSeconds(WINDOW_MS - (t - oldest));
    if wait > 1 then wait else 1
  }

  function Window(windows: map<string, seq<int>>, bearer: string): seq<int> {
    if bearer in windows then windows[bearer] else []
  }

  function Decide(window: seq<int>, t: int, limit: int): Decision {
    var live := Fresh(window, t);
    if |live| >= limit then Decision(false, RetryAfter(live, t)) else Decision(true, 0)
  }

  /** What is kept of a window after a call: the stale times go, an admitted call joins. */
  function Keep(window: seq<int>, t: int, limit: int): seq<int> {
    Fresh(window, t) + (if Decide(window, t, limit).allowed then [t] else [])
  }

  class PerBearerLimiter {
    const limit: int
    var windows: map<string, seq<int>>

    constructor (limit: int)
      ensures this.limit == limit && windows == map[]
    {
      this.limit := limit;
      windows := map[];
    }

    method Consume(bearer: string, t: int) returns (d: Decision)
      modifies this
      ensures d == Decide(Window(old(windows), bearer), t, limit)
      ensures windows == old(windows)[bearer := Keep(Window(old(windows), bearer), t, limit)]
    {
      var live := Fresh(Window(windows, bearer), t);
      if |live| >= limit {
        assert live + [] == live;
        windows := windows[bearer := live];
        return Decision(false, RetryAfter(live, t));
      }
      live := live + [t];
      windows := windows[bearer := live];
      return Decision(true, 0);
    }
  }

  // ---------------------------------------------------------------- runs

  datatype Call = Call(bearer: string, at: int)

  /** The calls of a run, the latest outermost. */
  datatype Calls = NoCalls | Then(before: Calls, last: Call)

  function Windows(calls: Calls, limit: int): map<string, seq<int>> {
    match calls
    case NoCalls => map[]
    case Then(before, c) =>
      var windows := Windows(before, limit);
      windows[c.bearer := Keep(Window(windows, c.bearer), c.at, limit)]
  }

  /** What the caller of `c` is told after the calls before it. */
  function Answer(calls: Calls, c: Call, limit: int): Decision {
    Decide(Window(Windows(calls, limit), c.bearer), c.at, limit)
  }

  /** The whole record of one bearer: the times of all its admitted calls, none ever dropped. */
  function Admitted(calls: Calls, bearer: string, limit: int): seq<int> {
    match calls
    case NoCalls => []
    case Then(before, c) =>
      if c.bearer == bearer && Answer(before, c, limit).allowed then Admitted(before, bearer, limit) + [c.at]
      else Admitted(before, bearer, limit)
  }

  /** A clock that never goes back, and has reached `t` at most. */
  predicate Clock(calls: Calls, t: int) {
    match calls
    case NoCalls => true
    case Then(before, c) => c.at <= t && Clock(before, c.at)
  }

  /** One bearer's calls among all. */
  function Own(calls: Calls, bearer: string): Calls {
    match calls
    case NoCalls => NoCalls
    case Then(before, c) => if c.bearer == bearer then Then(Own(before, bearer), c) else Own(before, bearer)
  }

  ghost predicate Ordered(times: seq<int>) {
    forall i, j :: 0 <= i < j < |times| ==> times[i] <= times[j]
  }

  ghost predicate Until(times: seq<int>, t: int) {
    forall i :: 0 <= i < |times| ==> times[i] <= t
  }

  /** One bearer's window, and its whole record of admitted times. */
  datatype Book = Book(window: seq<int>, record: seq<int>)

  function BookOf(calls: Calls, bearer: string, limit: int): Book {
    Book(Window(Windows(calls, limit), bearer), Admitted(calls, bearer, limit))
  }

  function Enter(b: Book, t: int, limit: int): Book {
    Book(Keep(b.window, t, limit), if Decide(b.window, t, limit).allowed then b.record + [t] else b.record)
  }

  /** Any two admitted calls that are `limit` apart in the record are 60 seconds apart in time. */
  ghost predicate Spaced(times: seq<int>, limit: int) {
    forall i, j :: 0 <= i < j < |times| && j - i >= limit ==> times[j] - times[i] >= 60000
  }

  /** The window is the end of the record from row `d` on, and what was dropped is stale at `t`. */
  ghost predicate EndOf(window: seq<int>, record: seq<int>, t: int) {
    exists d :: Cut(window, record, t, d)
  }

  ghost predicate Cut(window: seq<int>, record: seq<int>, t: int, d: nat) {
    && d <= |record|
    && window == record[d..]
    && (forall i :: 0 <= i < d ==> t - record[i] >= WINDOW_MS)
  }

  /** The index of the first fresh time at `d` or after it. */
  function First(record: seq<int>, d: nat, t: int): (k: nat)
    requires d <= |record|
    ensures d <= k <= |record|
    ensures forall i :: d <= i < k ==> t - record[i] >= WINDOW_MS
    ensures k < |record| ==> t - record[k] < WINDOW_MS
    decreases |record| - d
  {
    if d == |record| || t - record[d] < WINDOW_MS then d else First(record, d + 1, t)
  }

  /** Over times in order, the fresh ones are an end of the list. */
  lemma {:induction false} FreshIsEnd(record: seq<int>, d: nat, t: int)
    requires Ordered(record) && d <= |record|
    ensures Fresh(record[d..], t) == record[First(record, d, t)..]
    decreases |record| - d
  {
    if d < |record| && t - record[d] >= WINDOW_MS {
      FreshIsEnd(record, d + 1, t);
      assert record[d..][0] == record[d] && record[d..][1..] == record[d + 1..];
    } else {
      forall i | 0 <= i < |record[d..]| ensures t - record[d..][i] < WINDOW_MS {
        assert record[d] <= record[d + i];
      }
      AllFresh(record[d..], t);
    }
  }

  lemma {:induction false} AllFresh(window: seq<int>, t: int)
    requires forall i :: 0 <= i < |window| ==> t - window[i] < WINDOW_MS
    ensures Fresh(window, t) == window
  {
    if window == [] {
    } else {
      AllFresh(window[1..], t);
    }
  }

  /** Pruning loses nothing: the fresh part of the window is the fresh part of the whole record. */
  lemma FreshOfRecord(window: seq<int>, record: seq<int>, t: int, now: int)
    requires EndOf(window, record, t) && Ordered(record) && t <= now
    ensures Fresh(window, now) == Fresh(record, now) == record[First(record, 0, now)..]
  {
    var d :| Cut(window, record, t, d);
    FreshIsEnd(record, d, now);
    FreshIsEnd(record, 0, now);
    assert record[0..] == record;
    var k := First(record, 0, now);
    assert k < |record| ==> now - record[k] < WINDOW_MS;
    FirstUnique(record, 0, d, now);
  }

  lemma FirstUnique(record: seq<int>, c: nat, d: nat, now: int)
    requires c <= d <= |record| && d <= First(record, c, now)
    ensures First(record, c, now) == First(record, d, now)
    decreases d - c
  {
  }

  ghost predicate Quota(b: Book, t: int, limit: int) {
    Ordered(b.record) && Until(b.record, t) && Spaced(b.record, limit) && EndOf(b.window, b.record, t)
  }

  lemma SpacedPush(record: seq<int>, now: int, limit: int)
    requires Ordered(record) && Until(record, now) && Spaced(record, limit)
    requires |record| - First(record, 0, now) < limit
    ensures Ordered(record + [now]) && Until(record + [now], now) && Spaced(record + [now], limit)
  {
  }

  lemma CutPush(record: seq<int>, now: int, k: nat)
    requires k <= |record| && forall i :: 0 <= i < k ==> now - record[i] >= WINDOW_MS
    ensures Cut(record[k..] + [now], record + [now], now, k)
  {
  }

  lemma EnterKeepsQuota(b: Book, t: int, now: int, limit: int)
    requires Quota(b, t, limit) && t <= now
    ensures Quota(Enter(b, now, limit), now, limit)
  {
    var record := b.record;
    FreshOfRecord(b.window, record, t, now);
    var k := First(record, 0, now);
    if |record| - k < limit {
      SpacedPush(record, now, limit);
      CutPush(record, now, k);
    } else {
      assert record[k..] + [] == record[k..];
      assert Cut(record[k..], record, now, k);
    }
  }

  lemma LaterQuota(b: Book, t: int, later: int, limit: int)
    requires Quota(b, t, limit) && t <= later
    ensures Quota(b, later, limit)
  {
    var d :| Cut(b.window, b.record, t, d);
    assert Cut(b.window, b.record, later, d);
  }

  /** The invariant of every run over a clock that never goes back. */
  lemma {:induction false} RunKeepsQuota(calls: Calls, t: int, bearer: string, limit: int)
    requires Clock(calls, t)
    ensures Quota(BookOf(calls, bearer, limit), t, limit)
  {
    match calls
    case NoCalls => assert Cut([], [], t, 0);
    case Then(before, c) =>
      RunKeepsQuota(before, c.at, bearer, limit);
      if c.bearer == bearer { EnterKeepsQuota(BookOf(before, bearer, limit), c.at, c.at, limit); }
      LaterQuota(BookOf(calls, bearer, limit), c.at, t, limit);
  }

  // ---------------------------------------------------------------- what a caller can rely on

  /** Bearers do not interact: a bearer's window and admissions are those of its own calls alone. */
  lemma {:induction false} OwnCallsDecide(calls: Calls, bearer: string, limit: int)
    ensures BookOf(calls, bearer, limit) == BookOf(Own(calls, bearer), bearer, limit)
  {
    match calls
    case NoCalls =>
    case Then(before, _) => OwnCallsDecide(before, bearer, limit);
  }

  /** No 60-second window, wherever it starts, admits more than `limit` calls of one bearer. */
  lemma WindowBound(calls: Calls, t: int, bearer: string, limit: int, start: int, lo: nat, hi: nat)
    requires Clock(calls, t) && limit >= 0
    requires lo <= hi <= |Admitted(calls, bearer, limit)|
    requires forall i :: lo <= i < hi ==> start <= Admitted(calls, bearer, limit)[i] < start + 60000
    ensures hi - lo <= limit
  {
    RunKeepsQuota(calls, t, bearer, limit);
    if limit == 0 { NothingAdmitted(calls, bearer, limit); }
    var record := Admitted(calls, bearer, limit);
    assert forall i, j :: 0 <= i < j < |record| && j - i >= limit ==> record[j] - record[i] >= 60000;
    assert lo < hi ==> start <= record[lo] && record[hi - 1] < start + 60000;
  }

  lemma {:induction false} NothingAdmitted(calls: Calls, bearer: string, limit: int)
    requires limit <= 0
    ensures Admitted(calls, bearer, limit) == []
  {
    match calls
    case NoCalls =>
    case Then(before, _) => NothingAdmitted(before, bearer, limit);
  }

  /** How many of the times are less than 60 seconds before `t`. */
  function Recent(times: seq<int>, t: int): nat {
    if times == [] then 0 else (if times[0] > t - 60000 then 1 else 0) + Recent(times[1..], t)
  }

  lemma {:induction false} FreshAreRecent(times: seq<int>, t: int)
    ensures |Fresh(times, t)| == Recent(times, t)
  {
    if times == [] {
    } else {
      FreshAreRecent(times[1..], t);
    }
  }

  /** A call is refused exactly when `limit` of the bearer's calls were admitted in the 60 seconds up
      to it, counted over the whole record; and then the wait named is 1 to 60 seconds. */
  lemma RefusedIffFull(calls: Calls, c: Call, limit: int)
    requires Clock(calls, c.at) && limit >= 0
    ensures
      var recent := Recent(Admitted(calls, c.bearer, limit), c.at);
      var d := Answer(calls, c, limit);
      && recent <= limit
      && (!d.allowed <==> recent == limit)
      && (if d.allowed then d.retryAfterSeconds == 0 else 1 <= d.retryAfterSeconds <= 60)
  {
    RunKeepsQuota(calls, c.at, c.bearer, limit);
    FreshAreRecent(Admitted(calls, c.bearer, limit), c.at);
    if limit == 0 { NothingAdmitted(calls, c.bearer, limit); }
    QuotaDecides(BookOf(calls, c.bearer, limit), c.at, limit);
  }

  lemma QuotaDecides(b: Book, t: int, limit: int)
    requires Quota(b, t, limit) && limit >= 0 && (limit == 0 ==> b.record == [])
    ensures
      var recent, d := Fresh(b.record, t), Decide(b.window, t, limit);
      && |recent| <= limit
      && (!d.allowed <==> |recent| == limit)
      && (if d.allowed then d.retryAfterSeconds == 0 else 1 <= d.retryAfterSeconds <= 60)
  {
    FreshOfRecord(b.window, b.record, t, t);
    AtMostLimit(b.record, t, limit);
    var recent := Fresh(b.record, t);
    assert recent != [] ==> recent[0] == b.record[First(b.record, 0, t)];
  }

  lemma AtMostLimit(record: seq<int>, t: int, limit: int)
    requires Spaced(record, limit) && Until(record, t) && limit >= 0 && (limit == 0 ==> record == [])
    ensures |record| - First(record, 0, t) <= limit
  {
    var k := First(record, 0, t);
    assert k < |record| ==> t - record[k] < WINDOW_MS;
    var j := if k + limit < |record| then k + limit else k;
    assert j < |record| ==> record[j] <= t;
  }

  /** The wait named in a refusal is honest and tight. A refused caller that makes no other call of
      its own, whatever others do meanwhile, and comes back after w whole seconds, is admitted exactly
      when w is at least the wait it was told. */
  lemma RetryIsTight(calls: Calls, c: Call, later: Calls, w: nat, limit: int)
    requires Clock(calls, c.at) && limit >= 1 && w >= 1
    requires !Answer(calls, c, limit).allowed
    requires Own(later, c.bearer) == Then(Own(calls, c.bearer), c)
    ensures Answer(later, Call(c.bearer, c.at + 1000 * w), limit).allowed <==>
            w >= Answer(calls, c, limit).retryAfterSeconds
  {
    RefusedWindow(calls, c, later, limit);
    WaitFor(Window(Windows(later, limit), c.bearer), c.at, w, limit,
            Answer(later, Call(c.bearer, c.at + 1000 * w), limit));
  }

  /** A window of `limit` times in order, none of them stale. */
  ghost predicate Full(window: seq<int>, t: int, limit: int) {
    |window| == limit >= 1 && Ordered(window) && Until(window, t) && t - window[0] < WINDOW_MS
  }

  /** What a refusal leaves behind: a full window, from which the wait was computed. */
  lemma RefusedWindow(calls: Calls, c: Call, later: Calls, limit: int)
    requires Clock(calls, c.at) && limit >= 1 && !Answer(calls, c, limit).allowed
    requires Own(later, c.bearer) == Then(Own(calls, c.bearer), c)
    ensures
      var window := Window(Windows(later, limit), c.bearer);
      Full(window, c.at, limit) && Answer(calls, c, limit).retryAfterSeconds == RetryAfter(window, c.at)
  {
    RunKeepsQuota(calls, c.at, c.bearer, limit);
    RefusedStep(BookOf(calls, c.bearer, limit), c.at, limit);
    OwnCallsDecide(later, c.bearer, limit);
    OwnCallsDecide(calls, c.bearer, limit);
  }

  lemma RefusedStep(b: Book, t: int, limit: int)
    requires Quota(b, t, limit) && limit >= 1 && !Decide(b.window, t, limit).allowed
    ensures
      var full := Keep(b.window, t, limit);
      Full(full, t, limit) && Decide(b.window, t, limit).retryAfterSeconds == RetryAfter(full, t)
  {
    FreshOfRecord(b.window, b.record, t, t);
    AtMostLimit(b.record, t, limit);
    FullEnd(b.record, t, limit);
    var live := Fresh(b.window, t);
    assert live + [] == live;
  }

  lemma FullEnd(record: seq<int>, t: int, limit: int)
    requires Ordered(record) && Until(record, t) && |record| - First(record, 0, t) == limit >= 1
    ensures Full(record[First(record, 0, t)..], t, limit)
  {
    assert record[First(record, 0, t)..][0] == record[First(record, 0, t)];
  }

  /** A full window opens up when its oldest time goes stale. */
  lemma WaitFor(full: seq<int>, t: int, w: nat, limit: int, again: Decision)
    requires Full(full, t, limit) && w >= 1 && again == Decide(full, t + 1000 * w, limit)
    ensures again.allowed <==> w >= RetryAfter(full, t)
  {
    var later := t + 1000 * w;
    FreshIsEnd(full, 0, later);
    assert full[0..] == full;
    assert again.allowed <==> First(full, 0, later) > 0;
    WaitMeaning(WINDOW_MS - (t - full[0]), w);
  }

  lemma WaitMeaning(ms: int, w: nat)
    requires ms > 0
    ensures 1000 * w >= ms <==> w >= CeilSeconds(ms)
    ensures CeilSeconds(ms) >= 1
  {
  }

  /** With a limit of zero or less nobody is ever admitted, and the wait named is always 60 s. */
  lemma NoLimitNoEntry(calls: Calls, c: Call, limit: int)
    requires limit <= 0
    ensures Answer(calls, c, limit) == Decision(false, 60)
  {
    OnlyEmptyWindows(calls, c.bearer, limit);
  }

  lemma {:induction false} OnlyEmptyWindows(calls: Calls, bearer: string, limit: int)
    requires limit <= 0
    ensures Window(Windows(calls, limit), bearer) == []
  {
    match calls
    case NoCalls =>
    case Then(before, _) => OnlyEmptyWindows(before, bearer, limit);
  }
}
