/**
 The token budget: a sliding window of turns per session, the projection of the next turn, and
 the two gates built on it.
 */
module Budget {
  import opened Wrappers
  import opened Percentile

  datatype Turn = Turn(actualTotalTokens: int, promptCached: Option<int>, completionCached: Option<int>)

  datatype SessionBudget = SessionBudget(
    turns: seq<Turn>,
    cumulative: int,
    promptCachedTotal: int,
    completionCachedTotal: int)

  const EMPTY_SESSION := SessionBudget([], 0, 0, 0)

  const MIN_SAMPLES_FOR_P95 := 3
  const COLD_START_FLOOR := 4096
  const COLD_START_OVERHEAD := 2048
  const SAFETY_FACTOR := 1.15

  // ---------------------------------------------------------------- recording

  function AddTurn(s: SessionBudget, t: Turn, window: nat): SessionBudget {
    var pushed := s.turns + [t];
    SessionBudget(
      if |pushed| > window then pushed[1..] else pushed,
      s.cumulative + t.actualTotalTokens,
      s.promptCachedTotal + t.promptCached.GetOr(0),
      s.completionCachedTotal + t.completionCached.GetOr(0))
  }

  type Sessions = map<string, SessionBudget>

  function Init(m: Sessions, id: string): Sessions {
    if id in m then m else m[id := EMPTY_SESSION]
  }

  function Record(m: Sessions, id: string, t: Turn, window: nat): Sessions {
    var m' := Init(m, id);
    m'[id := AddTurn(m'[id], t, window)]
  }

  // ---------------------------------------------------------------- projecting

  datatype Projection = Projection(
    remaining: int,
    maxTokensPerRun: int,
    cumulative: int,
    p95: real,
    headroom: int,
    coldStart: bool,
    promptCached: int,
    completionCached: int)

  /** `slice(-window)`, where a window of zero keeps everything. */
  function LastTurns(turns: seq<Turn>, window: nat): seq<Turn> {
    if window == 0 || |turns| <= window then turns else turns[|turns| - window..]
  }

  function Totals(turns: seq<Turn>): (r: seq<int>)
    ensures |r| == |turns| && forall i :: 0 <= i < |r| ==> r[i] == turns[i].actualTotalTokens
  {
    seq(|turns|, i requires 0 <= i < |turns| => turns[i].actualTotalTokens)
  }

  function Max(a: int, b: int): int {
    if a >= b then a else b
  }

  function Baseline(tokensInMessageStack: int): int {
    Max(tokensInMessageStack + COLD_START_OVERHEAD, COLD_START_FLOOR)
  }

  /** The projected cost of the next turn. */
  function PerTurn(s: SessionBudget, window: nat, tokensInMessageStack: int): int {
    var recent := Totals(LastTurns(s.turns, window));
    if |recent| < MIN_SAMPLES_FOR_P95 then Baseline(tokensInMessageStack)
    else Ceil(Percentile95(recent) * SAFETY_FACTOR)
  }

  /** `Math.round(x * 1000) / 1000`. */
  function RoundThousandths(x: real): real {
    (x * 1000.0 + 0.5).Floor as real / 1000.0
  }

  function Project(s: SessionBudget, window: nat, maxTokens: int, tokensInMessageStack: int): Projection {
    var recent := Totals(LastTurns(s.turns, window));
    var cold := |recent| < MIN_SAMPLES_FOR_P95;
    var perTurn := PerTurn(s, window, tokensInMessageStack);
    var remaining := maxTokens - s.cumulative;
    Projection(
      remaining,
      maxTokens,
      s.cumulative,
      if cold then Baseline(tokensInMessageStack) as real else RoundThousandths(Percentile95(recent)),
      if perTurn > 0 then remaining / perTurn else 0,
      cold,
      s.promptCachedTotal,
      s.completionCachedTotal)
  }

  /** `wouldExhaust` on a session's projection. */
  predicate WouldExhaust(p: Projection, maxTokens: int) {
    var next := if p.coldStart then p.p95 else Ceil(p.p95 * SAFETY_FACTOR) as real;
    p.cumulative as real + next > maxTokens as real
  }

  /** The dispatcher's pre-check, coded apart from `wouldExhaust`. */
  predicate DispatchRefused(p: Projection, ceiling: int) {
    p.cumulative as real + p.p95 * SAFETY_FACTOR > ceiling as real
  }

  // ---------------------------------------------------------------- the tracker

  class BudgetTracker {
    const projectionWindow: nat
    const maxTokensPerRun: int
    var states: Sessions

    constructor (projectionWindow: nat := 10, maxTokensPerRun: int := 200000)
      ensures states == map[]
      ensures this.projectionWindow == projectionWindow && this.maxTokensPerRun == maxTokensPerRun
    {
      this.projectionWindow, this.maxTokensPerRun := projectionWindow, maxTokensPerRun;
      states := map[];
    }

    method InitFor(id: string)
      modifies this
      ensures states == Init(old(states), id)
    {
      if id !in states {
        states := states[id := EMPTY_SESSION];
      }
    }

    method RecordTurn(id: string, t: Turn)
      modifies this
      ensures states == Record(old(states), id, t, projectionWindow)
    {
      InitFor(id);
      var s := states[id];
      var turns := s.turns + [t];
      if |turns| > projectionWindow {
        turns := turns[1..];
      }
      var prompt, completion := s.promptCachedTotal, s.completionCachedTotal;
      if t.promptCached.Some? {
        prompt := prompt + t.promptCached.value;
      }
      if t.completionCached.Some? {
        completion := completion + t.completionCached.value;
      }
      states := states[id := SessionBudget(turns, s.cumulative + t.actualTotalTokens, prompt, completion)];
    }

    method Remove(id: string)
      modifies this
      ensures states == old(states) - {id}
    {
      states := states - {id};
    }

    predicate Has(id: string)
      reads this
    {
      id in states
    }

    function GetProjection(id: string, tokensInMessageStack: int): Option<Projection>
      reads this
    {
      if id in states
      then Some(Project(states[id], projectionWindow, maxTokensPerRun, tokensInMessageStack))
      else None
    }
  }

  // ---------------------------------------------------------------- runs

  datatype Op = InitOp(id: string) | RecordOp(id: string, turn: Turn) | RemoveOp(id: string)

  function Step(m: Sessions, op: Op, window: nat): Sessions {
    match op
    case InitOp(id) => Init(m, id)
    case RecordOp(id, t) => Record(m, id, t, window)
    case RemoveOp(id) => m - {id}
  }

  function RunOps(ops: seq<Op>, window: nat): Sessions {
    if ops == [] then map[] else Step(RunOps(ops[..|ops| - 1], window), ops[|ops| - 1], window)
  }

  /** The turns a session recorded since it was last removed; None when it does not exist. */
  function Recorded(ops: seq<Op>, id: string): Option<seq<Turn>> {
    if ops == [] then None
    else
      var before := Recorded(ops[..|ops| - 1], id);
      var op := ops[|ops| - 1];
      if op.id != id then before
      else match op
        case InitOp(_) => Some(before.GetOr([]))
        case RecordOp(_, t) => Some(before.GetOr([]) + [t])
        case RemoveOp(_) => None
  }

  function LastOf(turns: seq<Turn>, window: nat): seq<Turn> {
    if |turns| <= window then turns else turns[|turns| - window..]
  }

  function SumTokens(turns: seq<Turn>): int {
    if turns == [] then 0 else SumTokens(turns[..|turns| - 1]) + turns[|turns| - 1].actualTotalTokens
  }

  function SumPrompt(turns: seq<Turn>): int {
    if turns == [] then 0 else SumPrompt(turns[..|turns| - 1]) + turns[|turns| - 1].promptCached.GetOr(0)
  }

  function SumCompletion(turns: seq<Turn>): int {
    if turns == [] then 0 else SumCompletion(turns[..|turns| - 1]) + turns[|turns| - 1].completionCached.GetOr(0)
  }

  function Summary(turns: seq<Turn>, window: nat): SessionBudget {
    SessionBudget(LastOf(turns, window), SumTokens(turns), SumPrompt(turns), SumCompletion(turns))
  }

  lemma SummaryStep(turns: seq<Turn>, t: Turn, window: nat)
    ensures AddTurn(Summary(turns, window), t, window) == Summary(turns + [t], window)
  {
    assert (turns + [t])[..|turns|] == turns;
    LastOfSnoc(turns, t, window);
  }

  lemma LastOfSnoc(turns: seq<Turn>, t: Turn, window: nat)
    ensures
      var pushed := LastOf(turns, window) + [t];
      LastOf(turns + [t], window) == if |pushed| > window then pushed[1..] else pushed
  {
  }

  /** Over every run, a session exists exactly while it is recorded, its window is the last W turns
      recorded and its totals are the sums over all of them. */
  lemma {:induction false} RunKeepsHistory(ops: seq<Op>, window: nat, id: string)
    ensures id in RunOps(ops, window) <==> Recorded(ops, id).Some?
    ensures Recorded(ops, id).Some? ==> RunOps(ops, window)[id] == Summary(Recorded(ops, id).value, window)
  {
    if ops == [] {
    } else {
      var init, op := ops[..|ops| - 1], ops[|ops| - 1];
      RunKeepsHistory(init, window, id);
      if op.id == id && op.RecordOp? {
        SummaryStep(Recorded(init, id).GetOr([]), op.turn, window);
      }
    }
  }

  /** So the percentile is taken over exactly the last W recorded turns. */
  lemma ProjectionInput(ops: seq<Op>, window: nat, id: string)
    requires Recorded(ops, id).Some?
    ensures id in RunOps(ops, window)
    ensures LastTurns(RunOps(ops, window)[id].turns, window) == LastOf(Recorded(ops, id).value, window)
  {
    RunKeepsHistory(ops, window, id);
  }

  /** The cost of the next turn, from the turns recorded: fewer than three in the window, and it is the
      stack and 2048 tokens, at least 4096; else 1.15 times the percentile of the window, rounded up. */
  function NextTurn(history: seq<Turn>, window: nat, tokens: int): int {
    var recent := Totals(LastOf(history, window));
    if |recent| < 3 then (if tokens < 2048 then 4096 else tokens + 2048) else Ceil(1.15 * Percentile95(recent))
  }

  lemma CostExact(ops: seq<Op>, window: nat, id: string, tokens: int)
    requires Recorded(ops, id).Some? && id in RunOps(ops, window)
    ensures PerTurn(RunOps(ops, window)[id], window, tokens) == NextTurn(Recorded(ops, id).value, window, tokens)
  {
    ProjectionInput(ops, window, id);
  }

  /** What a session's projection says, from the turns recorded. */
  lemma ProjectionExact(ops: seq<Op>, window: nat, id: string, maxTokens: int, tokens: int)
    requires Recorded(ops, id).Some? && id in RunOps(ops, window)
    ensures
      var history := Recorded(ops, id).value;
      var recent := Totals(LastOf(history, window));
      var p := Project(RunOps(ops, window)[id], window, maxTokens, tokens);
      && (p.coldStart <==> |recent| < 3)
      && p.cumulative == SumTokens(history) && p.remaining == maxTokens - SumTokens(history)
      && p.maxTokensPerRun == maxTokens
      && p.promptCached == SumPrompt(history) && p.completionCached == SumCompletion(history)
      && p.p95 == if |recent| < 3 then NextTurn(history, window, tokens) as real else Percentile95(recent)
  {
    ProjectionInput(ops, window, id);
    RunKeepsHistory(ops, window, id);
    SessionProjected(RunOps(ops, window)[id], window, maxTokens, tokens);
  }

  lemma SessionProjected(s: SessionBudget, window: nat, maxTokens: int, tokens: int)
    ensures
      var recent := Totals(LastTurns(s.turns, window));
      var p := Project(s, window, maxTokens, tokens);
      && (p.coldStart <==> |recent| < 3)
      && p.cumulative == s.cumulative && p.remaining == maxTokens - s.cumulative && p.maxTokensPerRun == maxTokens
      && p.promptCached == s.promptCachedTotal && p.completionCached == s.completionCachedTotal
      && p.p95 == if |recent| < 3 then (if tokens < 2048 then 4096 else tokens + 2048) as real
                  else Percentile95(recent)
  {
    var recent := Totals(LastTurns(s.turns, window));
    if |recent| >= 3 { RoundingExact(recent); }
  }

  lemma WholeTimes(left: int, cost: int)
    requires cost > 0
    ensures left / cost * cost <= left < (left / cost + 1) * cost
  {
  }

  /** The headroom is how often the next turn fits into what is left, or 0 if it costs nothing. */
  lemma HeadroomExact(s: SessionBudget, window: nat, maxTokens: int, tokens: int)
    ensures
      var p, cost := Project(s, window, maxTokens, tokens), PerTurn(s, window, tokens);
      if cost > 0 then p.headroom * cost <= p.remaining < (p.headroom + 1) * cost else p.headroom == 0
  {
    if PerTurn(s, window, tokens) > 0 { WholeTimes(maxTokens - s.cumulative, PerTurn(s, window, tokens)); }
  }

  /** The two gates, from the turns recorded: `wouldExhaust` on the projection, and the dispatcher's check
      of a session against the request's ceiling. */
  lemma GatesExact(ops: seq<Op>, window: nat, id: string, maxTokens: int, tokens: int, ceiling: int)
    requires Recorded(ops, id).Some? && id in RunOps(ops, window)
    ensures
      var history := Recorded(ops, id).value;
      var recent := Totals(LastOf(history, window));
      var s := RunOps(ops, window)[id];
      && (WouldExhaust(Project(s, window, maxTokens, tokens), maxTokens) <==>
          SumTokens(history) + NextTurn(history, window, tokens) > maxTokens)
      && (DispatchRefused(Project(s, window, maxTokens, 0), ceiling) <==>
          SumTokens(history) as real + (if |recent| < 3 then 4710.4 else 1.15 * Percentile95(recent))
          > ceiling as real)
  {
    CostExact(ops, window, id, tokens);
    ProjectionExact(ops, window, id, maxTokens, 0);
    RunKeepsHistory(ops, window, id);
    ExhaustMeaning(RunOps(ops, window)[id], window, maxTokens, tokens);
  }

  // ---------------------------------------------------------------- the gates

  /** Rounding to three decimals loses nothing: a twentieth is fifty thousandths. */
  lemma RoundingExact(values: seq<int>)
    requires values != []
    ensures RoundThousandths(Percentile95(values)) == Percentile95(values)
  {
    PercentileTwentieths(values);
    var k := Twentieths(values);
    assert Percentile95(values) * 1000.0 == (50 * k) as real;
    assert ((50 * k) as real + 0.5).Floor == 50 * k;
  }

  lemma CeilAbove(x: real, n: int)
    ensures x > n as real <==> Ceil(x) > n
  {
  }

  lemma HeadroomBelowOne(remaining: int, perTurn: int)
    requires perTurn > 0
    ensures remaining / perTurn < 1 <==> perTurn > remaining
  {
  }

  /** `wouldExhaust` compares the cumulative count and the per-turn projection with the maximum. */
  lemma ExhaustMeaning(s: SessionBudget, window: nat, maxTokens: int, tokens: int)
    ensures WouldExhaust(Project(s, window, maxTokens, tokens), maxTokens)
       <==> s.cumulative + PerTurn(s, window, tokens) > maxTokens
  {
    var recent := Totals(LastTurns(s.turns, window));
    if |recent| >= MIN_SAMPLES_FOR_P95 { RoundingExact(recent); }
  }

  /** The published headroom and the gate agree exactly when the projection is positive, or the
      gate fires anyway. */
  lemma HeadroomAgrees(s: SessionBudget, window: nat, maxTokens: int, tokens: int)
    ensures
      var p := Project(s, window, maxTokens, tokens);
      var perTurn := PerTurn(s, window, tokens);
      (WouldExhaust(p, maxTokens) <==> p.headroom < 1) <==> (perTurn > 0 || s.cumulative + perTurn > maxTokens)
  {
    ExhaustMeaning(s, window, maxTokens, tokens);
    var perTurn := PerTurn(s, window, tokens);
    if perTurn > 0 { HeadroomBelowOne(maxTokens - s.cumulative, perTurn); }
  }

  /** A session where they part: three turns that cost nothing. */
  lemma HeadroomDisagrees(window: nat, maxTokens: int)
    requires window >= 3 && maxTokens >= 0
    ensures
      var free := Turn(0, None, None);
      var s := SessionBudget([free, free, free], 0, 0, 0);
      var p := Project(s, window, maxTokens, 0);
      p.headroom < 1 && !WouldExhaust(p, maxTokens)
  {
    var free := Turn(0, None, None);
    var s := SessionBudget([free, free, free], 0, 0, 0);
    var recent := Totals(LastTurns(s.turns, window));
    assert LastTurns(s.turns, window) == s.turns;
    PercentileBetween(recent, 0, 0);
    assert Percentile95(recent) == 0.0;
    assert PerTurn(s, window, 0) == Ceil(0.0) == 0;
    ExhaustMeaning(s, window, maxTokens, 0);
  }

  /** The two gates, with one ceiling, as the code calls them: `wouldExhaust` is given the size of the
      message stack, the dispatcher projects without it. They agree once warm. At cold start the
      dispatcher is the stricter by fifteen per cent of its floor, and the laxer by the stack it does
      not see; these are the only disagreements. */
  lemma GatesAgree(s: SessionBudget, window: nat, maxTokens: int, tokens: int)
    ensures
      var p, d := Project(s, window, maxTokens, tokens), Project(s, window, maxTokens, 0);
      var left := maxTokens - s.cumulative;
      && p.coldStart == d.coldStart
      && (!p.coldStart ==> (DispatchRefused(d, maxTokens) <==> WouldExhaust(p, maxTokens)))
      && (p.coldStart ==>
            && (DispatchRefused(d, maxTokens) && !WouldExhaust(p, maxTokens) <==> Baseline(tokens) <= left <= 4710)
            && (WouldExhaust(p, maxTokens) && !DispatchRefused(d, maxTokens) <==> 4711 <= left < tokens + 2048))
  {
    var p, d := Project(s, window, maxTokens, tokens), Project(s, window, maxTokens, 0);
    if p.coldStart {
      assert d.p95 * SAFETY_FACTOR == 4710.4;
    } else {
      CeilAbove(d.p95 * SAFETY_FACTOR, maxTokens - s.cumulative);
    }
  }

  /** Where the dispatcher is the laxer: a new session with 5000 tokens left and a stack of 10000. */
  lemma DispatcherLaxer(window: nat)
    ensures
      && WouldExhaust(Project(EMPTY_SESSION, window, 5000, 10000), 5000)
      && !DispatchRefused(Project(EMPTY_SESSION, window, 5000, 0), 5000)
  {
    GatesAgree(EMPTY_SESSION, window, 5000, 10000);
  }

  /** Without a message stack the gap is the headrooms from 4096 to 4710 tokens. */
  lemma ColdStartGap(s: SessionBudget, window: nat, maxTokens: int)
    requires |LastTurns(s.turns, window)| < MIN_SAMPLES_FOR_P95
    ensures
      var p := Project(s, window, maxTokens, 0);
      DispatchRefused(p, maxTokens) && !WouldExhaust(p, maxTokens) <==> 4096 <= maxTokens - s.cumulative <= 4710
  {
  }
}
