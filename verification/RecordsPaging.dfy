/**
 Reading the audit log page by page over a cursor, while the log grows.

 When every row has its own string id, following `next_after` is exact. Rows without an id, such
 as the dispatcher's own audit rows, break it; the last part says exactly when.
 */
module RecordsPaging {
  import opened Wrappers

  datatype Row = Row(id: Option<string>, data: string)

  /** The `limit` query parameter after `parseInt`. */
  datatype LimitParam = Absent | NotANumber | Limit(n: int)

  datatype Reply =
    | MalformedLimit
    | UnknownAfter
    | Page(records: seq<Row>, hasMore: bool, nextAfter: Option<string>)

  datatype Config = Config(defaultLimit: int, maxLimit: int)

  predicate LimitOk(l: LimitParam) {
    match l
    case Absent => true
    case NotANumber => false
    case Limit(n) => n >= 1
  }

  function Max(a: int, b: int): int { if a >= b then a else b }

  function Min(a: int, b: int): int { if a <= b then a else b }

  function EffectiveLimit(l: LimitParam, cfg: Config): int {
    Min(Max(if l.Limit? then l.n else cfg.defaultLimit, 1), cfg.maxLimit)
  }

  /** `findIndex` on the id, from row k on. */
  function FindFrom(rows: seq<Row>, id: string, k: nat): (r: Option<nat>)
    requires k <= |rows|
    ensures r.Some? ==> r.value < |rows|
    decreases |rows| - k
  {
    if k == |rows| then None
    else if rows[k].id == Some(id) then Some(k)
    else FindFrom(rows, id, k + 1)
  }

  function FindId(rows: seq<Row>, id: string): (r: Option<nat>)
    ensures r.Some? ==> r.value < |rows|
  {
    FindFrom(rows, id, 0)
  }

  /** It is the first row with the id, and None only when no row has it. */
  lemma {:induction false} FindsFirst(rows: seq<Row>, id: string, k: nat)
    requires k <= |rows|
    ensures
      match FindFrom(rows, id, k)
      case Some(i) => k <= i && rows[i].id == Some(id) && forall j :: k <= j < i ==> rows[j].id != Some(id)
      case None => forall j :: k <= j < |rows| ==> rows[j].id != Some(id)
    decreases |rows| - k
  {
    if k < |rows| && rows[k].id != Some(id) { FindsFirst(rows, id, k + 1); }
  }

  /** The row the page starts at; None for an id nobody carries. */
  function Start(all: seq<Row>, after: Option<string>): (r: Option<nat>)
    ensures r.Some? ==> r.value <= |all|
  {
    if after.None? then Some(0)
    else match FindId(all, after.value)
      case None => None
      case Some(i) => Some(i + 1)
  }

  /** The route's answer over a snapshot of the log. */
  function Answer(all: seq<Row>, after: Option<string>, l: LimitParam, cfg: Config): Reply
    requires cfg.maxLimit >= 1
  {
    if !LimitOk(l) then MalformedLimit
    else
      var limit := EffectiveLimit(l, cfg);
      match Start(all, after)
      case None => UnknownAfter
      case Some(start) =>
        var page := all[start..Min(start + limit, |all|)];
        Page(page, start + limit < |all|, if page == [] then None else page[|page| - 1].id)
  }

  /** The route's answer, from the log alone. A limit that is no positive number is malformed, and an
      `after` that no row carries is unknown. Otherwise the page starts after the first row that carries
      it, or at row 0, and holds as many rows as asked for, the maximum and the log allow. */
  lemma AnswerExact(all: seq<Row>, after: Option<string>, l: LimitParam, cfg: Config) returns (start: nat)
    requires cfg.maxLimit >= 1
    ensures
      var r := Answer(all, after, l, cfg);
      var malformed := l.NotANumber? || (l.Limit? && l.n < 1);
      && (r == MalformedLimit <==> malformed)
      && (r == UnknownAfter <==> !malformed && after.Some? && forall i :: 0 <= i < |all| ==> all[i].id != after)
      && (r.Page? ==>
            && start <= |all| && (after.None? ==> start == 0)
            && (after.Some? ==> start > 0 && all[start - 1].id == after
                                && forall i :: 0 <= i < start - 1 ==> all[i].id != after)
            && var asked := if l.Limit? then l.n else if cfg.defaultLimit < 1 then 1 else cfg.defaultLimit;
            && var limit := if asked > cfg.maxLimit then cfg.maxLimit else asked;
            && (r.hasMore <==> |all| - start > limit)
            && r.records == (if r.hasMore then all[start..start + limit] else all[start..])
            && r.nextAfter == (if r.records == [] then None else r.records[|r.records| - 1].id))
  {
    start := 0;
    if after.Some? {
      FindsFirst(all, after.value, 0);
      if FindId(all, after.value).Some? { start := FindId(all, after.value).value + 1; }
    }
  }

  // ---------------------------------------------------------------- a reader over a growing log

  /** Before each request the log may grow. */
  datatype Round = Round(appended: seq<Row>, limit: LimitParam)

  datatype Reader = Reader(log: seq<Row>, cursor: Option<string>, got: seq<Row>, hasMore: bool)

  /** One request: the cursor follows `next_after` when the reply carries one. */
  function ReadRound(r: Reader, round: Round, cfg: Config): Reader
    requires cfg.maxLimit >= 1
  {
    var log := r.log + round.appended;
    match Answer(log, r.cursor, round.limit, cfg)
    case Page(records, hasMore, next) =>
      Reader(log, if next.Some? then next else r.cursor, r.got + records, hasMore)
    case _ => r.(log := log)
  }

  function ReadRounds(r: Reader, rounds: seq<Round>, cfg: Config): Reader
    requires cfg.maxLimit >= 1
    decreases |rounds|
  {
    if rounds == [] then r else ReadRounds(ReadRound(r, rounds[0], cfg), rounds[1..], cfg)
  }

  ghost predicate AllHaveIds(rows: seq<Row>) {
    forall i :: 0 <= i < |rows| ==> rows[i].id.Some?
  }

  ghost predicate UniqueIds(rows: seq<Row>) {
    && AllHaveIds(rows)
    && (forall i, j :: 0 <= i < j < |rows| ==> rows[i].id != rows[j].id)
  }

  /** The reader holds a beginning of the log and its cursor names the last row of it. */
  ghost predicate InStep(r: Reader) {
    && r.got <= r.log
    && r.cursor == (if r.got == [] then None else r.got[|r.got| - 1].id)
  }

  /** The id of row n - 1 leads back to it, so a page can continue at row n. */
  ghost predicate Findable(log: seq<Row>, n: nat)
    requires n <= |log|
  {
    n == 0 || (log[n - 1].id.Some? && FindId(log, log[n - 1].id.value) == Some(n - 1))
  }

  lemma UniqueFindable(log: seq<Row>, n: nat)
    requires UniqueIds(log) && n <= |log|
    ensures Findable(log, n)
  {
    if n > 0 { FindsFirst(log, log[n - 1].id.value, 0); }
  }

  /** The rows the page ends before. */
  function PageEnd(log: seq<Row>, from: nat, limit: int): int {
    Min(from + limit, |log|)
  }

  lemma StartInStep(log: seq<Row>, n: nat, cursor: Option<string>)
    requires n <= |log| && Findable(log, n)
    requires cursor == (if n == 0 then None else log[n - 1].id)
    ensures Start(log, cursor) == Some(n)
  {
  }

  /** One request that starts at row n, wherever the reader itself stands. */
  lemma RoundAt(r: Reader, round: Round, n: nat, cfg: Config)
    requires cfg.maxLimit >= 1 && LimitOk(round.limit)
    requires Start(r.log + round.appended, r.cursor) == Some(n)
    ensures
      var log := r.log + round.appended;
      var end := PageEnd(log, n, EffectiveLimit(round.limit, cfg));
      && n <= end <= |log| && (end == n <==> n == |log|)
      && ReadRound(r, round, cfg) ==
         Reader(log, if end > n && log[end - 1].id.Some? then log[end - 1].id else r.cursor,
                r.got + log[n..end], end < |log|)
  {
  }

  /** One request from a reader in step continues right where it stopped. */
  lemma RoundContinues(r: Reader, round: Round, cfg: Config)
    requires cfg.maxLimit >= 1 && LimitOk(round.limit)
    requires InStep(r) && Findable(r.log + round.appended, |r.got|) && AllHaveIds(r.log + round.appended)
    ensures
      var r' := ReadRound(r, round, cfg);
      && InStep(r') && r'.log == r.log + round.appended
      && |r'.got| == PageEnd(r'.log, |r.got|, EffectiveLimit(round.limit, cfg))
      && (r'.hasMore <==> |r'.got| < |r'.log|)
  {
    var log, n := r.log + round.appended, |r.got|;
    assert r.got == log[..n];
    StartInStep(log, n, r.cursor);
    RoundAt(r, round, n, cfg);
    PageKeepsStep(r.got, log, n, PageEnd(log, n, EffectiveLimit(round.limit, cfg)), r.cursor);
  }

  lemma PageKeepsStep(got: seq<Row>, log: seq<Row>, n: nat, end: nat, cursor: Option<string>)
    requires n <= end <= |log| && got == log[..n] && AllHaveIds(log)
    requires cursor == (if n == 0 then None else log[n - 1].id)
    ensures
      var next := if end > n && log[end - 1].id.Some? then log[end - 1].id else cursor;
      InStep(Reader(log, next, got + log[n..end], end < |log|)) && |got + log[n..end]| == end
  {
    PrefixGrows(got, log, n, end);
  }

  lemma PrefixGrows(got: seq<Row>, log: seq<Row>, n: nat, end: nat)
    requires n <= end <= |log| && got == log[..n]
    ensures got + log[n..end] == log[..end]
    ensures end > n ==> (got + log[n..end])[end - 1] == log[end - 1]
  {
  }

  /** Following `next_after` with any limits while the log grows returns every row once, in order:
      what has arrived is always a beginning of the log, and `has_more` false means it is all. */
  lemma {:induction false} PagingExact(r: Reader, rounds: seq<Round>, cfg: Config)
    requires cfg.maxLimit >= 1 && InStep(r)
    requires forall i :: 0 <= i < |rounds| ==> LimitOk(rounds[i].limit)
    requires UniqueIds(ReadRounds(r, rounds, cfg).log)
    ensures InStep(ReadRounds(r, rounds, cfg))
    ensures rounds != [] ==>
              var r' := ReadRounds(r, rounds, cfg);
              r'.hasMore <==> r'.got != r'.log
    decreases |rounds|
  {
    if rounds == [] {
    } else {
      LogGrows(ReadRound(r, rounds[0], cfg), rounds[1..], cfg);
      var next := ReadRound(r, rounds[0], cfg);
      var last := ReadRounds(r, rounds, cfg);
      assert next.log == r.log + rounds[0].appended;
      assert UniqueIds(next.log) by {
        assert forall i :: 0 <= i < |next.log| ==> next.log[i] == last.log[i];
      }
      UniqueFindable(next.log, |r.got|);
      RoundContinues(r, rounds[0], cfg);
      PagingExact(next, rounds[1..], cfg);
    }
  }

  lemma {:induction false} LogGrows(r: Reader, rounds: seq<Round>, cfg: Config)
    requires cfg.maxLimit >= 1
    ensures r.log <= ReadRounds(r, rounds, cfg).log
    decreases |rounds|
  {
    if rounds == [] {
    } else {
      LogGrows(ReadRound(r, rounds[0], cfg), rounds[1..], cfg);
    }
  }

  /** Every row has an id that leads back to it. */
  ghost predicate Pageable(log: seq<Row>) {
    AllHaveIds(log) && forall n :: 0 <= n <= |log| ==> Findable(log, n)
  }

  lemma UniquePageable(log: seq<Row>)
    requires UniqueIds(log)
    ensures Pageable(log)
  {
    forall n | 0 <= n <= |log| ensures Findable(log, n) { UniqueFindable(log, n); }
  }

  /** The reader is in step over this log and holds its first k rows. */
  ghost predicate Holds(r: Reader, log: seq<Row>, k: int) {
    InStep(r) && r.log == log && |r.got| == k
  }

  lemma OneMore(r: Reader, log: seq<Row>, k: int, round: Round, cfg: Config)
    requires cfg.maxLimit >= 1 && LimitOk(round.limit) && round.appended == []
    requires Pageable(log) && Holds(r, log, k)
    ensures Holds(ReadRound(r, round, cfg), log, Min(k + EffectiveLimit(round.limit, cfg), |log|))
  {
    assert r.log + [] == r.log;
    RoundContinues(r, round, cfg);
  }

  /** The rows that so many requests ask for together. */
  function Asked(rounds: seq<Round>, cfg: Config): int
    requires cfg.maxLimit >= 1
  {
    if rounds == [] then 0 else EffectiveLimit(rounds[0].limit, cfg) + Asked(rounds[1..], cfg)
  }

  lemma {:induction false} PagingReaches(r: Reader, log: seq<Row>, k: int, rounds: seq<Round>, cfg: Config)
    requires cfg.maxLimit >= 1 && LimitsOk(rounds) && Quiet(rounds) && Pageable(log) && Holds(r, log, k)
    ensures Asked(rounds, cfg) >= |rounds|
    ensures Holds(ReadRounds(r, rounds, cfg), log, Min(k + Asked(rounds, cfg), |log|))
    decreases |rounds|
  {
    if rounds == [] {
    } else {
      OneMore(r, log, k, rounds[0], cfg);
      PagingReaches(ReadRound(r, rounds[0], cfg), log, Min(k + EffectiveLimit(rounds[0].limit, cfg), |log|),
                    rounds[1..], cfg);
    }
  }

  /** The log stays put. */
  predicate Quiet(rounds: seq<Round>) {
    forall i :: 0 <= i < |rounds| ==> rounds[i].appended == []
  }

  predicate LimitsOk(rounds: seq<Round>) {
    forall i :: 0 <= i < |rounds| ==> LimitOk(rounds[i].limit)
  }

  /** Paging a log that stays put ends: requests with any limits bring the rows they ask for together
      while there are that many, and the whole log once there are not, so after as many requests as
      rows were missing at the latest. */
  lemma PagingEnds(r: Reader, rounds: seq<Round>, cfg: Config)
    requires cfg.maxLimit >= 1 && LimitsOk(rounds) && Quiet(rounds) && InStep(r) && UniqueIds(r.log)
    ensures
      var r' := ReadRounds(r, rounds, cfg);
      && r'.got <= r.log && |r'.got| == Min(|r.got| + Asked(rounds, cfg), |r.log|)
      && (|rounds| >= |r.log| - |r.got| ==> r'.got == r.log)
  {
    UniquePageable(r.log);
    PagingEndsAt(r, rounds, cfg, Asked(rounds, cfg), ReadRounds(r, rounds, cfg));
  }

  lemma PagingEndsAt(r: Reader, rounds: seq<Round>, cfg: Config, asked: int, last: Reader)
    requires cfg.maxLimit >= 1 && LimitsOk(rounds) && Quiet(rounds) && InStep(r) && Pageable(r.log)
    requires asked == Asked(rounds, cfg) && last == ReadRounds(r, rounds, cfg)
    ensures last.got <= r.log && |last.got| == Min(|r.got| + asked, |r.log|)
    ensures |rounds| >= |r.log| - |r.got| ==> last.got == r.log
  {
    PagingReaches(r, r.log, |r.got|, rounds, cfg);
    HoldsMeans(last, r.log, Min(|r.got| + asked, |r.log|));
  }

  lemma HoldsMeans(r: Reader, log: seq<Row>, k: int)
    requires Holds(r, log, k)
    ensures r.got <= log && |r.got| == k && (k == |log| ==> r.got == log)
  {
  }

  // ---------------------------------------------------------------- exactly when it works

  /** Every request starts at the row after the last one read. */
  predicate Follows(r: Reader, rounds: seq<Round>, cfg: Config)
    requires cfg.maxLimit >= 1
    decreases |rounds|
  {
    rounds == [] ||
    (Start(r.log + rounds[0].appended, r.cursor) == Some(|r.got|) &&
     Follows(ReadRound(r, rounds[0], cfg), rounds[1..], cfg))
  }

  /** Wherever a page ended, the id of its last row leads back to it in the log of the next request.
      Other rows need no id. */
  ghost predicate EndsLeadBack(log: seq<Row>, n: nat, rounds: seq<Round>, cfg: Config)
    requires cfg.maxLimit >= 1 && n <= |log|
    decreases |rounds|
  {
    rounds == [] ||
    var grown := log + rounds[0].appended;
    && Findable(grown, n)
    && EndsLeadBack(grown, PageEnd(grown, n, EffectiveLimit(rounds[0].limit, cfg)), rounds[1..], cfg)
  }

  /** The cursor of a reader that has read n rows of the log: the id of the last of them, or, if that
      has none, a cursor that leads further back. */
  ghost predicate Placed(r: Reader, n: nat) {
    && |r.got| == n <= |r.log|
    && if n == 0 then r.cursor == None
       else if r.log[n - 1].id.Some? then r.cursor == r.log[n - 1].id
       else Start(r.log, r.cursor).Some? && Start(r.log, r.cursor).value < n
  }

  lemma {:induction false} FindGrows(rows: seq<Row>, more: seq<Row>, id: string, k: nat)
    requires k <= |rows| && FindFrom(rows, id, k).Some?
    ensures FindFrom(rows + more, id, k) == FindFrom(rows, id, k)
    decreases |rows| - k
  {
    if rows[k].id == Some(id) {
    } else {
      FindGrows(rows, more, id, k + 1);
    }
  }

  /** A placed reader's next request continues where it stopped exactly when the last row read leads
      back. */
  lemma StartIff(r: Reader, n: nat, appended: seq<Row>)
    requires Placed(r, n)
    ensures Start(r.log + appended, r.cursor) == Some(n) <==> Findable(r.log + appended, n)
  {
    if n > 0 && r.log[n - 1].id.None? && r.cursor.Some? {
      FindGrows(r.log, appended, r.cursor.value, 0);
    }
  }

  lemma StaysPlaced(r: Reader, n: nat, round: Round, cfg: Config)
    requires cfg.maxLimit >= 1 && LimitOk(round.limit) && Placed(r, n)
    requires Start(r.log + round.appended, r.cursor) == Some(n)
    ensures Placed(ReadRound(r, round, cfg), PageEnd(r.log + round.appended, n, EffectiveLimit(round.limit, cfg)))
  {
    RoundAt(r, round, n, cfg);
    StartIff(r, n, round.appended);
  }

  /** For any limits and any growth of the log, every request continues where the last page ended if
      and only if the last row of every page has an id that leads back to it. */
  lemma {:induction false} FollowsIffEndsLeadBack(r: Reader, n: nat, rounds: seq<Round>, cfg: Config)
    requires cfg.maxLimit >= 1 && LimitsOk(rounds) && Placed(r, n)
    ensures Follows(r, rounds, cfg) <==> EndsLeadBack(r.log, n, rounds, cfg)
    decreases |rounds|
  {
    if rounds == [] {
    } else {
      var log := r.log + rounds[0].appended;
      StartIff(r, n, rounds[0].appended);
      if Start(log, r.cursor) == Some(n) {
        var next := ReadRound(r, rounds[0], cfg);
        RoundAt(r, rounds[0], n, cfg);
        StaysPlaced(r, n, rounds[0], cfg);
        FollowsIffEndsLeadBack(next, PageEnd(log, n, EffectiveLimit(rounds[0].limit, cfg)), rounds[1..], cfg);
      }
    }
  }

  /** And then what has arrived is a beginning of the log, each row once, in order. */
  lemma {:induction false} FollowsExact(r: Reader, rounds: seq<Round>, cfg: Config)
    requires cfg.maxLimit >= 1 && LimitsOk(rounds) && r.got <= r.log && Follows(r, rounds, cfg)
    ensures
      var r' := ReadRounds(r, rounds, cfg);
      r'.got <= r'.log && (rounds != [] ==> (r'.hasMore <==> r'.got != r'.log))
    decreases |rounds|
  {
    if rounds == [] {
    } else {
      var log, n := r.log + rounds[0].appended, |r.got|;
      RoundAt(r, rounds[0], n, cfg);
      PrefixGrows(r.got, log, n, PageEnd(log, n, EffectiveLimit(rounds[0].limit, cfg)));
      FollowsExact(ReadRound(r, rounds[0], cfg), rounds[1..], cfg);
    }
  }

  ghost predicate NoIds(rows: seq<Row>) {
    forall i :: 0 <= i < |rows| ==> rows[i].id.None?
  }

  /** The dispatcher's audit rows carry no id. Over a log of such rows, however it grows and with any
      limits, every request starts at row 0 again; where the page does not reach the end the reader
      is told there is more and given nothing to continue from. */
  lemma {:induction false} IdlessRowsStick(r: Reader, rounds: seq<Round>, limit: LimitParam, cfg: Config)
    requires cfg.maxLimit >= 1 && LimitOk(limit) && r.cursor == None
    requires NoIds(ReadRounds(r, rounds, cfg).log)
    ensures
      var r' := ReadRounds(r, rounds, cfg);
      var end := PageEnd(r'.log, 0, EffectiveLimit(limit, cfg));
      && r'.cursor == None && 0 <= end <= |r'.log|
      && Answer(r'.log, r'.cursor, limit, cfg) == Page(r'.log[..end], end < |r'.log|, None)
    decreases |rounds|
  {
    if rounds == [] {
    } else {
      var next := ReadRound(r, rounds[0], cfg);
      LogGrows(next, rounds[1..], cfg);
      IdleRead(r, rounds[0], ReadRounds(r, rounds, cfg).log, cfg);
      IdlessRowsStick(next, rounds[1..], limit, cfg);
    }
  }

  lemma IdleRead(r: Reader, round: Round, all: seq<Row>, cfg: Config)
    requires cfg.maxLimit >= 1 && r.cursor == None && NoIds(all) && ReadRound(r, round, cfg).log <= all
    ensures ReadRound(r, round, cfg).cursor == None
  {
    if LimitOk(round.limit) {
      RoundAt(r, round, 0, cfg);
      var log := r.log + round.appended;
      assert forall i :: 0 <= i < |log| ==> log[i] == all[i];
    }
  }
}
