/**
 One audit record through the components: the dispatcher's row as the body it appends to the chain,
 and a chain row as the audit reader pages it.
 */
module AuditRecords {
  import opened Wrappers
  import opened Json
  import opened StreamTypes
  import AuditChain
  import Dispatch
  import DispatchLaws
  import RecordsPaging

  predicate Safe(n: int) {
    -9007199254740991 <= n <= 9007199254740991
  }

  /** The counts of a row are safe integers. */
  predicate SafeRow(r: Dispatch.AuditRow) {
    && Safe(r.usage.inputTokens) && Safe(r.usage.outputTokens) && Safe(r.usage.cachedTokens.GetOr(0))
    && Safe(r.latencyMs) && Safe(r.subcode.GetOr(0))
  }

  predicate SafeRows(rows: seq<Dispatch.AuditRow>) {
    forall i :: 0 <= i < |rows| ==> SafeRow(rows[i])
  }

  function TextOrNull(s: Option<string>): Value {
    if s.Some? then Str(s.value) else Null
  }

  function UsageBody(input: SafeInt, output: SafeInt, cached: SafeInt): Value {
    Obj([Field("input_tokens", Num(input)), Field("output_tokens", Num(output)), Field("cached_tokens", Num(cached))])
  }

  /** The members of the body the dispatcher hands to the chain; `iso` prints a time. */
  function BodyMembers(r: Dispatch.AuditRow, iso: int -> string): seq<Field>
    requires SafeRow(r)
  {
    [Field("timestamp", Str(iso(r.timestamp))),
     Field("kind", Str("dispatch")),
     Field("dispatch_id", Str(r.dispatchId)),
     Field("session_id", Str(r.sessionId)),
     Field("turn_id", Str(r.turnId)),
     Field("billing_tag", Str(r.billingTag)),
     Field("stop_reason", Str(StopName(r.stopReason))),
     Field("dispatcher_error_code", if r.errorCode.Some? then Str(ErrorName(r.errorCode.value)) else Null),
     Field("provider", Str(r.provider)),
     Field("provider_request_id", TextOrNull(r.providerRequestId)),
     Field("usage", UsageBody(r.usage.inputTokens, r.usage.outputTokens, r.usage.cachedTokens.GetOr(0))),
     Field("latency_ms", Num(r.latencyMs)),
     Field("subcode", if r.subcode.Some? then Num(r.subcode.value) else Null)]
  }

  /** An object literal as a map. */
  function Table(members: seq<Field>): AuditChain.Fields {
    if members == [] then map[]
    else Table(members[..|members| - 1])[members[|members| - 1].key := members[|members| - 1].value]
  }

  function Body(r: Dispatch.AuditRow, iso: int -> string): AuditChain.Fields
    requires SafeRow(r)
  {
    Table(BodyMembers(r, iso))
  }

  lemma OneMoreKey(members: seq<Field>, key: string)
    requires members != [] && HasKey(members[..|members| - 1], key)
    ensures HasKey(members, key)
  {
    var i :| 0 <= i < |members| - 1 && members[..|members| - 1][i].key == key;
    assert members[i].key == key;
  }

  lemma {:induction false} TableHolds(members: seq<Field>)
    requires DistinctKeys(members)
    ensures AuditChain.MembersOf(members, Table(members))
  {
    if members == [] {
    } else {
      var n := |members| - 1;
      TableHolds(members[..n]);
      forall key | key in Table(members) && key != members[n].key ensures HasKey(members, key) {
        OneMoreKey(members, key);
      }
      forall i | 0 <= i < n
        ensures members[i].key in Table(members) && Table(members)[members[i].key] == members[i].value
      {
        assert members[..n][i] == members[i];
      }
    }
  }

  lemma KeysDistinct(r: Dispatch.AuditRow, iso: int -> string)
    requires SafeRow(r)
    ensures DistinctKeys(BodyMembers(r, iso))
  {
    var ms := BodyMembers(r, iso);
    assert |ms[2].key| == |ms[5].key| == |ms[6].key| == 11 && |ms[3].key| == |ms[11].key| == 10;
    assert |ms[4].key| == |ms[12].key| == 7;
    assert ms[2].key[0] == 'd' && ms[5].key[0] == 'b' && ms[6].key[0] == 's';
    assert ms[3].key[0] == 's' && ms[11].key[0] == 'l' && ms[4].key[0] == 't' && ms[12].key[0] == 's';
  }

  function Entries(rows: seq<Dispatch.AuditRow>, iso: int -> string): (es: seq<AuditChain.Entry>)
    requires SafeRows(rows)
    ensures |es| == |rows|
    ensures forall i :: 0 <= i < |rows| ==> es[i] == AuditChain.Entry(Body(rows[i], iso), iso(rows[i].timestamp))
  {
    seq(|rows|, i requires 0 <= i < |rows| => AuditChain.Entry(Body(rows[i], iso), iso(rows[i].timestamp)))
  }

  /** The `id` of a record, if it is a string. */
  function IdOf(core: AuditChain.Fields): Option<string> {
    if "id" in core && core["id"].Str? then Some(core["id"].s) else None
  }

  /** A chain as the audit reader sees it. */
  function Paged(rows: seq<AuditChain.Row>): (pages: seq<RecordsPaging.Row>)
    ensures |pages| == |rows|
    ensures forall i :: 0 <= i < |rows| ==> pages[i] == RecordsPaging.Row(IdOf(rows[i].core), rows[i].thisHash)
  {
    seq(|rows|, i requires 0 <= i < |rows| => RecordsPaging.Row(IdOf(rows[i].core), rows[i].thisHash))
  }

  /** The hash a row names as the one before it. */
  function Before(rows: seq<AuditChain.Row>, k: nat): string
    requires k <= |rows|
  {
    if k == 0 then "GENESIS" else rows[k - 1].thisHash
  }

  /** A record is paged by the string `id` its body came with, if it has one. */
  lemma PagedIds(entries: seq<AuditChain.Entry>, i: nat, id: string, worm: bool,
                 canonical: AuditChain.Fields -> string, hash: string -> string)
    requires i < |entries|
    ensures
      var pages := Paged(AuditChain.AppendAll([], entries, worm, canonical, hash));
      && |pages| == |entries|
      && (pages[i].id == Some(id) <==> "id" in entries[i].body && entries[i].body["id"] == Str(id))
  {
    var chain := AuditChain.AppendAll([], entries, worm, canonical, hash);
    AuditChain.RunKeepsLinks([], entries, worm, canonical, hash);
    AuditChain.RunRecordsEntries([], entries, i, i, worm, canonical, hash);
    AuditChain.CoreKeepsBody(entries[i].body, entries[i].timestamp, Before(chain, i), worm);
    assert |"id"| == 2 && |"timestamp"| == |"prev_hash"| == |"this_hash"| == 9 && |"sink_timestamp"| == 14;
  }

  /** No member but the first has the length of a name the chain fills in, and none that of "id". */
  lemma KeyLengths(r: Dispatch.AuditRow, iso: int -> string, i: nat)
    requires SafeRow(r) && i < 13
    ensures
      var n := |BodyMembers(r, iso)[i].key|;
      n != 2 && n != 14 && (n == 9 <==> i == 0)
  {
  }

  lemma BodyHasNoId(r: Dispatch.AuditRow, iso: int -> string)
    requires SafeRow(r)
    ensures "id" !in Body(r, iso)
  {
    KeysDistinct(r, iso);
    TableHolds(BodyMembers(r, iso));
    if HasKey(BodyMembers(r, iso), "id") {
      var i :| 0 <= i < 13 && BodyMembers(r, iso)[i].key == "id";
      KeyLengths(r, iso, i);
      assert false;
    }
  }

  lemma ChainCore(rows: seq<Dispatch.AuditRow>, k: nat, iso: int -> string, worm: bool,
                  canonical: AuditChain.Fields -> string, hash: string -> string)
    requires SafeRows(rows) && k < |rows|
    ensures
      var chain := AuditChain.AppendAll([], Entries(rows, iso), worm, canonical, hash);
      && |chain| == |rows|
      && chain[k].core == AuditChain.Core(Body(rows[k], iso), iso(rows[k].timestamp), Before(chain, k), worm)
  {
    AuditChain.RunKeepsLinks([], Entries(rows, iso), worm, canonical, hash);
    AuditChain.RunRecordsEntries([], Entries(rows, iso), k, k, worm, canonical, hash);
  }

  /** The chain never adds an id, so the dispatcher's rows have none. */
  lemma DispatchRowsIdless(rows: seq<Dispatch.AuditRow>, iso: int -> string, worm: bool,
                           canonical: AuditChain.Fields -> string, hash: string -> string)
    requires SafeRows(rows)
    ensures RecordsPaging.NoIds(Paged(AuditChain.AppendAll([], Entries(rows, iso), worm, canonical, hash)))
  {
    var chain := AuditChain.AppendAll([], Entries(rows, iso), worm, canonical, hash);
    AuditChain.RunKeepsLinks([], Entries(rows, iso), worm, canonical, hash);
    forall k: nat | k < |chain| ensures IdOf(chain[k].core).None? {
      ChainCore(rows, k, iso, worm, canonical, hash);
      BodyHasNoId(rows[k], iso);
      AuditChain.CoreKeepsBody(Body(rows[k], iso), iso(rows[k].timestamp), Before(chain, k), worm);
    }
  }

  lemma UsagePlain(input: SafeInt, output: SafeInt, cached: SafeInt)
    ensures WellFormed(UsageBody(input, output, cached)) && Defined(UsageBody(input, output, cached))
  {
    assert "input_tokens"[0] == 'i' && "output_tokens"[0] == 'o' && "cached_tokens"[0] == 'c';
  }

  lemma BodyPlain(r: Dispatch.AuditRow, iso: int -> string)
    requires SafeRow(r)
    ensures AuditChain.PlainFields(Body(r, iso))
  {
    var body, members := Body(r, iso), BodyMembers(r, iso);
    KeysDistinct(r, iso);
    TableHolds(members);
    UsagePlain(r.usage.inputTokens, r.usage.outputTokens, r.usage.cachedTokens.GetOr(0));
    forall key | key in body ensures WellFormed(body[key]) && Defined(body[key]) {
      assert HasKey(members, key);
      var i :| 0 <= i < |members| && members[i].key == key;
      assert i != 10 ==> members[i].value.Str? || members[i].value.Num? || members[i].value.Null?;
    }
  }

  /** They are plain JSON, so that `AuditChain.JcsTamperEvident` applies to any log of them. */
  lemma DispatchRowsPlain(rows: seq<Dispatch.AuditRow>, iso: int -> string, worm: bool,
                          canonical: AuditChain.Fields -> string, hash: string -> string)
    requires SafeRows(rows)
    ensures AuditChain.PlainRows(AuditChain.AppendAll([], Entries(rows, iso), worm, canonical, hash))
  {
    var chain := AuditChain.AppendAll([], Entries(rows, iso), worm, canonical, hash);
    AuditChain.RunKeepsLinks([], Entries(rows, iso), worm, canonical, hash);
    forall k: nat | k < |chain| ensures AuditChain.PlainFields(chain[k].core) {
      ChainCore(rows, k, iso, worm, canonical, hash);
      BodyPlain(rows[k], iso);
      CorePlain(Body(rows[k], iso), iso(rows[k].timestamp), Before(chain, k), worm);
    }
  }

  lemma CorePlain(body: AuditChain.Fields, timestamp: string, prevHash: string, worm: bool)
    requires AuditChain.PlainFields(body)
    ensures AuditChain.PlainFields(AuditChain.Core(body, timestamp, prevHash, worm))
  {
  }

  /** The record names every field of the dispatcher's row. */
  predicate TellsRow(core: AuditChain.Fields, r: Dispatch.AuditRow, iso: int -> string)
    requires SafeRow(r)
  {
    && Says(core, "timestamp", Str(iso(r.timestamp)))
    && Says(core, "kind", Str("dispatch"))
    && Says(core, "dispatch_id", Str(r.dispatchId))
    && Says(core, "session_id", Str(r.sessionId))
    && Says(core, "turn_id", Str(r.turnId))
    && Says(core, "billing_tag", Str(r.billingTag))
    && Says(core, "stop_reason", Str(StopName(r.stopReason)))
    && Says(core, "dispatcher_error_code", if r.errorCode.Some? then Str(ErrorName(r.errorCode.value)) else Null)
    && Says(core, "provider", Str(r.provider))
    && Says(core, "provider_request_id", TextOrNull(r.providerRequestId))
    && Says(core, "usage", UsageBody(r.usage.inputTokens, r.usage.outputTokens, r.usage.cachedTokens.GetOr(0)))
    && Says(core, "latency_ms", Num(r.latencyMs))
    && Says(core, "subcode", if r.subcode.Some? then Num(r.subcode.value) else Null)
  }

  predicate Says(core: AuditChain.Fields, key: string, v: Value) { key in core && core[key] == v }

  /** The chain keeps the members of the body. */
  lemma CoreAt(r: Dispatch.AuditRow, iso: int -> string, prevHash: string, worm: bool, i: nat)
    requires SafeRow(r) && i < 13
    ensures
      var core, f := AuditChain.Core(Body(r, iso), iso(r.timestamp), prevHash, worm), BodyMembers(r, iso)[i];
      Says(core, f.key, f.value)
  {
    KeysDistinct(r, iso);
    TableHolds(BodyMembers(r, iso));
    AuditChain.CoreKeepsBody(Body(r, iso), iso(r.timestamp), prevHash, worm);
    KeyLengths(r, iso, i);
    assert |"timestamp"| == |"prev_hash"| == |"this_hash"| == 9 && |"sink_timestamp"| == 14;
  }

  /** The k-th row of the chain tells the k-th dispatch row, names the hash before it, and is stamped if
      the sink is WORM. */
  lemma ChainTells(rows: seq<Dispatch.AuditRow>, k: nat, iso: int -> string, worm: bool,
                   canonical: AuditChain.Fields -> string, hash: string -> string)
    requires SafeRows(rows) && k < |rows|
    ensures
      var chain := AuditChain.AppendAll([], Entries(rows, iso), worm, canonical, hash);
      && |chain| == |rows|
      && TellsRow(chain[k].core, rows[k], iso)
      && Says(chain[k].core, "prev_hash", Str(Before(chain, k)))
      && (worm ==> Says(chain[k].core, "sink_timestamp", Str(iso(rows[k].timestamp))))
  {
    var chain := AuditChain.AppendAll([], Entries(rows, iso), worm, canonical, hash);
    ChainCore(rows, k, iso, worm, canonical, hash);
    CoreTells(rows[k], iso, Before(chain, k), worm);
    CoreStamped(rows[k], iso, Before(chain, k), worm);
  }

  lemma CoreTells(r: Dispatch.AuditRow, iso: int -> string, prevHash: string, worm: bool)
    requires SafeRow(r)
    ensures TellsRow(AuditChain.Core(Body(r, iso), iso(r.timestamp), prevHash, worm), r, iso)
  {
    CoreAt(r, iso, prevHash, worm, 0);
    CoreAt(r, iso, prevHash, worm, 1);
    CoreAt(r, iso, prevHash, worm, 2);
    CoreAt(r, iso, prevHash, worm, 3);
    CoreAt(r, iso, prevHash, worm, 4);
    CoreAt(r, iso, prevHash, worm, 5);
    CoreAt(r, iso, prevHash, worm, 6);
    CoreAt(r, iso, prevHash, worm, 7);
    CoreAt(r, iso, prevHash, worm, 8);
    CoreAt(r, iso, prevHash, worm, 9);
    CoreAt(r, iso, prevHash, worm, 10);
    CoreAt(r, iso, prevHash, worm, 11);
    CoreAt(r, iso, prevHash, worm, 12);
  }

  lemma CoreStamped(r: Dispatch.AuditRow, iso: int -> string, prevHash: string, worm: bool)
    requires SafeRow(r)
    ensures
      var core := AuditChain.Core(Body(r, iso), iso(r.timestamp), prevHash, worm);
      && Says(core, "prev_hash", Str(prevHash))
      && (worm ==> Says(core, "sink_timestamp", Str(iso(r.timestamp))))
  {
    KeysDistinct(r, iso);
    TableHolds(BodyMembers(r, iso));
    AuditChain.CoreKeepsBody(Body(r, iso), iso(r.timestamp), prevHash, worm);
    if HasKey(BodyMembers(r, iso), "sink_timestamp") {
      var i :| 0 <= i < 13 && BodyMembers(r, iso)[i].key == "sink_timestamp";
      KeyLengths(r, iso, i);
      assert false;
    }
  }

  /** The enumerations of the specification, in its order, and the names they have in JSON. */
  const STOP_REASONS := [NaturalStop, MaxTurns, UserInterrupt, StopReason.BudgetExhausted, MemoryDegraded,
                         CardVersionDrift, ToolPoolStale, SelfImproveLockBusy, Crash, DispatcherError]
  const STOP_NAMES := ["NaturalStop", "MaxTurns", "UserInterrupt", "BudgetExhausted", "MemoryDegraded",
                       "CardVersionDrift", "ToolPoolStale", "SelfImproveLockBusy", "Crash", "DispatcherError"]
  const ERROR_CODES := DispatchLaws.PROVIDER_CODES + DispatchLaws.DISPATCHER_CODES
  const ERROR_NAMES := ["ProviderRateLimited", "ProviderAuthFailed", "ProviderUnavailable", "ProviderNetworkFailed",
                        "ContentFilterRefusal", "ContextLengthExceeded", "DispatcherRequestInvalid",
                        "DispatcherStreamUnsupported", "DispatcherAdapterError"]

  lemma NamesListed()
    ensures |STOP_NAMES| == |STOP_REASONS| && |ERROR_NAMES| == |ERROR_CODES|
    ensures forall i :: 0 <= i < 10 ==> StopName(STOP_REASONS[i]) == STOP_NAMES[i]
    ensures forall i :: 0 <= i < 9 ==> ErrorName(ERROR_CODES[i]) == ERROR_NAMES[i]
  {
  }

  /** The names in a row tell stop reasons apart, and error codes. */
  lemma NamesDistinct(s: StopReason, t: StopReason, c: ErrorCode, d: ErrorCode)
    ensures StopName(s) == StopName(t) <==> s == t
    ensures ErrorName(c) == ErrorName(d) <==> c == d
  {
    if StopName(s) == StopName(t) { StopNamesDistinct(s, t); }
    if ErrorName(c) == ErrorName(d) { ErrorNamesDistinct(c, d); }
  }

  lemma StopNamesDistinct(s: StopReason, t: StopReason)
    requires StopName(s) == StopName(t)
    ensures s == t
  {
    assert |StopName(s)| == |StopName(t)| && StopName(s)[0] == StopName(t)[0];
  }

  lemma ErrorNamesDistinct(c: ErrorCode, d: ErrorCode)
    requires ErrorName(c) == ErrorName(d)
    ensures c == d
  {
    assert |ErrorName(c)| == |ErrorName(d)| && ErrorName(c)[0] == ErrorName(d)[0] && ErrorName(c)[8] == ErrorName(d)[8];
  }

  /** A dispatch the budget refuses, in the chain. */
  lemma RefusedChained(ops: seq<DispatchLaws.Op>, q: Request, w: Dispatch.World, provider: string, ringSize: nat,
                       iso: int -> string, worm: bool, canonical: AuditChain.Fields -> string, hash: string -> string)
    requires
      var refused := DispatchLaws.Sync(q, w, true, true);
      SafeRows(DispatchLaws.RunOps(ops + [refused], provider, ringSize).audit)
    ensures
      var refused := DispatchLaws.Sync(q, w, true, true);
      var audit := DispatchLaws.RunOps(ops + [refused], provider, ringSize).audit;
      var chain := AuditChain.AppendAll([], Entries(audit, iso), worm, canonical, hash);
      && |chain| == |DispatchLaws.RunOps(ops, provider, ringSize).audit| + 1
      && TellsRefusal(chain[|chain| - 1].core, q, provider)
  {
    var refused := DispatchLaws.Sync(q, w, true, true);
    LastRow(ops, refused, provider, ringSize);
    DispatchLaws.RefusedRow(DispatchLaws.RunOps(ops, provider, ringSize), q, w, provider, ringSize);
    var audit := DispatchLaws.RunOps(ops + [refused], provider, ringSize).audit;
    ChainTells(audit, |audit| - 1, iso, worm, canonical, hash);
    RefusalTold(AuditChain.AppendAll([], Entries(audit, iso), worm, canonical, hash)[|audit| - 1].core,
                audit[|audit| - 1], iso, q, provider);
  }

  lemma LastRow(ops: seq<DispatchLaws.Op>, op: DispatchLaws.Op, provider: string, ringSize: nat)
    ensures DispatchLaws.RunOps(ops + [op], provider, ringSize) ==
            DispatchLaws.Step(DispatchLaws.RunOps(ops, provider, ringSize), op, provider, ringSize)
  {
    assert (ops + [op])[..|ops|] == ops;
  }

  /** The record of a refusal. */
  predicate TellsRefusal(core: AuditChain.Fields, q: Request, provider: string) {
    && Says(core, "kind", Str("dispatch")) && Says(core, "stop_reason", Str("BudgetExhausted"))
    && Says(core, "dispatcher_error_code", Null) && Says(core, "subcode", Null)
    && Says(core, "session_id", Str(q.sessionId)) && Says(core, "billing_tag", Str(q.billingTag))
    && Says(core, "provider", Str(provider)) && Says(core, "provider_request_id", Null)
    && Says(core, "usage", Obj([Field("input_tokens", Num(0)), Field("output_tokens", Num(0)),
                                Field("cached_tokens", Num(0))]))
  }

  lemma RefusalTold(core: AuditChain.Fields, r: Dispatch.AuditRow, iso: int -> string, q: Request, provider: string)
    requires SafeRow(r) && TellsRow(core, r, iso)
    requires r.stopReason == StopReason.BudgetExhausted && r.errorCode == None && r.subcode == None
    requires r.sessionId == q.sessionId && r.billingTag == q.billingTag && r.provider == provider
    requires r.providerRequestId == None && r.usage == Usage(0, 0, Some(0))
    ensures TellsRefusal(core, q, provider)
  {
  }

  /** After any run of dispatches, a reader that starts at the beginning of their audit log and follows
      its cursor, with any limits and while the log grows up to that run, is at row 0 again at every
      request; a page short of the end says there is more and gives nothing to continue from. */
  lemma DispatchLogSticks(ops: seq<DispatchLaws.Op>, provider: string, ringSize: nat, iso: int -> string,
                          worm: bool, canonical: AuditChain.Fields -> string, hash: string -> string,
                          r: RecordsPaging.Reader, rounds: seq<RecordsPaging.Round>, limit: RecordsPaging.LimitParam,
                          cfg: RecordsPaging.Config)
    requires cfg.maxLimit >= 1 && RecordsPaging.LimitOk(limit) && r.cursor == None
    requires SafeRows(DispatchLaws.RunOps(ops, provider, ringSize).audit)
    requires
      var audit := DispatchLaws.RunOps(ops, provider, ringSize).audit;
      RecordsPaging.ReadRounds(r, rounds, cfg).log ==
      Paged(AuditChain.AppendAll([], Entries(audit, iso), worm, canonical, hash))
    ensures
      var r' := RecordsPaging.ReadRounds(r, rounds, cfg);
      var end := RecordsPaging.PageEnd(r'.log, 0, RecordsPaging.EffectiveLimit(limit, cfg));
      && 0 <= end <= |r'.log|
      && RecordsPaging.Answer(r'.log, r'.cursor, limit, cfg) ==
         RecordsPaging.Page(r'.log[..end], end < |r'.log|, None)
  {
    DispatchRowsIdless(DispatchLaws.RunOps(ops, provider, ringSize).audit, iso, worm, canonical, hash);
    RecordsPaging.IdlessRowsStick(r, rounds, limit, cfg);
  }
}
