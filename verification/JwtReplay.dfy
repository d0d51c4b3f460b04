/**
 Verifying an A2A bearer JWT: the order of the checks, and the replay cache that is pruned only when
 it is asked. Each verification is one step; its clock is read once at the start and once by the
 cache. Times are seconds, whole or not. Key discovery and the signature are parameters.
 */
module JwtReplay {
  const MAX_LIFETIME_S := 300.0
  const RETENTION_EXTRA_S := 30.0

  /** A member of the payload as JSON gives it; undefined and null are both `Missing`. */
  datatype Claim = Missing | Text(s: string) | Number(n: real) | OtherJson

  datatype Claims = Claims(
    iss: Claim, sub: Claim, aud: Claim, iat: Claim, exp: Claim, jti: Claim, etag: Claim)

  /** A segment after base64url and `JSON.parse`. */
  datatype Segment<T> = Unreadable | JsonNull | Decoded(value: T)

  datatype KeyAnswer = ResolverThrew | NoKey | Key

  /** One verification: the token split at its dots, its first two segments decoded, what the key
      resolver and the signature check say about it, and the two readings of the clock. */
  datatype Attempt = Attempt(
    segments: seq<string>,
    header: Segment<Claim>,
    payload: Segment<Claims>,
    key: KeyAnswer,
    signatureOk: bool,
    now: real,
    cacheNow: real)

  datatype Policy = Policy(audience: string, clockSkew: real)

  datatype Outcome =
    | Valid | AuthFailed | BadAlg | KeyNotFound | JtiReplayed | SignatureInvalid
    | Thrown

  const ALLOWED_ALGS := {"EdDSA", "ES256", "RS256"}

  predicate Compact(segments: seq<string>) {
    |segments| == 3 && forall i :: 0 <= i < 3 ==> segments[i] != ""
  }

  predicate Readable(a: Attempt) {
    Compact(a.segments) && !a.header.Unreadable? && !a.payload.Unreadable?
  }

  predicate AlgAllowed(alg: Claim) { alg.Text? && alg.s in ALLOWED_ALGS }

  predicate AllPresent(c: Claims) {
    && !c.iss.Missing? && !c.sub.Missing? && !c.aud.Missing? && !c.iat.Missing?
    && !c.exp.Missing? && !c.jti.Missing? && !c.etag.Missing?
  }

  /** Every claim has its type, and the times and the audience are acceptable. */
  predicate ClaimsHold(c: Claims, now: real, p: Policy) {
    && c.iss.Text? && c.sub.Text? && c.aud == Text(p.audience) && c.etag.Text?
    && c.jti.Text? && c.jti.s != ""
    && c.iat.Number? && c.exp.Number?
    && c.exp.n - c.iat.n <= MAX_LIFETIME_S
    && c.iat.n - p.clockSkew <= now < c.exp.n
  }

  /** Past every check that comes before the replay cache. */
  predicate AsksCache(a: Attempt, p: Policy) {
    && Readable(a)
    && a.header.Decoded? && AlgAllowed(a.header.value)
    && a.payload.Decoded? && ClaimsHold(a.payload.value, a.now, p)
  }

  function Pruned(entries: map<string, real>, now: real): map<string, real> {
    map jti | jti in entries && entries[jti] > now :: entries[jti]
  }

  /** The outcome, given whether the cache holds the token's `jti`. */
  function Judge(a: Attempt, p: Policy, seen: bool): Outcome {
    if AsksCache(a, p) then
      if seen then JtiReplayed
      else if !a.key.Key? then KeyNotFound
      else if a.signatureOk then Valid
      else SignatureInvalid
    else if !Readable(a) then AuthFailed
    else if a.header.JsonNull? then Thrown
    else if !AlgAllowed(a.header.value) then BadAlg
    else if a.payload.JsonNull? then Thrown
    else AuthFailed
  }

  predicate Seen(entries: map<string, real>, a: Attempt, p: Policy) {
    AsksCache(a, p) && a.payload.value.jti.s in Pruned(entries, a.cacheNow)
  }

  function Verdict(entries: map<string, real>, a: Attempt, p: Policy): Outcome {
    Judge(a, p, Seen(entries, a, p))
  }

  function After(entries: map<string, real>, a: Attempt, p: Policy): map<string, real> {
    if !AsksCache(a, p) then entries
    else
      var pruned := Pruned(entries, a.cacheNow);
      if Verdict(entries, a, p) == Valid then
        pruned[a.payload.value.jti.s := a.payload.value.exp.n + RETENTION_EXTRA_S]
      else pruned
  }

  class JtiReplayCache {
    var entries: map<string, real>

    constructor ()
      ensures entries == map[]
    {
      entries := map[];
    }

    method Has(jti: string, now: real) returns (held: bool)
      modifies this
      ensures entries == Pruned(old(entries), now)
      ensures held <==> jti in old(entries) && old(entries)[jti] > now
    {
      PruneExpired(now);
      held := jti in entries;
    }

    method Register(jti: string, exp: real)
      modifies this
      ensures entries == old(entries)[jti := exp + RETENTION_EXTRA_S]
    {
      entries := entries[jti := exp + RETENTION_EXTRA_S];
    }

    method Size(now: real) returns (n: nat)
      modifies this
      ensures entries == Pruned(old(entries), now) && n == |entries|
    {
      PruneExpired(now);
      n := |entries|;
    }

    /** The loop over the map, deleting as it goes. */
    method PruneExpired(now: real)
      modifies this
      ensures entries == Pruned(old(entries), now)
    {
      var left := entries.Keys;
      while left != {}
        invariant left <= old(entries).Keys
        invariant entries.Keys <= old(entries).Keys
        invariant forall k :: k in entries ==> entries[k] == old(entries)[k]
        invariant forall k :: k in old(entries) && k !in entries ==> k !in left && old(entries)[k] <= now
        invariant forall k :: k in entries && k !in left ==> entries[k] > now
        decreases left
      {
        var jti :| jti in left;
        left := left - {jti};
        if entries[jti] <= now {
          entries := entries - {jti};
        }
      }
    }
  }

  method Verify(a: Attempt, p: Policy, cache: JtiReplayCache) returns (outcome: Outcome)
    modifies cache
    ensures outcome == Verdict(old(cache.entries), a, p)
    ensures cache.entries == After(old(cache.entries), a, p)
  {
    if |a.segments| != 3 || exists i :: 0 <= i < |a.segments| && a.segments[i] == "" {
      return AuthFailed;
    }
    if a.header.Unreadable? { return AuthFailed; }
    if a.payload.Unreadable? { return AuthFailed; }
    if a.header.JsonNull? { return Thrown; }
    if !a.header.value.Text? || a.header.value.s !in ALLOWED_ALGS { return BadAlg; }
    if a.payload.JsonNull? { return Thrown; }
    var c := a.payload.value;
    if !AllPresent(c) { return AuthFailed; }
    if !c.iat.Number? || !c.exp.Number? { return AuthFailed; }
    if !c.jti.Text? || c.jti.s == "" { return AuthFailed; }
    if !c.iss.Text? || !c.sub.Text? || !c.aud.Text? { return AuthFailed; }
    if !c.etag.Text? { return AuthFailed; }
    if c.exp.n - c.iat.n > MAX_LIFETIME_S { return AuthFailed; }
    if c.exp.n <= a.now { return AuthFailed; }
    if c.iat.n > a.now + p.clockSkew { return AuthFailed; }
    if c.aud.s != p.audience { return AuthFailed; }
    assert AsksCache(a, p);
    var seen := cache.Has(c.jti.s, a.cacheNow);
    if seen { return JtiReplayed; }
    if !a.key.Key? { return KeyNotFound; }
    if !a.signatureOk { return SignatureInvalid; }
    cache.Register(c.jti.s, c.exp.n);
    return Valid;
  }

  // ---------------------------------------------------------------- what each outcome means

  /** A token in three nonempty parts whose header and payload are JSON texts. */
  predicate Legible(a: Attempt) {
    && |a.segments| == 3 && "" !in a.segments
    && a.header != Segment<Claim>.Unreadable && a.payload != Segment<Claims>.Unreadable
  }

  predicate KnownAlg(header: Segment<Claim>) {
    header in {Decoded(Text("EdDSA")), Decoded(Text("ES256")), Decoded(Text("RS256"))}
  }

  /** Everything that is asked of a token before the replay cache, its key and its signature: it lives at
      most 300 seconds, and now is in its time, but for the skew allowed at its start. */
  predicate Acceptable(a: Attempt, p: Policy) {
    && Legible(a) && KnownAlg(a.header) && a.payload.Decoded?
    && var c := a.payload.value;
    && c.iss.Text? && c.sub.Text? && c.aud == Text(p.audience) && c.etag.Text?
    && c.jti.Text? && |c.jti.s| > 0
    && c.iat.Number? && c.exp.Number?
    && c.exp.n - c.iat.n <= 300.0 && c.exp.n > a.now && c.iat.n <= a.now + p.clockSkew
  }

  /** The cache holds the token's id past the moment it is asked. */
  predicate HeldAt(entries: map<string, real>, a: Attempt, p: Policy)
    requires Acceptable(a, p)
  {
    a.payload.value.jti.s in entries && entries[a.payload.value.jti.s] > a.cacheNow
  }

  lemma AskedIfAcceptable(a: Attempt, p: Policy)
    ensures Acceptable(a, p) <==> AsksCache(a, p)
    ensures Legible(a) <==> Readable(a)
    ensures KnownAlg(a.header) <==> a.header.Decoded? && AlgAllowed(a.header.value)
  {
    assert (forall i :: 0 <= i < |a.segments| ==> a.segments[i] != "") <==> "" !in a.segments;
  }

  /** What acceptance means: acceptable by itself, not a replay, key found, signature good. Its expiry is
      then at most the skew and 300 seconds ahead. */
  lemma ValidMeans(entries: map<string, real>, a: Attempt, p: Policy)
    ensures Verdict(entries, a, p) == Valid <==>
            Acceptable(a, p) && !HeldAt(entries, a, p) && a.key == Key && a.signatureOk
    ensures Verdict(entries, a, p) == Valid ==> a.payload.value.exp.n <= a.now + p.clockSkew + 300.0
  {
    AskedIfAcceptable(a, p);
  }

  /** And every other outcome: the one condition of each; a token that is none of these fails to
      authenticate. */
  lemma RefusalsMean(entries: map<string, real>, a: Attempt, p: Policy)
    ensures
      var v, asks := Verdict(entries, a, p), Acceptable(a, p);
      && (v == JtiReplayed <==> asks && HeldAt(entries, a, p))
      && (v == KeyNotFound <==> asks && !HeldAt(entries, a, p) && a.key != Key)
      && (v == SignatureInvalid <==> asks && !HeldAt(entries, a, p) && a.key == Key && !a.signatureOk)
      && (v == BadAlg <==> Legible(a) && a.header.Decoded? && !KnownAlg(a.header))
      && (v == Thrown <==> Legible(a) && (a.header.JsonNull? || (KnownAlg(a.header) && a.payload.JsonNull?)))
  {
    AskedIfAcceptable(a, p);
  }

  /** What an attempt does to the cache: nothing before it is asked; then what is past goes, and the id of
      a valid token is held until 30 seconds after its expiry. */
  lemma CacheAfter(entries: map<string, real>, a: Attempt, p: Policy)
    ensures !Acceptable(a, p) ==> After(entries, a, p) == entries
    ensures Acceptable(a, p) ==>
              var after, own, valid := After(entries, a, p), a.payload.value.jti.s, Verdict(entries, a, p) == Valid;
              && (forall k :: k in after <==> (k in entries && entries[k] > a.cacheNow) || (valid && k == own))
              && (forall k :: k in after ==>
                                after[k] == if valid && k == own then a.payload.value.exp.n + 30.0 else entries[k])
  {
    AskedIfAcceptable(a, p);
  }

  // ---------------------------------------------------------------- runs

  function Entries(run: seq<Attempt>, p: Policy): map<string, real> {
    if run == [] then map[]
    else After(Entries(run[..|run| - 1], p), run[|run| - 1], p)
  }

  /** What attempt `i` of the run was answered. */
  function OutcomeAt(run: seq<Attempt>, i: nat, p: Policy): Outcome
    requires i < |run|
  {
    Verdict(Entries(run[..i], p), run[i], p)
  }

  /** The clock never goes back, across attempts and within one. */
  ghost predicate Clock(run: seq<Attempt>) {
    && (forall i :: 0 <= i < |run| ==> run[i].now <= run[i].cacheNow)
    && (forall i, j :: 0 <= i < j < |run| ==> run[i].cacheNow <= run[j].now)
  }

  /** Until when an accepted attempt is to be remembered. */
  function Until(a: Attempt): real {
    if a.payload.Decoded? && a.payload.value.exp.Number? then a.payload.value.exp.n + 30.0 else 0.0
  }

  /** Attempt `i` was accepted and carried this `jti`. */
  ghost predicate Accepted(run: seq<Attempt>, i: int, p: Policy, jti: string) {
    && 0 <= i < |run| && OutcomeAt(run, i, p) == Valid
    && run[i].payload.Decoded? && run[i].payload.value.jti == Text(jti)
  }

  /** The cache lists only accepted tokens, and all those still to be remembered at `t`. */
  ghost predicate Remembers(entries: map<string, real>, run: seq<Attempt>, p: Policy, t: real) {
    && (forall jti :: jti in entries ==> exists i :: Accepted(run, i, p, jti) && entries[jti] == Until(run[i]))
    && (forall i, jti :: Accepted(run, i, p, jti) && Until(run[i]) > t ==>
                           jti in entries && entries[jti] == Until(run[i]))
  }

  lemma Earlier(run: seq<Attempt>, j: nat, p: Policy)
    requires j <= |run|
    ensures forall i, jti :: Accepted(run[..j], i, p, jti) <==> i < j && Accepted(run, i, p, jti)
  {
    forall i | 0 <= i < j ensures OutcomeAt(run[..j], i, p) == OutcomeAt(run, i, p) {
      assert run[..j][..i] == run[..i];
    }
  }

  /** One attempt's effect on the cache. */
  lemma StepRemembers(entries: map<string, real>, a: Attempt, p: Policy)
    ensures
      var after := After(entries, a, p);
      && (forall k :: k in after && !(Verdict(entries, a, p) == Valid && a.payload.value.jti.s == k) ==>
                        k in entries && after[k] == entries[k])
      && (forall k :: k in entries && entries[k] > a.cacheNow ==> k in after && after[k] == entries[k])
      && (Verdict(entries, a, p) == Valid ==>
            var own := a.payload.value.jti.s;
            own in after && after[own] == Until(a) && a.payload.value.jti == Text(own))
  {
  }

  lemma {:induction false} CacheRemembers(run: seq<Attempt>, p: Policy, t: real)
    requires Clock(run) && forall i :: 0 <= i < |run| ==> run[i].cacheNow <= t
    ensures Remembers(Entries(run, p), run, p, t)
  {
    if run == [] {
    } else {
      var n := |run| - 1;
      CacheRemembers(run[..n], p, run[n].cacheNow);
      OneMoreAttempt(run, p, t);
    }
  }

  lemma OneMoreAttempt(run: seq<Attempt>, p: Policy, t: real)
    requires run != [] && run[|run| - 1].cacheNow <= t
    requires
      var n := |run| - 1;
      Remembers(Entries(run[..n], p), run[..n], p, run[n].cacheNow)
    ensures Remembers(Entries(run, p), run, p, t)
  {
    forall jti | jti in Entries(run, p)
      ensures exists i :: Accepted(run, i, p, jti) && Entries(run, p)[jti] == Until(run[i])
    {
      ListedStep(run, p, jti);
    }
    forall i, jti | Accepted(run, i, p, jti) && Until(run[i]) > t
      ensures jti in Entries(run, p) && Entries(run, p)[jti] == Until(run[i])
    {
      KeptStep(run, p, i, jti);
    }
  }

  lemma ListedStep(run: seq<Attempt>, p: Policy, jti: string)
    requires run != [] && jti in Entries(run, p)
    requires
      var n := |run| - 1;
      Remembers(Entries(run[..n], p), run[..n], p, run[n].cacheNow)
    ensures exists i :: Accepted(run, i, p, jti) && Entries(run, p)[jti] == Until(run[i])
  {
    var n := |run| - 1;
    StepRemembers(Entries(run[..n], p), run[n], p);
    if Accepted(run, n, p, jti) {
      assert Entries(run, p)[jti] == Until(run[n]);
    } else {
      var i := ListedBefore(Entries(run[..n], p), run, n, p, run[n].cacheNow, jti);
    }
  }

  lemma ListedBefore(entries: map<string, real>, run: seq<Attempt>, n: nat, p: Policy, t: real, jti: string)
    returns (i: int)
    requires n <= |run| && jti in entries && Remembers(entries, run[..n], p, t)
    ensures Accepted(run, i, p, jti) && entries[jti] == Until(run[i])
  {
    Earlier(run, n, p);
    i :| Accepted(run[..n], i, p, jti) && entries[jti] == Until(run[..n][i]);
  }

  lemma KeptStep(run: seq<Attempt>, p: Policy, i: int, jti: string)
    requires run != [] && Accepted(run, i, p, jti) && Until(run[i]) > run[|run| - 1].cacheNow
    requires
      var n := |run| - 1;
      Remembers(Entries(run[..n], p), run[..n], p, run[n].cacheNow)
    ensures jti in Entries(run, p) && Entries(run, p)[jti] == Until(run[i])
  {
    var n := |run| - 1;
    Earlier(run, n, p);
    StepRemembers(Entries(run[..n], p), run[n], p);
    if i < n { assert Accepted(run[..n], i, p, jti); }
  }

  /** An earlier accepted attempt with this `jti` is still to be remembered at `t`. */
  ghost predicate StillRemembered(run: seq<Attempt>, p: Policy, jti: string, t: real) {
    exists i :: Accepted(run, i, p, jti) && Until(run[i]) > t
  }

  /** A token that reaches the replay check is refused as a replay exactly when some token accepted
      before it has the same `jti` and is still to be remembered, whatever pruning dropped. */
  lemma ReplayExact(run: seq<Attempt>, p: Policy, j: nat)
    requires Clock(run) && j < |run| && Acceptable(run[j], p)
    ensures OutcomeAt(run, j, p) == JtiReplayed <==>
            StillRemembered(run[..j], p, run[j].payload.value.jti.s, run[j].cacheNow)
  {
    AskedIfAcceptable(run[j], p);
    CacheRemembers(run[..j], p, run[j].cacheNow);
    HeldIffRemembered(Entries(run[..j], p), run[..j], p, run[j].payload.value.jti.s, run[j].cacheNow);
  }

  lemma HeldIffRemembered(entries: map<string, real>, run: seq<Attempt>, p: Policy, jti: string, t: real)
    requires Remembers(entries, run, p, t)
    ensures jti in Pruned(entries, t) <==> StillRemembered(run, p, jti, t)
  {
  }

  /** Two accepted tokens with one `jti`: the later comes at least 30 seconds after the earlier's
      expiry. So no token is accepted twice unless more than 30 seconds pass inside one attempt. */
  lemma AcceptedApart(run: seq<Attempt>, p: Policy, i: nat, j: nat, jti: string)
    requires Clock(run) && i < j && Accepted(run, i, p, jti) && Accepted(run, j, p, jti)
    ensures run[j].cacheNow >= Until(run[i])
    ensures run[j].cacheNow - run[j].now <= 30.0 ==> Until(run[i]) < Until(run[j])
  {
    ReplayExact(run, p, j);
    Earlier(run, j, p);
    assert Accepted(run[..j], i, p, jti);
  }

  /** Only accepted tokens are ever remembered: a run without one leaves the cache empty. */
  lemma OnlyValidRegisters(run: seq<Attempt>, p: Policy)
    requires Clock(run)
    requires forall i :: 0 <= i < |run| ==> OutcomeAt(run, i, p) != Valid
    ensures Entries(run, p) == map[]
  {
    if run != [] {
      CacheRemembers(run, p, run[|run| - 1].cacheNow);
      assert Entries(run, p).Keys == {};
    }
  }

  /** The replay check comes before key discovery and signature: for a remembered `jti` neither
      matters. */
  lemma ReplayBeforeSignature(entries: map<string, real>, a: Attempt, p: Policy, key: KeyAnswer, signatureOk: bool)
    requires Verdict(entries, a, p) == JtiReplayed
    ensures Verdict(entries, a.(key := key, signatureOk := signatureOk), p) == JtiReplayed
    ensures After(entries, a.(key := key, signatureOk := signatureOk), p) == Pruned(entries, a.cacheNow)
  {
  }
}
