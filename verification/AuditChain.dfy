/**
 The append-only, hash-chained audit log.

 The hash and the canonical form are abstract functions. No injective function maps all texts to
 64 hex digits, so injectivity of the hash is not assumed: where two chains share a tail, either
 they are the same chain row for row, or the proof hands over two different texts, one hashed in
 each chain, with one hash.
 */
module AuditChain {
  import opened Json
  import opened JsonLaws

  const GENESIS := "GENESIS"

  /** A record: its fields but for `this_hash`, and the hash. */
  datatype Row = Row(core: map<string, Value>, thisHash: string)

  type Fields = map<string, Value>

  /** The fields that are hashed: the body with the reserved names filled in by the chain. */
  function Core(body: Fields, timestamp: string, prevHash: string, worm: bool): Fields {
    var draft := (body - {"this_hash"})["timestamp" := Str(timestamp)]["prev_hash" := Str(prevHash)];
    if worm && ("sink_timestamp" !in draft || draft["sink_timestamp"] == Undefined)
    then draft["sink_timestamp" := Str(timestamp)]
    else draft
  }

  function Seal(core: Fields, prevHash: string, canonical: Fields -> string, hash: string -> string): Row {
    Row(core, hash(prevHash + canonical(core)))
  }

  function Tail(rows: seq<Row>): string {
    if rows == [] then GENESIS else rows[|rows| - 1].thisHash
  }

  /** Every row names the hash before it and carries the hash of that name and its own fields. */
  ghost predicate Linked(rows: seq<Row>, canonical: Fields -> string, hash: string -> string) {
    forall i :: 0 <= i < |rows| ==> LinkedAt(rows, i, canonical, hash)
  }

  ghost predicate LinkedAt(rows: seq<Row>, i: nat, canonical: Fields -> string, hash: string -> string)
    requires i < |rows|
  {
    var prev := Tail(rows[..i]);
    && "prev_hash" in rows[i].core && rows[i].core["prev_hash"] == Str(prev)
    && rows[i].thisHash == hash(prev + canonical(rows[i].core))
  }

  class AuditChain {
    const canonical: Fields -> string
    const hash: string -> string
    const worm: bool
    var records: seq<Row>
    var tail: string

    ghost predicate Valid()
      reads this
    {
      Linked(records, canonical, hash) && tail == Tail(records)
    }

    constructor (canonical: Fields -> string, hash: string -> string, worm: bool)
      ensures this.canonical == canonical && this.hash == hash && this.worm == worm
      ensures Valid() && records == []
    {
      this.canonical, this.hash, this.worm := canonical, hash, worm;
      records, tail := [], GENESIS;
    }

    method Append(body: Fields, timestamp: string) returns (row: Row)
      requires Valid()
      modifies this
      ensures Valid()
      ensures row == Seal(Core(body, timestamp, Tail(old(records)), worm), Tail(old(records)), canonical, hash)
      ensures records == old(records) + [row]
    {
      var prevHash := tail;
      var draft := (body - {"this_hash"})["timestamp" := Str(timestamp)]["prev_hash" := Str(prevHash)];
      if worm && ("sink_timestamp" !in draft || draft["sink_timestamp"] == Undefined) {
        draft := draft["sink_timestamp" := Str(timestamp)];
      }
      row := Row(draft, hash(prevHash + canonical(draft)));
      LinkedPush(records, row, canonical, hash);
      records := records + [row];
      tail := row.thisHash;
    }

    method Snapshot() returns (rows: seq<Row>)
      ensures rows == records
    {
      return records;
    }
  }

  lemma LinkedPush(rows: seq<Row>, row: Row, canonical: Fields -> string, hash: string -> string)
    requires Linked(rows, canonical, hash)
    requires "prev_hash" in row.core && row.core["prev_hash"] == Str(Tail(rows))
    requires row.thisHash == hash(Tail(rows) + canonical(row.core))
    ensures Linked(rows + [row], canonical, hash)
  {
    var all := rows + [row];
    forall i: nat | i < |all| ensures LinkedAt(all, i, canonical, hash) {
      assert all[..i] == rows[..i];
      assert rows[..|rows|] == rows;
      assert i < |rows| ==> LinkedAt(rows, i, canonical, hash);
    }
  }

  /** The chain overrides the reserved names only; every other field of the body is kept, and no other is
      added. A WORM sink's stamp is the time of the record unless the body brings one. */
  lemma CoreKeepsBody(body: Fields, timestamp: string, prevHash: string, worm: bool)
    ensures
      var core := Core(body, timestamp, prevHash, worm);
      && (forall k :: k in core <==>
                        || (k in body && k != "this_hash") || k in {"timestamp", "prev_hash"}
                        || (worm && k == "sink_timestamp"))
      && (forall k :: k in core && k !in {"timestamp", "prev_hash", "sink_timestamp"} ==> core[k] == body[k])
      && core["timestamp"] == Str(timestamp) && core["prev_hash"] == Str(prevHash)
      && ("sink_timestamp" in core ==>
            core["sink_timestamp"] ==
            if worm && ("sink_timestamp" !in body || body["sink_timestamp"] == Undefined) then Str(timestamp)
            else body["sink_timestamp"])
  {
  }

  // ---------------------------------------------------------------- runs of appends

  datatype Entry = Entry(body: Fields, timestamp: string)

  function AppendAll(rows: seq<Row>, entries: seq<Entry>, worm: bool,
                     canonical: Fields -> string, hash: string -> string): seq<Row>
    decreases |entries|
  {
    if entries == [] then rows
    else
      var row := NextRow(rows, entries[0], worm, canonical, hash);
      AppendAll(rows + [row], entries[1..], worm, canonical, hash)
  }

  function NextRow(rows: seq<Row>, e: Entry, worm: bool, canonical: Fields -> string, hash: string -> string): Row {
    Seal(Core(e.body, e.timestamp, Tail(rows), worm), Tail(rows), canonical, hash)
  }

  /** Any run of appends only extends the log, by one row per entry, and keeps every row linked. */
  lemma {:induction false} RunKeepsLinks(rows: seq<Row>, entries: seq<Entry>, worm: bool,
                                         canonical: Fields -> string, hash: string -> string)
    requires Linked(rows, canonical, hash)
    ensures
      var after := AppendAll(rows, entries, worm, canonical, hash);
      rows <= after && |after| == |rows| + |entries| && Linked(after, canonical, hash)
    decreases |entries|
  {
    if entries == [] {
    } else {
      var row := NextRow(rows, entries[0], worm, canonical, hash);
      CoreKeepsBody(entries[0].body, entries[0].timestamp, Tail(rows), worm);
      LinkedPush(rows, row, canonical, hash);
      RunKeepsLinks(rows + [row], entries[1..], worm, canonical, hash);
    }
  }

  lemma {:induction false} AppendsExtend(rows: seq<Row>, entries: seq<Entry>, worm: bool,
                                         canonical: Fields -> string, hash: string -> string)
    ensures rows <= AppendAll(rows, entries, worm, canonical, hash)
    decreases |entries|
  {
    if entries == [] {
    } else {
      AppendsExtend(rows + [NextRow(rows, entries[0], worm, canonical, hash)], entries[1..], worm, canonical, hash);
    }
  }

  lemma FirstAppended(rows: seq<Row>, row: Row, after: seq<Row>)
    requires rows + [row] <= after
    ensures after[|rows|] == row && after[..|rows|] == rows
  {
  }

  /** The row of entry i, row k of the log, seals that entry's fields over the hash of the row before it,
      or over GENESIS. */
  lemma RunRecordsEntries(rows: seq<Row>, entries: seq<Entry>, i: nat, k: nat, worm: bool,
                          canonical: Fields -> string, hash: string -> string)
    requires i < |entries| && k == |rows| + i
    ensures
      var after := AppendAll(rows, entries, worm, canonical, hash);
      && k < |after|
      && var prev := if k == 0 then "GENESIS" else after[k - 1].thisHash;
      && after[k].core == Core(entries[i].body, entries[i].timestamp, prev, worm)
      && after[k].thisHash == hash(prev + canonical(after[k].core))
  {
    EntryAt(rows, entries, i, k, worm, canonical, hash);
    var after := AppendAll(rows, entries, worm, canonical, hash);
    assert k > 0 ==> after[..k][k - 1] == after[k - 1];
  }

  lemma {:induction false} EntryAt(rows: seq<Row>, entries: seq<Entry>, i: nat, k: nat, worm: bool,
                                   canonical: Fields -> string, hash: string -> string)
    requires i < |entries| && k == |rows| + i
    ensures
      var after := AppendAll(rows, entries, worm, canonical, hash);
      k < |after| && after[k] == NextRow(after[..k], entries[i], worm, canonical, hash)
    decreases i
  {
    var longer := rows + [NextRow(rows, entries[0], worm, canonical, hash)];
    if i == 0 {
      AppendsExtend(longer, entries[1..], worm, canonical, hash);
      FirstAppended(rows, longer[|rows|], AppendAll(rows, entries, worm, canonical, hash));
    } else {
      EntryAt(longer, entries[1..], i - 1, k, worm, canonical, hash);
    }
  }

  // ---------------------------------------------------------------- tamper evidence

  ghost predicate HexDigest(s: string) {
    |s| == 64 && forall i :: 0 <= i < 64 ==> '0' <= s[i] <= '9' || 'a' <= s[i] <= 'f'
  }

  /** The hash writes 64 lower-case hex digits. */
  ghost predicate WritesHex(hash: string -> string) {
    forall s :: HexDigest(hash(s))
  }

  ghost predicate ChainHash(s: string) {
    s == GENESIS || HexDigest(s)
  }

  /** The framing `prev_hash || canonical` splits in one way only: GENESIS opens with a letter that
      is no hex digit, and all digests have one length. */
  lemma FramingUnambiguous(p: string, c: string, p': string, c': string)
    requires ChainHash(p) && ChainHash(p') && p + c == p' + c'
    ensures p == p' && c == c'
  {
    assert |p| > 0 && |p'| > 0;
    assert (p + c)[0] == p[0] && (p' + c')[0] == p'[0];
    assert |p| == |p'|;
    assert (p + c)[..|p|] == p && (p' + c')[..|p'|] == p';
    assert (p + c)[|p|..] == c && (p' + c')[|p'|..] == c';
  }

  ghost predicate Collision(hash: string -> string, x: string, y: string) {
    x != y && hash(x) == hash(y)
  }

  /** This text was hashed for a row of the chain. */
  ghost predicate HashedIn(x: string, rows: seq<Row>, canonical: Fields -> string) {
    exists i :: 0 <= i < |rows| && x == HashedText(rows, i, canonical)
  }

  function HashedText(rows: seq<Row>, i: nat, canonical: Fields -> string): string
    requires i < |rows|
  {
    Tail(rows[..i]) + canonical(rows[i].core)
  }

  /** Two different texts, one hashed in each chain, with one hash. */
  ghost predicate ChainsCollide(a: seq<Row>, b: seq<Row>, canonical: Fields -> string, hash: string -> string,
                                x: string, y: string)
  {
    Collision(hash, x, y) && HashedIn(x, a, canonical) && HashedIn(y, b, canonical)
  }

  lemma HashedLater(x: string, rows: seq<Row>, m: nat, canonical: Fields -> string)
    requires m <= |rows| && HashedIn(x, rows[..m], canonical)
    ensures HashedIn(x, rows, canonical)
  {
    var i :| 0 <= i < m && x == HashedText(rows[..m], i, canonical);
    assert rows[..m][..i] == rows[..i];
    assert x == HashedText(rows, i, canonical);
  }

  /** Two rows with the same hash and the same canonical text. */
  predicate TextAgrees(r: Row, s: Row, canonical: Fields -> string) {
    r.thisHash == s.thisHash && canonical(r.core) == canonical(s.core)
  }

  /** The first chain, read as texts and hashes, is a beginning of the second. */
  ghost predicate TextsBegin(a: seq<Row>, b: seq<Row>, canonical: Fields -> string) {
    |a| <= |b| && forall i :: 0 <= i < |a| ==> TextAgrees(a[i], b[i], canonical)
  }

  ghost predicate TextsAgree(a: seq<Row>, b: seq<Row>, canonical: Fields -> string) {
    |a| == |b| && TextsBegin(a, b, canonical)
  }

  /** Two chains with one tail hash agree row for row in text and hash, or the hash fails on texts the
      two chains themselves hashed. Nothing is assumed of the canonical form. */
  lemma {:induction false} TailFixesTexts(a: seq<Row>, b: seq<Row>, canonical: Fields -> string,
                                          hash: string -> string)
    returns (x: string, y: string)
    requires Linked(a, canonical, hash) && Linked(b, canonical, hash) && WritesHex(hash)
    requires Tail(a) == Tail(b)
    ensures TextsAgree(a, b, canonical) || ChainsCollide(a, b, canonical, hash, x, y)
    decreases |a|
  {
    x, y := "", "";
    TailIsChainHash(a, canonical, hash);
    TailIsChainHash(b, canonical, hash);
    if a != [] && b != [] {
      var m, n := |a| - 1, |b| - 1;
      assert LinkedAt(a, m, canonical, hash) && LinkedAt(b, n, canonical, hash);
      x, y := HashedText(a, m, canonical), HashedText(b, n, canonical);
      if x == y {
        SameLastText(a, b, canonical, hash);
        x, y := TailFixesTexts(a[..m], b[..n], canonical, hash);
        if TextsAgree(a[..m], b[..n], canonical) {
          assert forall i :: 0 <= i < m ==> a[i] == a[..m][i] && b[i] == b[..n][i];
        } else {
          HashedLater(x, a, m, canonical);
          HashedLater(y, b, n, canonical);
        }
      }
    }
  }

  /** Where the last rows hashed one text, they have one canonical text, and the hashes before them are
      the same. */
  lemma SameLastText(a: seq<Row>, b: seq<Row>, canonical: Fields -> string, hash: string -> string)
    requires a != [] && b != [] && Linked(a, canonical, hash) && Linked(b, canonical, hash) && WritesHex(hash)
    requires HashedText(a, |a| - 1, canonical) == HashedText(b, |b| - 1, canonical)
    ensures TextAgrees(a[|a| - 1], b[|b| - 1], canonical)
    ensures Tail(a[..|a| - 1]) == Tail(b[..|b| - 1])
    ensures Linked(a[..|a| - 1], canonical, hash) && Linked(b[..|b| - 1], canonical, hash)
  {
    var m, n := |a| - 1, |b| - 1;
    assert LinkedAt(a, m, canonical, hash) && LinkedAt(b, n, canonical, hash);
    LinkedInit(a, canonical, hash);
    LinkedInit(b, canonical, hash);
    TailIsChainHash(a[..m], canonical, hash);
    TailIsChainHash(b[..n], canonical, hash);
    FramingUnambiguous(Tail(a[..m]), canonical(a[m].core), Tail(b[..n]), canonical(b[n].core));
  }

  lemma LinkedInit(rows: seq<Row>, canonical: Fields -> string, hash: string -> string)
    requires rows != [] && Linked(rows, canonical, hash)
    ensures Linked(rows[..|rows| - 1], canonical, hash)
  {
    var init := rows[..|rows| - 1];
    forall i: nat | i < |init| ensures LinkedAt(init, i, canonical, hash) {
      assert init[..i] == rows[..i];
      assert LinkedAt(rows, i, canonical, hash);
    }
  }

  lemma TailIsChainHash(rows: seq<Row>, canonical: Fields -> string, hash: string -> string)
    requires Linked(rows, canonical, hash) && WritesHex(hash)
    ensures if rows == [] then Tail(rows) == GENESIS else HexDigest(Tail(rows))
  {
    if rows != [] {
      assert LinkedAt(rows, |rows| - 1, canonical, hash);
    }
  }

  /** So no row of a log can be changed, dropped or added, and the log relinked, without moving its
      tail hash, unless the hash fails on two texts hashed in the two logs. */
  lemma EditMovesTail(log: seq<Row>, edited: seq<Row>, canonical: Fields -> string, hash: string -> string)
    returns (x: string, y: string)
    requires Linked(log, canonical, hash) && Linked(edited, canonical, hash) && WritesHex(hash)
    requires !TextsAgree(log, edited, canonical)
    ensures Tail(log) != Tail(edited) || ChainsCollide(log, edited, canonical, hash, x, y)
  {
    x, y := "", "";
    if Tail(log) == Tail(edited) {
      x, y := TailFixesTexts(log, edited, canonical, hash);
    }
  }

  /** Appending to a log and to an edited one never makes their tails meet, under the same proviso, as
      long as neither is a beginning of the other: a changed, inserted or dropped row stays detectable
      at every later tail. */
  lemma EditStaysVisible(log: seq<Row>, edited: seq<Row>, entries: seq<Entry>, more: seq<Entry>, worm: bool,
                         canonical: Fields -> string, hash: string -> string)
    returns (x: string, y: string)
    requires Linked(log, canonical, hash) && Linked(edited, canonical, hash) && WritesHex(hash)
    requires !TextsBegin(log, edited, canonical) && !TextsBegin(edited, log, canonical)
    ensures
      var a, b := AppendAll(log, entries, worm, canonical, hash), AppendAll(edited, more, worm, canonical, hash);
      Tail(a) != Tail(b) || ChainsCollide(a, b, canonical, hash, x, y)
  {
    RunKeepsLinks(log, entries, worm, canonical, hash);
    RunKeepsLinks(edited, more, worm, canonical, hash);
    var a, b := AppendAll(log, entries, worm, canonical, hash), AppendAll(edited, more, worm, canonical, hash);
    DifferenceStays(log, edited, a, b, canonical);
    x, y := EditMovesTail(a, b, canonical, hash);
  }

  lemma DifferenceStays(log: seq<Row>, edited: seq<Row>, a: seq<Row>, b: seq<Row>, canonical: Fields -> string)
    requires !TextsBegin(log, edited, canonical) && !TextsBegin(edited, log, canonical)
    requires log <= a && edited <= b
    ensures !TextsAgree(a, b, canonical)
  {
    if |log| <= |edited| {
      var i :| 0 <= i < |log| && !TextAgrees(log[i], edited[i], canonical);
      assert a[i] == log[i] && b[i] == edited[i];
    } else {
      var i :| 0 <= i < |edited| && !TextAgrees(edited[i], log[i], canonical);
      assert a[i] == log[i] && b[i] == edited[i];
    }
  }

  // ---------------------------------------------------------------- what agreeing texts mean

  /** The canonical form tells apart the records that occur in two chains. */
  ghost predicate Separates(canonical: Fields -> string, a: seq<Row>, b: seq<Row>) {
    forall r, s :: r in a && s in b && canonical(r.core) == canonical(s.core) ==> r.core == s.core
  }

  /** With a canonical form that separates the records, one tail means one chain, or a collision. */
  lemma TamperEvident(a: seq<Row>, b: seq<Row>, canonical: Fields -> string, hash: string -> string)
    returns (x: string, y: string)
    requires Linked(a, canonical, hash) && Linked(b, canonical, hash)
    requires WritesHex(hash) && Separates(canonical, a, b)
    requires Tail(a) == Tail(b)
    ensures a == b || ChainsCollide(a, b, canonical, hash, x, y)
  {
    x, y := TailFixesTexts(a, b, canonical, hash);
    if TextsAgree(a, b, canonical) {
      forall i | 0 <= i < |a| ensures a[i] == b[i] {
        assert a[i] in a && b[i] in b && TextAgrees(a[i], b[i], canonical);
      }
    }
  }

  /** The members of a record, in some order. */
  ghost function Members(fields: Fields): (members: seq<Field>)
    ensures MembersOf(members, fields)
    decreases |fields|
  {
    if fields == map[] then []
    else
      var key :| key in fields;
      var rest := fields - {key};
      assert |rest| == |fields| - 1 by { assert rest.Keys == fields.Keys - {key}; }
      OneMoreMember(Members(rest), fields, key);
      [Field(key, fields[key])] + Members(rest)
  }

  ghost predicate MembersOf(members: seq<Field>, fields: Fields) {
    && DistinctKeys(members)
    && (forall i :: 0 <= i < |members| ==>
                      members[i].key in fields && fields[members[i].key] == members[i].value)
    && (forall key :: key in fields ==> HasKey(members, key))
  }

  lemma OneMoreMember(members: seq<Field>, fields: Fields, key: string)
    requires key in fields && MembersOf(members, fields - {key})
    ensures MembersOf([Field(key, fields[key])] + members, fields)
  {
    var all := [Field(key, fields[key])] + members;
    forall k | k in fields ensures HasKey(all, k) {
      if k == key {
        assert all[0].key == k;
      } else {
        assert HasKey(members, k);
        var i :| 0 <= i < |members| && members[i].key == k;
        assert all[i + 1].key == k;
      }
    }
  }

  /** The JCS text of a record (RFC 8785). */
  ghost function JcsText(fields: Fields): string {
    Jcs(Obj(Members(fields)))
  }

  /** JSON values only, with distinct keys in every object and no `undefined`. */
  ghost predicate PlainFields(fields: Fields) {
    forall key :: key in fields ==> WellFormed(fields[key]) && Defined(fields[key])
  }

  ghost predicate PlainRows(rows: seq<Row>) {
    forall i :: 0 <= i < |rows| ==> PlainFields(rows[i].core)
  }

  /** The same fields, their values equal up to the order of object members. */
  ghost predicate SameFields(a: Fields, b: Fields) {
    a.Keys == b.Keys && forall key :: key in a ==> Same(a[key], b[key])
  }

  ghost predicate SameRows(a: seq<Row>, b: seq<Row>) {
    |a| == |b| && forall i :: 0 <= i < |a| ==> a[i].thisHash == b[i].thisHash && SameFields(a[i].core, b[i].core)
  }

  lemma MembersSame(a: Fields, b: Fields)
    requires Same(Obj(Members(a)), Obj(Members(b)))
    ensures SameFields(a, b)
  {
    var fs, gs := Members(a), Members(b);
    forall key | key in a ensures key in b && Same(a[key], b[key]) {
      assert HasKey(fs, key);
      var i :| 0 <= i < |fs| && fs[i].key == key;
      assert HasSame(fs[i], gs);
      var j :| 0 <= j < |gs| && gs[j].key == key && Same(fs[i].value, gs[j].value);
    }
    forall key | key in b ensures key in a {
      assert HasKey(gs, key);
      var j :| 0 <= j < |gs| && gs[j].key == key;
      assert HasKey(fs, gs[j].key);
    }
  }

  /** With JCS as the canonical form nothing has to be assumed of it: one tail means the same rows, up
      to the order of members inside their values, or a collision of texts the two chains hashed. */
  lemma JcsTamperEvident(a: seq<Row>, b: seq<Row>, hash: string -> string)
    returns (x: string, y: string)
    requires Linked(a, JcsText, hash) && Linked(b, JcsText, hash) && WritesHex(hash)
    requires PlainRows(a) && PlainRows(b)
    requires Tail(a) == Tail(b)
    ensures SameRows(a, b) || ChainsCollide(a, b, JcsText, hash, x, y)
  {
    x, y := TailFixesTexts(a, b, JcsText, hash);
    if TextsAgree(a, b, JcsText) {
      forall i | 0 <= i < |a| ensures a[i].thisHash == b[i].thisHash && SameFields(a[i].core, b[i].core) {
        assert TextAgrees(a[i], b[i], JcsText);
        SameText(a[i].core, b[i].core);
      }
    }
  }

  lemma SameText(a: Fields, b: Fields)
    requires PlainFields(a) && PlainFields(b) && JcsText(a) == JcsText(b)
    ensures SameFields(a, b)
  {
    JcsCanonical(Obj(Members(a)), Obj(Members(b)));
    MembersSame(a, b);
  }
}
