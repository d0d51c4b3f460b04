/**
 JSON values, the dispatcher's canonical printer `jcs` and the reader that undoes it.

 The printer follows the stream module line by line: scalars through `JSON.stringify`, arrays
 joined with commas, object members sorted by key. The reader is `JSON.parse` on compact,
 integer-only text. The main results: printing is canonical and injective up to the order of
 object members, and printing then reading returns the value exactly when it holds no
 `undefined`.
 */
module Json {
  import opened Wrappers

  // The safe integers of JavaScript; every one of them prints as plain decimal digits.
  type SafeInt = n: int | -9007199254740991 <= n <= 9007199254740991

  datatype Value =
    | Undefined
    | Null
    | Bool(b: bool)
    | Num(n: SafeInt)
    | Str(s: string)
    | Arr(items: seq<Value>)
    | Obj(fields: seq<Field>)

  datatype Field = Field(key: string, value: Value)

  // ---------------------------------------------------------------- sizes

  ghost function Size(v: Value): (n: nat)
    decreases v, 1
  {
    match v
    case Arr(items) => 1 + ItemsSize(items)
    case Obj(fields) => 1 + FieldsSize(fields)
    case _ => 1
  }

  ghost function ItemsSize(items: seq<Value>): nat
    decreases items, 0
  {
    if items == [] then 0 else 1 + Size(items[0]) + ItemsSize(items[1..])
  }

  ghost function FieldsSize(fields: seq<Field>): nat
    decreases fields, 0
  {
    if fields == [] then 0 else 1 + Size(fields[0].value) + FieldsSize(fields[1..])
  }

  // ---------------------------------------------------------------- key order

  /** Position of a character in UTF-16 code unit order: the supplementary planes, written with
      surrogates, come before U+E000..U+FFFF. */
  function Rank(c: char): int {
    if 0xE000 <= c as int <= 0xFFFF then c as int + 0x110000 else c as int
  }

  /** The order `Array.prototype.sort` uses on strings. */
  predicate Less(a: string, b: string) {
    if b == "" then false
    else if a == "" then true
    else if a[0] == b[0] then Less(a[1..], b[1..])
    else Rank(a[0]) < Rank(b[0])
  }

  lemma {:induction false} LessTotal(a: string, b: string)
    ensures a == b || Less(a, b) || Less(b, a)
    ensures !(Less(a, b) && Less(b, a))
    ensures !Less(a, a)
  {
    if a == "" {
    } else {
      LessTotal(a[1..], a[1..]);
      if b != "" && a[0] == b[0] {
        LessTotal(a[1..], b[1..]);
        assert a == [a[0]] + a[1..] && b == [b[0]] + b[1..];
      }
    }
  }

  lemma {:induction false} LessTransitive(a: string, b: string, c: string)
    requires Less(a, b) && Less(b, c)
    ensures Less(a, c)
  {
    if a != "" && a[0] == b[0] == c[0] {
      LessTransitive(a[1..], b[1..], c[1..]);
    }
  }

  // ---------------------------------------------------------------- sorting members

  function Insert(f: Field, fields: seq<Field>): seq<Field> {
    if fields == [] then [f]
    else if Less(fields[0].key, f.key) then [fields[0]] + Insert(f, fields[1..])
    else [f] + fields
  }

  function SortFields(fields: seq<Field>): seq<Field> {
    if fields == [] then [] else Insert(fields[0], SortFields(fields[1..]))
  }

  lemma {:induction false} InsertSize(f: Field, fields: seq<Field>)
    ensures FieldsSize(Insert(f, fields)) == FieldsSize([f] + fields)
  {
    assert ([f] + fields)[1..] == fields;
    if fields != [] && Less(fields[0].key, f.key) {
      InsertSize(f, fields[1..]);
      assert ([f] + fields[1..])[1..] == fields[1..];
      assert ([fields[0]] + Insert(f, fields[1..]))[1..] == Insert(f, fields[1..]);
    }
  }

  lemma {:induction false} SortSize(fields: seq<Field>)
    ensures FieldsSize(SortFields(fields)) == FieldsSize(fields)
  {
    if fields == [] {
    } else {
      SortSize(fields[1..]);
      InsertSize(fields[0], SortFields(fields[1..]));
      assert ([fields[0]] + SortFields(fields[1..]))[1..] == SortFields(fields[1..]);
    }
  }

  predicate HasKey(fields: seq<Field>, key: string) {
    exists i :: 0 <= i < |fields| && fields[i].key == key
  }

  predicate DistinctKeys(fields: seq<Field>) {
    forall i, j :: 0 <= i < j < |fields| ==> fields[i].key != fields[j].key
  }

  predicate SortedKeys(fields: seq<Field>) {
    forall i, j :: 0 <= i < j < |fields| ==> Less(fields[i].key, fields[j].key)
  }

  lemma {:induction false} InsertElements(f: Field, fields: seq<Field>)
    ensures forall g :: g in Insert(f, fields) <==> g == f || g in fields
  {
    if fields != [] && Less(fields[0].key, f.key) {
      InsertElements(f, fields[1..]);
      assert fields == [fields[0]] + fields[1..];
    }
  }

  lemma {:induction false} SortElements(fields: seq<Field>)
    ensures forall g :: g in SortFields(fields) <==> g in fields
  {
    if fields == [] {
    } else {
      SortElements(fields[1..]);
      InsertElements(fields[0], SortFields(fields[1..]));
      assert fields == [fields[0]] + fields[1..];
    }
  }

  lemma {:induction false} InsertSorted(f: Field, fields: seq<Field>)
    requires SortedKeys(fields) && !HasKey(fields, f.key)
    ensures SortedKeys(Insert(f, fields))
  {
    if fields == [] {
    } else if Less(fields[0].key, f.key) {
      InsertSorted(f, fields[1..]);
      InsertElements(f, fields[1..]);
      var tail := Insert(f, fields[1..]);
      forall j | 0 <= j < |tail| ensures Less(fields[0].key, tail[j].key) {
        assert tail[j] in tail;
        if tail[j] != f {
          var k :| 0 <= k < |fields[1..]| && fields[1..][k] == tail[j];
          assert fields[k + 1] == tail[j];
        }
      }
    } else {
      LessTotal(f.key, fields[0].key);
      forall j | 0 <= j < |fields| ensures Less(f.key, fields[j].key) {
        if j > 0 { LessTransitive(f.key, fields[0].key, fields[j].key); }
      }
    }
  }

  lemma {:induction false} SortSorted(fields: seq<Field>)
    requires DistinctKeys(fields)
    ensures SortedKeys(SortFields(fields))
  {
    if fields == [] {
    } else {
      SortSorted(fields[1..]);
      SortElements(fields[1..]);
      var tail := SortFields(fields[1..]);
      forall i | 0 <= i < |tail| ensures tail[i].key != fields[0].key {
        assert tail[i] in tail;
        var k :| 0 <= k < |fields[1..]| && fields[1..][k] == tail[i];
        assert fields[k + 1] == tail[i];
      }
      InsertSorted(fields[0], tail);
    }
  }

  // ---------------------------------------------------------------- scalars

  function Digit(d: int): (c: char)
    requires 0 <= d < 10
    ensures '0' <= c <= '9' && c as int == '0' as int + d
  {
    ('0' as int + d) as char
  }

  function PrintNat(n: nat): (t: string)
    ensures t != "" && forall i :: 0 <= i < |t| ==> '0' <= t[i] <= '9'
    ensures n != 0 ==> t[0] != '0'
    ensures n == 0 ==> t == "0"
  {
    if n < 10 then [Digit(n)] else PrintNat(n / 10) + [Digit(n % 10)]
  }

  function PrintInt(n: int): string {
    if n < 0 then "-" + PrintNat(-n) else PrintNat(n)
  }

  function HexDigit(d: int): (c: char)
    requires 0 <= d < 16
  {
    if d < 10 then ('0' as int + d) as char else ('a' as int + d - 10) as char
  }

  /** One character as `JSON.stringify` writes it inside quotes. */
  function EscapeChar(c: char): string {
    if c == '"' then "\\\""
    else if c == '\\' then "\\\\"
    else if c as int == 8 then "\\b"
    else if c as int == 12 then "\\f"
    else if c == '\n' then "\\n"
    else if c == '\r' then "\\r"
    else if c == '\t' then "\\t"
    else if c < ' ' then "\\u00" + [HexDigit(c as int / 16), HexDigit(c as int % 16)]
    else [c]
  }

  function EscapeAll(s: string): string {
    if s == "" then "" else EscapeChar(s[0]) + EscapeAll(s[1..])
  }

  function Quote(s: string): string {
    "\"" + EscapeAll(s) + "\""
  }

  // ---------------------------------------------------------------- the printer

  /** The stream module's `jcs`. A member whose value is `undefined` prints as that word. */
  function Jcs(v: Value): string
    decreases Size(v), 1
  {
    match v
    case Undefined => "undefined"
    case Null => "null"
    case Bool(b) => if b then "true" else "false"
    case Num(n) => PrintInt(n)
    case Str(s) => Quote(s)
    case Arr(items) => "[" + JcsItems(items) + "]"
    case Obj(fields) => SortSize(fields); "{" + JcsFields(SortFields(fields)) + "}"
  }

  /** The items of an array joined with commas; `join` writes `undefined` as nothing. */
  function JcsItems(items: seq<Value>): string
    decreases ItemsSize(items), 0
  {
    if items == [] then ""
    else
      var head := if items[0].Undefined? then "" else Jcs(items[0]);
      if |items| == 1 then head else head + "," + JcsItems(items[1..])
  }

  /** Object members, in the order given, joined with commas. */
  function JcsFields(fields: seq<Field>): string
    decreases FieldsSize(fields), 0
  {
    if fields == [] then ""
    else
      var head := Quote(fields[0].key) + ":" + Jcs(fields[0].value);
      if |fields| == 1 then head else head + "," + JcsFields(fields[1..])
  }

  // ---------------------------------------------------------------- the reader

  datatype Parsed<+T> = Reject | Parsed(value: T, rest: string)

  predicate IsDigit(c: char) {
    '0' <= c <= '9'
  }

  function DigitRun(t: string): (n: nat)
    ensures n <= |t| && forall i :: 0 <= i < n ==> IsDigit(t[i])
    ensures n < |t| ==> !IsDigit(t[n])
  {
    if t == "" || !IsDigit(t[0]) then 0 else 1 + DigitRun(t[1..])
  }

  function NatOf(t: string): nat
    requires forall i :: 0 <= i < |t| ==> IsDigit(t[i])
  {
    if t == "" then 0
    else
      assert IsDigit(t[|t| - 1]);
      10 * NatOf(t[..|t| - 1]) + (t[|t| - 1] as int - '0' as int)
  }

  function ParseNat(t: string): (r: Parsed<nat>)
    ensures r.Parsed? ==> |r.rest| < |t|
  {
    var n := DigitRun(t);
    if n == 0 || (n > 1 && t[0] == '0') then Reject else Parsed(NatOf(t[..n]), t[n..])
  }

  function ParseNumber(t: string): (r: Parsed<Value>)
    ensures r.Parsed? ==> |r.rest| < |t|
  {
    if t != "" && t[0] == '-' then
      match ParseNat(t[1..])
      case Parsed(n, rest) => if n <= 9007199254740991 then Parsed(Num(0 - (n as int)), rest) else Reject
      case Reject => Reject
    else
      match ParseNat(t)
      case Parsed(n, rest) => if n <= 9007199254740991 then Parsed(Num(n), rest) else Reject
      case Reject => Reject
  }

  function HexValue(c: char): (d: int)
    ensures -1 <= d < 16
  {
    if '0' <= c <= '9' then c as int - '0' as int
    else if 'a' <= c <= 'f' then c as int - 'a' as int + 10
    else if 'A' <= c <= 'F' then c as int - 'A' as int + 10
    else -1
  }

  /** Reads a character escape, the text starting after the backslash. */
  function ParseEscape(t: string): (r: Parsed<char>)
    ensures r.Parsed? ==> |r.rest| < |t|
  {
    if t == "" then Reject
    else match t[0]
      case '"' => Parsed('"', t[1..])
      case '\\' => Parsed('\\', t[1..])
      case '/' => Parsed('/', t[1..])
      case 'b' => Parsed(8 as char, t[1..])
      case 'f' => Parsed(12 as char, t[1..])
      case 'n' => Parsed('\n', t[1..])
      case 'r' => Parsed('\r', t[1..])
      case 't' => Parsed('\t', t[1..])
      case 'u' =>
        if |t| < 5 then Reject
        else
          var a, b, c, d := HexValue(t[1]), HexValue(t[2]), HexValue(t[3]), HexValue(t[4]);
          if a < 0 || b < 0 || c < 0 || d < 0 then Reject
          else
            var u := 4096 * a + 256 * b + 16 * c + d;
            if 0xD800 <= u <= 0xDFFF then Reject else Parsed(u as char, t[5..])
      case _ => Reject
  }

  /** Reads string characters up to the closing quote, the text starting after the opening one. */
  function ParseChars(t: string): (r: Parsed<string>)
    ensures r.Parsed? ==> |r.rest| < |t|
    decreases |t|
  {
    if t == "" || t[0] < ' ' then Reject
    else if t[0] == '"' then Parsed("", t[1..])
    else
      var first := if t[0] == '\\' then ParseEscape(t[1..]) else Parsed(t[0], t[1..]);
      match first
      case Reject => Reject
      case Parsed(c, rest) =>
        match ParseChars(rest)
        case Reject => Reject
        case Parsed(s, rest') => Parsed([c] + s, rest')
  }

  function ParseValue(t: string): (r: Parsed<Value>)
    ensures r.Parsed? ==> |r.rest| < |t|
    decreases |t|, 1
  {
    if t == "" then Reject
    else if "null" <= t then Parsed(Null, t[4..])
    else if "true" <= t then Parsed(Bool(true), t[4..])
    else if "false" <= t then Parsed(Bool(false), t[5..])
    else if t[0] == '"' then
      match ParseChars(t[1..])
      case Reject => Reject
      case Parsed(s, rest) => Parsed(Str(s), rest)
    else if "[]" <= t then Parsed(Arr([]), t[2..])
    else if t[0] == '[' then
      match ParseItems(t[1..])
      case Reject => Reject
      case Parsed(items, rest) => Parsed(Arr(items), rest)
    else if "{}" <= t then Parsed(Obj([]), t[2..])
    else if t[0] == '{' then
      match ParseMembers(t[1..])
      case Reject => Reject
      case Parsed(fields, rest) => Parsed(Obj(fields), rest)
    else ParseNumber(t)
  }

  function ParseItems(t: string): (r: Parsed<seq<Value>>)
    ensures r.Parsed? ==> |r.rest| < |t|
    decreases |t|, 2
  {
    match ParseValue(t)
    case Reject => Reject
    case Parsed(v, rest) =>
      if rest == "" then Reject
      else if rest[0] == ']' then Parsed([v], rest[1..])
      else if rest[0] != ',' then Reject
      else match ParseItems(rest[1..])
        case Reject => Reject
        case Parsed(vs, rest') => Parsed([v] + vs, rest')
  }

  /** Object members up to the closing brace. Text that repeats a key is outside the language. */
  function ParseMembers(t: string): (r: Parsed<seq<Field>>)
    ensures r.Parsed? ==> |r.rest| < |t|
    decreases |t|, 2
  {
    if t == "" || t[0] != '"' then Reject
    else match ParseChars(t[1..])
      case Reject => Reject
      case Parsed(key, afterKey) =>
        if afterKey == "" || afterKey[0] != ':' then Reject
        else match ParseValue(afterKey[1..])
          case Reject => Reject
          case Parsed(v, rest) =>
            if rest == "" then Reject
            else if rest[0] == '}' then Parsed([Field(key, v)], rest[1..])
            else if rest[0] != ',' then Reject
            else match ParseMembers(rest[1..])
              case Reject => Reject
              case Parsed(fs, rest') =>
                if HasKey(fs, key) then Reject else Parsed([Field(key, v)] + fs, rest')
  }

  /** `JSON.parse`; None stands for the exception. */
  function JsonParse(t: string): Option<Value> {
    match ParseValue(t)
    case Parsed(v, rest) => if rest == "" then Some(v) else None
    case Reject => None
  }

  // ---------------------------------------------------------------- equality up to member order

  /** Keys are distinct in every object, as in every JavaScript object. */
  predicate WellFormed(v: Value)
    decreases v
  {
    match v
    case Arr(items) => forall i :: 0 <= i < |items| ==> WellFormed(items[i])
    case Obj(fields) =>
      && DistinctKeys(fields)
      && forall i :: 0 <= i < |fields| ==> WellFormed(fields[i].value)
    case _ => true
  }

  /** No `undefined` at any depth. */
  predicate Defined(v: Value)
    decreases v
  {
    match v
    case Undefined => false
    case Arr(items) => forall i :: 0 <= i < |items| ==> Defined(items[i])
    case Obj(fields) => forall i :: 0 <= i < |fields| ==> Defined(fields[i].value)
    case _ => true
  }

  /** Equality of JSON values that ignores the order of object members, at every depth. */
  ghost predicate Same(v: Value, w: Value)
    decreases v
  {
    match (v, w)
    case (Arr(xs), Arr(ys)) =>
      |xs| == |ys| && forall i :: 0 <= i < |xs| ==> Same(xs[i], ys[i])
    case (Obj(fs), Obj(gs)) =>
      && (forall j :: 0 <= j < |gs| ==> HasKey(fs, gs[j].key))
      && forall i :: 0 <= i < |fs| ==> HasSame(fs[i], gs)
    case _ => v == w
  }

  ghost predicate HasSame(f: Field, gs: seq<Field>)
    decreases f
  {
    exists j :: 0 <= j < |gs| && f.key == gs[j].key && Same(f.value, gs[j].value)
  }
}
