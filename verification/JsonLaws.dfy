/** What the canonical printer promises: no raw newline, reading back, canonicity, injectivity. */
module JsonLaws {
  import opened Wrappers
  import opened Json

  /** The value with the members of every object sorted by key. */
  ghost function Canon(v: Value): Value
    decreases Size(v), 1
  {
    match v
    case Arr(items) => Arr(CanonItems(items))
    case Obj(fields) => SortSize(fields); Obj(CanonFields(SortFields(fields)))
    case _ => v
  }

  ghost function CanonItems(items: seq<Value>): seq<Value>
    decreases ItemsSize(items), 0
  {
    if items == [] then [] else [Canon(items[0])] + CanonItems(items[1..])
  }

  ghost function CanonFields(fields: seq<Field>): seq<Field>
    decreases FieldsSize(fields), 0
  {
    if fields == [] then []
    else [Field(fields[0].key, Canon(fields[0].value))] + CanonFields(fields[1..])
  }

  // ---------------------------------------------------------------- no raw newline

  ghost predicate OneLine(t: string) {
    '\n' !in t
  }

  lemma {:induction false} EscapeOneLine(s: string)
    ensures OneLine(EscapeAll(s))
  {
    if s == "" {
    } else {
      EscapeOneLine(s[1..]);
    }
  }

  /** The printer never emits a newline, whatever strings the value holds. */
  lemma {:induction false} JcsOneLine(v: Value)
    ensures OneLine(Jcs(v)) && Jcs(v) != ""
    decreases Size(v), 1
  {
    match v
    case Str(s) => EscapeOneLine(s);
    case Arr(items) => ItemsOneLine(items);
    case Obj(fields) => SortSize(fields); FieldsOneLine(SortFields(fields));
    case _ =>
  }

  lemma {:induction false} ItemsOneLine(items: seq<Value>)
    ensures OneLine(JcsItems(items))
    decreases ItemsSize(items), 0
  {
    if items == [] {
    } else {
      JcsOneLine(items[0]);
      ItemsOneLine(items[1..]);
    }
  }

  lemma {:induction false} FieldsOneLine(fields: seq<Field>)
    ensures OneLine(JcsFields(fields))
    decreases FieldsSize(fields), 0
  {
    if fields == [] {
    } else {
      EscapeOneLine(fields[0].key);
      JcsOneLine(fields[0].value);
      FieldsOneLine(fields[1..]);
    }
  }

  // ---------------------------------------------------------------- reading scalars back

  lemma {:induction false} NatRoundTrip(n: nat)
    ensures NatOf(PrintNat(n)) == n
  {
    if n >= 10 {
      NatRoundTrip(n / 10);
      var t := PrintNat(n);
      assert t[..|t| - 1] == PrintNat(n / 10);
    } else {
      assert NatOf([Digit(n)]) == 10 * NatOf([Digit(n)][..0]) + n;
    }
  }

  lemma {:induction false} DigitRunStops(t: string, rest: string)
    requires forall i :: 0 <= i < |t| ==> IsDigit(t[i])
    requires rest == "" || !IsDigit(rest[0])
    ensures DigitRun(t + rest) == |t|
  {
    if t == "" {
      assert t + rest == rest;
    } else {
      assert (t + rest)[1..] == t[1..] + rest;
      DigitRunStops(t[1..], rest);
    }
  }

  lemma ParsePrintedNat(n: nat, rest: string)
    requires rest == "" || !IsDigit(rest[0])
    ensures ParseNat(PrintNat(n) + rest) == Parsed(n, rest)
  {
    var t := PrintNat(n);
    DigitRunStops(t, rest);
    NatRoundTrip(n);
    assert (t + rest)[..|t|] == t && (t + rest)[|t|..] == rest;
  }

  /** A value that starts like a number is read as a number. */
  lemma NumberStep(t: string)
    requires t != "" && (t[0] == '-' || IsDigit(t[0]))
    ensures ParseValue(t) == ParseNumber(t)
  {
    assert !("null" <= t) && !("true" <= t) && !("false" <= t) && !("[]" <= t) && !("{}" <= t) by {
      assert "null"[0] == 'n' && "true"[0] == 't' && "false"[0] == 'f' && "[]"[0] == '[' && "{}"[0] == '{';
    }
  }

  lemma NegativeStep(digits: string)
    ensures ParseNumber("-" + digits) ==
            match ParseNat(digits)
            case Parsed(n, rest) => if n <= 9007199254740991 then Parsed(Num(0 - (n as int)), rest) else Reject
            case Reject => Reject
  {
  }

  lemma NegativeText(n: int, m: nat, rest: string)
    requires n < 0 && m == 0 - n
    ensures PrintInt(n) + rest == "-" + (PrintNat(m) + rest)
  {
  }

  lemma ParseNegative(m: nat, rest: string)
    requires m <= 9007199254740991
    requires rest == "" || !IsDigit(rest[0])
    ensures ParseValue("-" + (PrintNat(m) + rest)) == Parsed(Num(0 - (m as int)), rest)
  {
    ParsePrintedNat(m, rest);
    NegativeParsed(PrintNat(m) + rest, m, rest);
  }

  lemma NegativeParsed(body: string, m: nat, rest: string)
    requires m <= 9007199254740991 && ParseNat(body) == Parsed(m, rest)
    ensures ParseValue("-" + body) == Parsed(Num(0 - (m as int)), rest)
  {
    NumberStep("-" + body);
    NegativeStep(body);
  }

  lemma ParsePrintedNegative(n: SafeInt, m: nat, rest: string)
    requires n < 0 && m == 0 - n
    requires rest == "" || !IsDigit(rest[0])
    ensures ParseValue(PrintInt(n) + rest) == Parsed(Num(n), rest)
  {
    NegativeText(n, m, rest);
    ParseNegative(m, rest);
  }

  lemma ParsePrintedNonNegative(n: SafeInt, rest: string)
    requires n >= 0
    requires rest == "" || !IsDigit(rest[0])
    ensures ParseValue(PrintInt(n) + rest) == Parsed(Num(n), rest)
  {
    NumberStep(PrintNat(n) + rest);
    ParsePrintedNat(n, rest);
  }

  lemma ParseEscapedChar(c: char, rest: string)
    ensures
      var t := EscapeChar(c) + rest;
      && t[0] >= ' ' && t[0] != '"'
      && (if t[0] == '\\' then ParseEscape(t[1..]) == Parsed(c, rest) else t == [c] + rest)
  {
  }

  lemma {:induction false} ParsePrintedChars(s: string, rest: string)
    ensures ParseChars(EscapeAll(s) + "\"" + rest) == Parsed(s, rest)
  {
    var t := EscapeAll(s) + "\"" + rest;
    if s == "" {
      assert t == "\"" + rest;
    } else {
      var tail := EscapeAll(s[1..]) + "\"" + rest;
      assert t == EscapeChar(s[0]) + tail;
      ParseEscapedChar(s[0], tail);
      ParsePrintedChars(s[1..], rest);
      assert t[0] != '\\' ==> t[1..] == tail;
      assert [s[0]] + s[1..] == s;
    }
  }

  // ---------------------------------------------------------------- reading values back

  /** What may follow a value inside canonical text. */
  ghost predicate Delimited(rest: string) {
    rest == "" || rest[0] == ',' || rest[0] == ']' || rest[0] == '}'
  }

  lemma Regroup(a: string, b: string, c: string)
    ensures a + b + c == a + (b + c)
  {
  }

  lemma WordStep(t: string)
    ensures ParseValue("null" + t) == Parsed(Null, t)
    ensures ParseValue("true" + t) == Parsed(Bool(true), t)
    ensures ParseValue("false" + t) == Parsed(Bool(false), t)
  {
    assert ("null" + t)[4..] == t && ("true" + t)[4..] == t && ("false" + t)[5..] == t;
    assert ("true" + t)[0] == 't' && ("false" + t)[0] == 'f' && "null"[0] == 'n' && "true"[0] == 't';
  }

  lemma StringStep(s: string, rest: string)
    ensures ParseValue(Quote(s) + rest) == Parsed(Str(s), rest)
  {
    var t := Quote(s) + rest;
    assert t[0] == '"' && "null"[0] == 'n' && "true"[0] == 't' && "false"[0] == 'f';
    assert t[1..] == EscapeAll(s) + "\"" + rest;
    ParsePrintedChars(s, rest);
  }

  lemma Differs(word: string, t: string, i: nat)
    requires i < |word| && i < |t| && word[i] != t[i]
    ensures !(word <= t)
  {
  }

  lemma NoWord(t: string)
    requires t != "" && t[0] != 'n' && t[0] != 't' && t[0] != 'f'
    ensures !("null" <= t) && !("true" <= t) && !("false" <= t)
  {
    Differs("null", t, 0);
    Differs("true", t, 0);
    Differs("false", t, 0);
  }

  lemma ArrayOpens(body: string)
    requires body != "" && body[0] != ']'
    ensures ParseValue("[" + body) ==
            match ParseItems(body) case Reject => Reject case Parsed(items, rest) => Parsed(Arr(items), rest)
  {
    var t := "[" + body;
    assert t[1..] == body && t[1] == body[0];
    NoWord(t);
    Differs("[]", t, 1);
  }

  lemma ObjectOpens(body: string)
    requires body != "" && body[0] != '}'
    ensures ParseValue("{" + body) ==
            match ParseMembers(body) case Reject => Reject case Parsed(fields, rest) => Parsed(Obj(fields), rest)
  {
    var t := "{" + body;
    assert t[1..] == body && t[1] == body[0];
    NoWord(t);
    Differs("[]", t, 0);
    Differs("{}", t, 1);
  }

  lemma EmptyStep(rest: string)
    ensures ParseValue("[]" + rest) == Parsed(Arr([]), rest)
    ensures ParseValue("{}" + rest) == Parsed(Obj([]), rest)
  {
    assert ("[]" + rest)[2..] == rest && ("{}" + rest)[2..] == rest;
    assert "null"[0] == 'n' && "true"[0] == 't' && "false"[0] == 'f' && "[]"[0] == '[' && "{}"[0] == '{';
    assert ("{}" + rest)[0] == '{' && ("[]" + rest)[0] == '[';
  }

  /** The member reader past a quoted key and its colon. */
  lemma KeyStep(key: string, body: string)
    ensures ParseMembers(Quote(key) + (":" + body)) ==
            match ParseValue(body)
            case Reject => Reject
            case Parsed(v, rest) =>
              if rest == "" then Reject
              else if rest[0] == '}' then Parsed([Field(key, v)], rest[1..])
              else if rest[0] != ',' then Reject
              else match ParseMembers(rest[1..])
                case Reject => Reject
                case Parsed(fs, rest') => if HasKey(fs, key) then Reject else Parsed([Field(key, v)] + fs, rest')
  {
    var afterKey := ":" + body;
    assert (Quote(key) + afterKey)[1..] == EscapeAll(key) + "\"" + afterKey;
    ParsePrintedChars(key, afterKey);
    assert afterKey[1..] == body;
  }

  lemma KeyText(key: string, vt: string, follow: string)
    ensures Quote(key) + ":" + vt + follow == Quote(key) + (":" + (vt + follow))
  {
  }

  /** Reading canonical text gives back the value, its object members sorted. */
  lemma {:induction false} ParsePrinted(v: Value, rest: string)
    requires WellFormed(v) && Defined(v) && Delimited(rest)
    ensures ParseValue(Jcs(v) + rest) == Parsed(Canon(v), rest)
    decreases Size(v), 1
  {
    match v
    case Null => WordStep(rest);
    case Bool(b) => WordStep(rest);
    case Num(n) => if n < 0 { ParsePrintedNegative(n, 0 - n, rest); } else { ParsePrintedNonNegative(n, rest); }
    case Str(s) => StringStep(s, rest);
    case Arr(items) =>
      if items == [] {
        EmptyStep(rest);
      } else {
        ParsePrintedItems(items, rest);
        FirstItemChar(items);
        ArrayStep(JcsItems(items), rest);
      }
    case Obj(fields) =>
      var sorted := SortFields(fields);
      SortSize(fields);
      if sorted == [] {
        EmptyStep(rest);
      } else {
        SortedMembersFit(fields);
        ParsePrintedMembers(sorted, rest);
        ObjectStep(JcsFields(sorted), rest);
      }
  }

  lemma ArrayStep(body: string, rest: string)
    requires body != "" && body[0] != ']'
    ensures ParseValue("[" + body + "]" + rest) ==
            match ParseItems(body + "]" + rest) case Reject => Reject case Parsed(vs, more) => Parsed(Arr(vs), more)
  {
    var inner := body + "]" + rest;
    assert "[" + body + "]" + rest == "[" + inner;
    ArrayOpens(inner);
  }

  lemma ObjectStep(body: string, rest: string)
    requires body != "" && body[0] != '}'
    ensures ParseValue("{" + body + "}" + rest) ==
            match ParseMembers(body + "}" + rest) case Reject => Reject case Parsed(fs, more) => Parsed(Obj(fs), more)
  {
    var inner := body + "}" + rest;
    assert "{" + body + "}" + rest == "{" + inner;
    ObjectOpens(inner);
  }

  lemma FirstItemChar(items: seq<Value>)
    requires items != [] && Defined(items[0])
    ensures JcsItems(items) != "" && JcsItems(items)[0] != ']'
  {
  }

  lemma SortedMembersFit(fields: seq<Field>)
    requires WellFormed(Obj(fields))
    ensures SortedKeys(SortFields(fields))
    ensures forall f :: f in SortFields(fields) ==> WellFormed(f.value)
    ensures Defined(Obj(fields)) ==> forall f :: f in SortFields(fields) ==> Defined(f.value)
  {
    SortSorted(fields);
    SortElements(fields);
  }

  lemma {:induction false} ParsePrintedItems(items: seq<Value>, rest: string)
    requires items != []
    requires forall i :: 0 <= i < |items| ==> WellFormed(items[i]) && Defined(items[i])
    ensures ParseItems(JcsItems(items) + "]" + rest) == Parsed(CanonItems(items), rest)
    decreases ItemsSize(items), 0
  {
    var head, tail := Jcs(items[0]), items[1..];
    if |items| == 1 {
      ParsePrinted(items[0], "]" + rest);
      Regroup(head, "]", rest);
      ItemsStep(head, ']', rest);
      assert tail == [] && CanonItems(items) == [Canon(items[0])];
    } else {
      var more := JcsItems(tail) + "]" + rest;
      ParsePrinted(items[0], "," + more);
      ParsePrintedItems(tail, rest);
      Splice(head, JcsItems(tail), "]", rest);
      ItemsStep(head, ',', more);
    }
  }

  lemma Splice(head: string, more: string, close: string, rest: string)
    ensures head + "," + more + close + rest == head + ("," + (more + close + rest))
  {
  }

  /** One step of the item reader over the text `vt` of a value. */
  lemma ItemsStep(vt: string, delimiter: char, follow: string)
    requires ParseValue(vt + ([delimiter] + follow)).Parsed?
    requires ParseValue(vt + ([delimiter] + follow)).rest == [delimiter] + follow
    ensures
      var v := ParseValue(vt + ([delimiter] + follow)).value;
      var r := ParseItems(vt + ([delimiter] + follow));
      && (delimiter == ']' ==> r == Parsed([v], follow))
      && (delimiter == ',' && ParseItems(follow).Parsed? ==>
            r == Parsed([v] + ParseItems(follow).value, ParseItems(follow).rest))
  {
  }

  lemma {:induction false} CanonFieldsKeys(fields: seq<Field>)
    ensures |CanonFields(fields)| == |fields|
    ensures forall i :: 0 <= i < |fields| ==>
                          CanonFields(fields)[i] == Field(fields[i].key, Canon(fields[i].value))
  {
    if fields == [] {
    } else {
      CanonFieldsKeys(fields[1..]);
    }
  }

  lemma SmallestKeyFresh(fields: seq<Field>)
    requires fields != [] && SortedKeys(fields)
    ensures !HasKey(CanonFields(fields[1..]), fields[0].key)
  {
    var tail := fields[1..];
    CanonFieldsKeys(tail);
    LessTotal(fields[0].key, fields[0].key);
    forall i | 0 <= i < |tail| ensures CanonFields(tail)[i].key != fields[0].key {
      assert Less(fields[0].key, fields[i + 1].key);
    }
  }

  lemma {:induction false} ParsePrintedMembers(fields: seq<Field>, rest: string)
    requires fields != [] && SortedKeys(fields)
    requires forall f :: f in fields ==> WellFormed(f.value) && Defined(f.value)
    ensures JcsFields(fields) != "" && JcsFields(fields)[0] == '"'
    ensures ParseMembers(JcsFields(fields) + "}" + rest) == Parsed(CanonFields(fields), rest)
    decreases FieldsSize(fields), 0
  {
    var key, v, tail := fields[0].key, fields[0].value, fields[1..];
    assert fields[0] in fields;
    if |fields| == 1 {
      ParsePrinted(v, "}" + rest);
      assert tail == [] && CanonFields(fields) == [Field(key, Canon(v))];
      LastMember(key, v, rest);
    } else {
      var more := JcsFields(tail) + "}" + rest;
      ParsePrinted(v, "," + more);
      ParsePrintedMembers(tail, rest);
      SmallestKeyFresh(fields);
      NextMember(key, v, JcsFields(tail), rest, CanonFields(tail));
    }
  }

  lemma LastMember(key: string, v: Value, rest: string)
    requires ParseValue(Jcs(v) + ("}" + rest)) == Parsed(Canon(v), "}" + rest)
    ensures ParseMembers(Quote(key) + ":" + Jcs(v) + "}" + rest) == Parsed([Field(key, Canon(v))], rest)
  {
    var vt := Jcs(v);
    Regroup(Quote(key) + ":" + vt, "}", rest);
    KeyText(key, vt, "}" + rest);
    KeyStep(key, vt + ("}" + rest));
    assert ("}" + rest)[1..] == rest;
  }

  lemma NextMember(key: string, v: Value, more: string, rest: string, fs: seq<Field>)
    requires ParseValue(Jcs(v) + ("," + (more + "}" + rest))) == Parsed(Canon(v), "," + (more + "}" + rest))
    requires ParseMembers(more + "}" + rest) == Parsed(fs, rest) && !HasKey(fs, key)
    ensures ParseMembers(Quote(key) + ":" + Jcs(v) + "," + more + "}" + rest) ==
            Parsed([Field(key, Canon(v))] + fs, rest)
  {
    var vt := Jcs(v);
    var follow := "," + (more + "}" + rest);
    Splice(Quote(key) + ":" + vt, more, "}", rest);
    KeyText(key, vt, follow);
    KeyStep(key, vt + follow);
    assert follow[1..] == more + "}" + rest;
  }

  // ---------------------------------------------------------------- equality up to member order

  lemma {:induction false} CanonItemsAt(items: seq<Value>)
    ensures |CanonItems(items)| == |items|
    ensures forall i :: 0 <= i < |items| ==> CanonItems(items)[i] == Canon(items[i])
  {
    if items == [] {
    } else {
      CanonItemsAt(items[1..]);
    }
  }

  /** Sorting the members never changes a value but for their order. */
  lemma {:induction false} CanonSame(v: Value)
    ensures Same(v, Canon(v))
    decreases v
  {
    match v
    case Arr(items) =>
      CanonItemsAt(items);
      forall i | 0 <= i < |items| ensures Same(items[i], Canon(items[i])) { CanonSame(items[i]); }
    case Obj(fields) =>
      forall i | 0 <= i < |fields| ensures Same(fields[i].value, Canon(fields[i].value)) {
        CanonSame(fields[i].value);
      }
      CanonObjectSame(fields, SortFields(fields), CanonFields(SortFields(fields)));
    case _ =>
  }

  lemma CanonObjectSame(fields: seq<Field>, sorted: seq<Field>, canon: seq<Field>)
    requires sorted == SortFields(fields) && canon == CanonFields(sorted)
    requires forall i :: 0 <= i < |fields| ==> Same(fields[i].value, Canon(fields[i].value))
    ensures Same(Obj(fields), Obj(canon))
  {
    SortElements(fields);
    CanonFieldsKeys(sorted);
    forall j | 0 <= j < |canon| ensures HasKey(fields, canon[j].key) {
      assert sorted[j] in fields;
    }
    forall i | 0 <= i < |fields|
      ensures HasSame(fields[i], canon)
    {
      assert fields[i] in sorted;
      var j :| 0 <= j < |sorted| && sorted[j] == fields[i];
      assert canon[j] == Field(fields[i].key, Canon(fields[i].value));
    }
  }

  /** Two strictly sorted member lists with the same keys have them in the same places. */
  lemma {:induction false} SortedAligned(fs: seq<Field>, gs: seq<Field>)
    requires SortedKeys(fs) && SortedKeys(gs)
    requires forall i :: 0 <= i < |fs| ==> HasKey(gs, fs[i].key)
    requires forall j :: 0 <= j < |gs| ==> HasKey(fs, gs[j].key)
    ensures |fs| == |gs| && forall i :: 0 <= i < |fs| ==> fs[i].key == gs[i].key
  {
    assert fs != [] ==> HasKey(gs, fs[0].key);
    assert gs != [] ==> HasKey(fs, gs[0].key);
    if fs != [] && gs != [] {
      var j :| 0 <= j < |gs| && gs[j].key == fs[0].key;
      var i :| 0 <= i < |fs| && fs[i].key == gs[0].key;
      assert j > 0 ==> Less(gs[0].key, gs[j].key);
      assert i > 0 ==> Less(fs[0].key, fs[i].key);
      LessTotal(fs[0].key, gs[0].key);
      LessTotal(fs[0].key, fs[0].key);
      TailKeys(fs, gs);
      TailKeys(gs, fs);
      SortedAligned(fs[1..], gs[1..]);
      forall i | 0 <= i < |fs| ensures fs[i].key == gs[i].key {
        if i > 0 { assert fs[1..][i - 1].key == gs[1..][i - 1].key; }
      }
    }
  }

  lemma TailKeys(fs: seq<Field>, gs: seq<Field>)
    requires fs != [] && gs != [] && SortedKeys(fs) && fs[0].key == gs[0].key
    requires forall i :: 0 <= i < |fs| ==> HasKey(gs, fs[i].key)
    ensures forall i :: 0 <= i < |fs[1..]| ==> HasKey(gs[1..], fs[1..][i].key)
  {
    forall i | 0 <= i < |fs[1..]| ensures HasKey(gs[1..], fs[1..][i].key) {
      assert HasKey(gs, fs[i + 1].key);
      var j :| 0 <= j < |gs| && gs[j].key == fs[i + 1].key;
      assert Less(fs[0].key, fs[i + 1].key);
      LessTotal(fs[0].key, fs[0].key);
      assert gs[1..][j - 1] == gs[j];
    }
  }

  lemma SortedKeysCover(fs: seq<Field>, gs: seq<Field>)
    requires forall i :: 0 <= i < |fs| ==> HasKey(gs, fs[i].key)
    ensures forall i :: 0 <= i < |SortFields(fs)| ==> HasKey(SortFields(gs), SortFields(fs)[i].key)
  {
    SortElements(fs);
    SortElements(gs);
    forall i | 0 <= i < |SortFields(fs)| ensures HasKey(SortFields(gs), SortFields(fs)[i].key) {
      var f := SortFields(fs)[i];
      assert f in SortFields(fs);
      var k :| 0 <= k < |fs| && fs[k] == f;
      assert HasKey(gs, fs[k].key);
      var j :| 0 <= j < |gs| && gs[j].key == f.key;
      assert gs[j] in SortFields(gs);
    }
  }

  // ---------------------------------------------------------------- one text, one value

  /** Nothing to write between the brackets: no item, or one `undefined`. */
  predicate Blank(items: seq<Value>) {
    items == [] || items == [Undefined]
  }

  /** Equality up to member order in which an array of one `undefined` counts as the empty array, at
      every depth. */
  ghost predicate Alike(v: Value, w: Value)
    decreases v
  {
    match (v, w)
    case (Arr(xs), Arr(ys)) =>
      || (Blank(xs) && Blank(ys))
      || (|xs| == |ys| && forall i :: 0 <= i < |xs| ==> Alike(xs[i], ys[i]))
    case (Obj(fs), Obj(gs)) =>
      && (forall j :: 0 <= j < |gs| ==> HasKey(fs, gs[j].key))
      && forall i :: 0 <= i < |fs| ==> HasAlike(fs[i], gs)
    case _ => v == w
  }

  ghost predicate HasAlike(f: Field, gs: seq<Field>)
    decreases f
  {
    exists j :: 0 <= j < |gs| && f.key == gs[j].key && Alike(f.value, gs[j].value)
  }

  lemma {:induction false} SameAlike(v: Value, w: Value)
    requires Same(v, w)
    ensures Alike(v, w)
    decreases v
  {
    match (v, w)
    case (Arr(xs), Arr(ys)) =>
      forall i | 0 <= i < |xs| ensures Alike(xs[i], ys[i]) { SameAlike(xs[i], ys[i]); }
    case (Obj(fs), Obj(gs)) =>
      forall i | 0 <= i < |fs| ensures HasAlike(fs[i], gs) {
        assert HasSame(fs[i], gs);
        var j :| 0 <= j < |gs| && fs[i].key == gs[j].key && Same(fs[i].value, gs[j].value);
        SameAlike(fs[i].value, gs[j].value);
      }
    case _ =>
  }

  lemma {:induction false} AlikeDefinedSame(v: Value, w: Value)
    requires Alike(v, w) && Defined(v) && Defined(w)
    ensures Same(v, w)
    decreases v
  {
    match (v, w)
    case (Arr(xs), Arr(ys)) =>
      assert Blank(xs) ==> xs == [] || !Defined(xs[0]);
      assert Blank(ys) ==> ys == [] || !Defined(ys[0]);
      forall i | 0 <= i < |xs| ensures Same(xs[i], ys[i]) { AlikeDefinedSame(xs[i], ys[i]); }
    case (Obj(fs), Obj(gs)) =>
      forall i | 0 <= i < |fs| ensures HasSame(fs[i], gs) {
        assert HasAlike(fs[i], gs);
        var j :| 0 <= j < |gs| && fs[i].key == gs[j].key && Alike(fs[i].value, gs[j].value);
        AlikeDefinedSame(fs[i].value, gs[j].value);
      }
    case _ =>
  }

  lemma AlikeField(fs: seq<Field>, gs: seq<Field>, f: Field, g: Field)
    requires DistinctKeys(gs) && Alike(Obj(fs), Obj(gs))
    requires f in fs && g in gs && f.key == g.key
    ensures Alike(f.value, g.value)
  {
  }

  lemma {:induction false} AlikePrintsSame(v: Value, w: Value)
    requires WellFormed(v) && WellFormed(w) && Alike(v, w)
    ensures Jcs(v) == Jcs(w)
    decreases Size(v), 1
  {
    match (v, w)
    case (Arr(xs), Arr(ys)) => if !(Blank(xs) && Blank(ys)) { AlikeItemsPrintSame(xs, ys); }
    case (Obj(fs), Obj(gs)) =>
      SortSize(fs);
      var a, b := SortFields(fs), SortFields(gs);
      SortSorted(fs); SortSorted(gs);
      SortElements(fs); SortElements(gs);
      forall i | 0 <= i < |fs| ensures HasKey(gs, fs[i].key) {
        assert HasAlike(fs[i], gs);
      }
      SortedKeysCover(fs, gs); SortedKeysCover(gs, fs);
      SortedAligned(a, b);
      forall i | 0 <= i < |a|
        ensures a[i].key == b[i].key && Alike(a[i].value, b[i].value)
        ensures WellFormed(a[i].value) && WellFormed(b[i].value)
      {
        assert a[i] in a && b[i] in b;
        AlikeField(fs, gs, a[i], b[i]);
      }
      AlikeFieldsPrintSame(a, b);
    case _ =>
  }

  lemma {:induction false} AlikeItemsPrintSame(xs: seq<Value>, ys: seq<Value>)
    requires |xs| == |ys|
    requires forall i :: 0 <= i < |xs| ==> WellFormed(xs[i]) && WellFormed(ys[i]) && Alike(xs[i], ys[i])
    ensures JcsItems(xs) == JcsItems(ys)
    decreases ItemsSize(xs), 0
  {
    if xs == [] {
    } else {
      AlikePrintsSame(xs[0], ys[0]);
      AlikeItemsPrintSame(xs[1..], ys[1..]);
    }
  }

  lemma {:induction false} AlikeFieldsPrintSame(fs: seq<Field>, gs: seq<Field>)
    requires |fs| == |gs|
    requires forall i :: 0 <= i < |fs| ==>
                           && fs[i].key == gs[i].key
                           && WellFormed(fs[i].value) && WellFormed(gs[i].value) && Alike(fs[i].value, gs[i].value)
    ensures JcsFields(fs) == JcsFields(gs)
    decreases FieldsSize(fs), 0
  {
    if fs == [] {
    } else {
      AlikePrintsSame(fs[0].value, gs[0].value);
      AlikeFieldsPrintSame(fs[1..], gs[1..]);
    }
  }

  /** The first character tells the kinds of values apart. */
  predicate Opens(v: Value, c: char) {
    match v
    case Undefined => c == 'u'
    case Null => c == 'n'
    case Bool(b) => c == if b then 't' else 'f'
    case Num(_) => c == '-' || IsDigit(c)
    case Str(_) => c == '"'
    case Arr(_) => c == '['
    case Obj(_) => c == '{'
  }

  lemma FirstChar(v: Value, rest: string)
    ensures Jcs(v) != "" && Opens(v, (Jcs(v) + rest)[0])
  {
    assert "undefined"[0] == 'u' && "null"[0] == 'n' && "true"[0] == 't' && "false"[0] == 'f';
  }

  lemma Cancel(a: string, r: string, s: string)
    requires a + r == a + s
    ensures r == s
  {
    assert (a + r)[|a|..] == r && (a + s)[|a|..] == s;
  }

  lemma Inner(open: string, x: string, y: string, close: string, r: string, s: string)
    requires |open| == 1 && open + x + close + r == open + y + close + s
    ensures x + close + r == y + close + s
  {
    assert (open + x + close + r)[1..] == x + close + r;
    assert (open + y + close + s)[1..] == y + close + s;
  }

  lemma QuoteUnique(k: string, l: string, a: string, b: string)
    requires Quote(k) + a == Quote(l) + b
    ensures k == l && a == b
  {
    QuoteReads(k, a);
    QuoteReads(l, b);
  }

  lemma QuoteReads(k: string, a: string)
    ensures ParseChars((Quote(k) + a)[1..]) == Parsed(k, a)
  {
    assert (Quote(k) + a)[1..] == EscapeAll(k) + "\"" + a;
    ParsePrintedChars(k, a);
  }

  /** Printed values are told apart in front of anything that may follow them: one text has one value
      and one rest. */
  lemma {:induction false} UniqueRead(v: Value, w: Value, r: string, s: string)
    requires WellFormed(v) && WellFormed(w) && Delimited(r) && Delimited(s)
    requires Jcs(v) + r == Jcs(w) + s
    ensures Alike(v, w) && r == s
    decreases Size(v), 1
  {
    FirstChar(v, r);
    FirstChar(w, s);
    match v
    case Undefined => Cancel("undefined", r, s);
    case Arr(xs) => UniqueArrays(xs, w.items, r, s);
    case Obj(fs) => UniqueObjects(fs, w.fields, r, s);
    case _ => ParsePrinted(v, r); ParsePrinted(w, s);
  }

  lemma {:induction false} UniqueArrays(xs: seq<Value>, ys: seq<Value>, r: string, s: string)
    requires WellFormed(Arr(xs)) && WellFormed(Arr(ys)) && Delimited(r) && Delimited(s)
    requires Jcs(Arr(xs)) + r == Jcs(Arr(ys)) + s
    ensures Alike(Arr(xs), Arr(ys)) && r == s
    decreases ItemsSize(xs), 3
  {
    Inner("[", JcsItems(xs), JcsItems(ys), "]", r, s);
    BlankText(xs, r);
    BlankText(ys, s);
    if Blank(xs) {
      Cancel("]", r, s);
    } else {
      UniqueItems(xs, ys, r, s);
    }
  }

  function ItemText(v: Value): string { if v.Undefined? then "" else Jcs(v) }

  /** What follows the first item. */
  function AfterItem(items: seq<Value>, rest: string): string
    requires items != []
  {
    if |items| == 1 then "]" + rest else "," + (JcsItems(items[1..]) + "]" + rest)
  }

  lemma ItemsSplit(items: seq<Value>, rest: string)
    requires items != []
    ensures JcsItems(items) + "]" + rest == ItemText(items[0]) + AfterItem(items, rest)
  {
    var head := ItemText(items[0]);
    if |items| == 1 {
      Regroup(head, "]", rest);
    } else {
      Splice(head, JcsItems(items[1..]), "]", rest);
    }
  }

  lemma BlankText(items: seq<Value>, rest: string)
    ensures Blank(items) ==> JcsItems(items) == "" && JcsItems(items) + "]" + rest == "]" + rest
    ensures Blank(items) <==> (JcsItems(items) + "]" + rest)[0] == ']'
  {
    if items == [] {
      assert "" + "]" + rest == "]" + rest;
    } else {
      ItemsSplit(items, rest);
      var follow := AfterItem(items, rest);
      if items[0].Undefined? {
        assert "" + follow == follow;
        assert |items| == 1 ==> items == [Undefined];
      } else {
        FirstChar(items[0], follow);
      }
    }
  }

  lemma {:induction false} UniqueItems(xs: seq<Value>, ys: seq<Value>, r: string, s: string)
    requires xs != [] && ys != [] && WellFormed(Arr(xs)) && WellFormed(Arr(ys)) && Delimited(r) && Delimited(s)
    requires JcsItems(xs) + "]" + r == JcsItems(ys) + "]" + s
    ensures r == s && AllAlike(xs, ys)
    decreases ItemsSize(xs), 0
  {
    var f, g := AfterItem(xs, r), AfterItem(ys, s);
    ItemsSplit(xs, r);
    ItemsSplit(ys, s);
    UniqueItem(xs[0], ys[0], f, g);
    AfterItems(xs, ys, r, s);
    if |xs| > 1 {
      UniqueItems(xs[1..], ys[1..], r, s);
      AllAlikeCons(xs, ys);
    }
  }

  ghost predicate AllAlike(xs: seq<Value>, ys: seq<Value>) {
    |xs| == |ys| && forall i :: 0 <= i < |xs| ==> Alike(xs[i], ys[i])
  }

  lemma AllAlikeCons(xs: seq<Value>, ys: seq<Value>)
    requires xs != [] && ys != [] && Alike(xs[0], ys[0]) && AllAlike(xs[1..], ys[1..])
    ensures AllAlike(xs, ys)
  {
    assert forall i :: 1 <= i < |xs| ==> xs[i] == xs[1..][i - 1] && ys[i] == ys[1..][i - 1];
  }

  lemma AfterItems(xs: seq<Value>, ys: seq<Value>, r: string, s: string)
    requires xs != [] && ys != [] && AfterItem(xs, r) == AfterItem(ys, s)
    ensures |xs| == 1 ==> |ys| == 1 && r == s
    ensures |xs| > 1 ==> |ys| > 1 && JcsItems(xs[1..]) + "]" + r == JcsItems(ys[1..]) + "]" + s
  {
    var f, g := AfterItem(xs, r), AfterItem(ys, s);
    assert f[0] == g[0] && f[1..] == g[1..];
    assert f[1..] == if |xs| == 1 then r else JcsItems(xs[1..]) + "]" + r;
    assert g[1..] == if |ys| == 1 then s else JcsItems(ys[1..]) + "]" + s;
  }

  lemma {:induction false} UniqueItem(x: Value, y: Value, f: string, g: string)
    requires WellFormed(x) && WellFormed(y) && f != "" && g != "" && Delimited(f) && Delimited(g)
    requires ItemText(x) + f == ItemText(y) + g
    ensures Alike(x, y) && f == g
    decreases Size(x), 2
  {
    FirstChar(x, f);
    FirstChar(y, g);
    assert x.Undefined? ==> ItemText(x) + f == f;
    assert y.Undefined? ==> ItemText(y) + g == g;
    if !x.Undefined? { UniqueRead(x, y, f, g); }
  }

  /** What follows the first member. */
  function AfterMember(fields: seq<Field>, rest: string): string
    requires fields != []
  {
    if |fields| == 1 then "}" + rest else "," + (JcsFields(fields[1..]) + "}" + rest)
  }

  lemma MembersSplit(fields: seq<Field>, rest: string)
    requires fields != []
    ensures JcsFields(fields) + "}" + rest ==
            Quote(fields[0].key) + (":" + (Jcs(fields[0].value) + AfterMember(fields, rest)))
  {
    var head := Quote(fields[0].key) + ":" + Jcs(fields[0].value);
    if |fields| == 1 {
      Regroup(head, "}", rest);
    } else {
      Splice(head, JcsFields(fields[1..]), "}", rest);
    }
    KeyText(fields[0].key, Jcs(fields[0].value), AfterMember(fields, rest));
  }

  ghost predicate AllWellFormed(fields: seq<Field>) {
    forall i :: 0 <= i < |fields| ==> WellFormed(fields[i].value)
  }

  ghost predicate Aligned(fs: seq<Field>, gs: seq<Field>) {
    |fs| == |gs| && forall i :: 0 <= i < |fs| ==> fs[i].key == gs[i].key && Alike(fs[i].value, gs[i].value)
  }

  lemma {:induction false} UniqueMembers(fs: seq<Field>, gs: seq<Field>, r: string, s: string)
    requires fs != [] && gs != [] && AllWellFormed(fs) && AllWellFormed(gs) && Delimited(r) && Delimited(s)
    requires JcsFields(fs) + "}" + r == JcsFields(gs) + "}" + s
    ensures r == s && Aligned(fs, gs)
    decreases FieldsSize(fs), 0
  {
    SameFirstKey(fs, gs, r, s);
    UniqueRead(fs[0].value, gs[0].value, AfterMember(fs, r), AfterMember(gs, s));
    AfterMembers(fs, gs, r, s);
    if |fs| > 1 {
      UniqueMembers(fs[1..], gs[1..], r, s);
      AlignedCons(fs, gs);
    }
  }

  lemma SameFirstKey(fs: seq<Field>, gs: seq<Field>, r: string, s: string)
    requires fs != [] && gs != [] && JcsFields(fs) + "}" + r == JcsFields(gs) + "}" + s
    ensures fs[0].key == gs[0].key
    ensures Jcs(fs[0].value) + AfterMember(fs, r) == Jcs(gs[0].value) + AfterMember(gs, s)
  {
    var vt, wt := Jcs(fs[0].value) + AfterMember(fs, r), Jcs(gs[0].value) + AfterMember(gs, s);
    MembersSplit(fs, r);
    MembersSplit(gs, s);
    QuoteUnique(fs[0].key, gs[0].key, ":" + vt, ":" + wt);
    Cancel(":", vt, wt);
  }

  lemma AfterMembers(fs: seq<Field>, gs: seq<Field>, r: string, s: string)
    requires fs != [] && gs != [] && AfterMember(fs, r) == AfterMember(gs, s)
    ensures |fs| == 1 ==> |gs| == 1 && r == s
    ensures |fs| > 1 ==> |gs| > 1 && JcsFields(fs[1..]) + "}" + r == JcsFields(gs[1..]) + "}" + s
  {
    var f, g := AfterMember(fs, r), AfterMember(gs, s);
    assert f[0] == g[0] && f[1..] == g[1..];
    assert f[1..] == if |fs| == 1 then r else JcsFields(fs[1..]) + "}" + r;
    assert g[1..] == if |gs| == 1 then s else JcsFields(gs[1..]) + "}" + s;
  }

  lemma AlignedCons(fs: seq<Field>, gs: seq<Field>)
    requires fs != [] && gs != [] && fs[0].key == gs[0].key && Alike(fs[0].value, gs[0].value)
    requires Aligned(fs[1..], gs[1..])
    ensures Aligned(fs, gs)
  {
    assert forall i :: 1 <= i < |fs| ==> fs[i] == fs[1..][i - 1] && gs[i] == gs[1..][i - 1];
  }

  lemma {:induction false} UniqueObjects(fs: seq<Field>, gs: seq<Field>, r: string, s: string)
    requires WellFormed(Obj(fs)) && WellFormed(Obj(gs)) && Delimited(r) && Delimited(s)
    requires Jcs(Obj(fs)) + r == Jcs(Obj(gs)) + s
    ensures Alike(Obj(fs), Obj(gs)) && r == s
    decreases FieldsSize(fs), 3
  {
    var a, b := SortFields(fs), SortFields(gs);
    SortSize(fs);
    SortedMembersFit(fs);
    SortedMembersFit(gs);
    Inner("{", JcsFields(a), JcsFields(b), "}", r, s);
    UniqueSorted(a, b, r, s);
    AlignedAlike(fs, gs);
  }

  lemma {:induction false} UniqueSorted(fs: seq<Field>, gs: seq<Field>, r: string, s: string)
    requires AllWellFormed(fs) && AllWellFormed(gs) && Delimited(r) && Delimited(s)
    requires JcsFields(fs) + "}" + r == JcsFields(gs) + "}" + s
    ensures Aligned(fs, gs) && r == s
    decreases FieldsSize(fs), 2
  {
    EmptyMembers(fs, r);
    EmptyMembers(gs, s);
    if fs == [] {
      Cancel("}", r, s);
    } else {
      UniqueMembers(fs, gs, r, s);
    }
  }

  lemma EmptyMembers(fields: seq<Field>, rest: string)
    ensures fields == [] <==> (JcsFields(fields) + "}" + rest)[0] == '}'
    ensures fields == [] ==> JcsFields(fields) + "}" + rest == "}" + rest
  {
    if fields == [] {
      assert "" + "}" + rest == "}" + rest;
    } else {
      MembersSplit(fields, rest);
    }
  }

  lemma AlignedAlike(fs: seq<Field>, gs: seq<Field>)
    requires Aligned(SortFields(fs), SortFields(gs))
    ensures Alike(Obj(fs), Obj(gs))
  {
    var a, b := SortFields(fs), SortFields(gs);
    SortElements(fs);
    SortElements(gs);
    forall j | 0 <= j < |gs| ensures HasKey(fs, gs[j].key) {
      assert gs[j] in b;
      var k :| 0 <= k < |b| && b[k] == gs[j];
      assert a[k] in a;
    }
    forall i | 0 <= i < |fs| ensures HasAlike(fs[i], gs) {
      assert fs[i] in a;
      var k :| 0 <= k < |a| && a[k] == fs[i];
      assert b[k] in b;
    }
  }

  /** Over all values, `undefined` included: the same text if and only if the values are equal up to
      member order and up to `[undefined]` standing for `[]`. */
  lemma JcsAlike(v: Value, w: Value)
    requires WellFormed(v) && WellFormed(w)
    ensures Jcs(v) == Jcs(w) <==> Alike(v, w)
  {
    if Jcs(v) == Jcs(w) { UniqueRead(v, w, "", ""); }
    if Alike(v, w) { AlikePrintsSame(v, w); }
  }

  /** Values equal up to member order print the same text. */
  lemma SamePrintsSame(v: Value, w: Value)
    requires WellFormed(v) && WellFormed(w) && Same(v, w)
    ensures Jcs(v) == Jcs(w)
  {
    SameAlike(v, w);
    AlikePrintsSame(v, w);
  }

  lemma ReadBack(v: Value)
    requires WellFormed(v) && Defined(v)
    ensures JsonParse(Jcs(v)) == Some(Canon(v))
  {
    ParsePrinted(v, "");
    assert Jcs(v) + "" == Jcs(v);
  }

  /** Canonicity and injectivity (RFC 8785 section 3.2.3): without `undefined`, the same text if and
      only if the same value up to member order. */
  lemma JcsCanonical(v: Value, w: Value)
    requires WellFormed(v) && WellFormed(w) && Defined(v) && Defined(w)
    ensures Jcs(v) == Jcs(w) <==> Same(v, w)
  {
    JcsAlike(v, w);
    if Alike(v, w) { AlikeDefinedSame(v, w); }
    if Same(v, w) { SameAlike(v, w); }
  }

  /** Canonical forms keep distinct keys. */
  lemma {:induction false} CanonWellFormed(v: Value)
    requires WellFormed(v)
    ensures WellFormed(Canon(v))
    decreases Size(v), 1
  {
    match v
    case Arr(items) =>
      CanonItemsAt(items);
      forall i | 0 <= i < |items| ensures WellFormed(Canon(items[i])) {
        ItemSmaller(items, i);
        CanonWellFormed(items[i]);
      }
    case Obj(fields) =>
      var sorted := SortFields(fields);
      SortSize(fields);
      SortedMembersFit(fields);
      CanonFieldsKeys(sorted);
      forall i, j | 0 <= i < j < |sorted| ensures sorted[i].key != sorted[j].key {
        LessTotal(sorted[i].key, sorted[j].key);
      }
      forall i | 0 <= i < |sorted| ensures WellFormed(Canon(sorted[i].value)) {
        FieldSmaller(sorted, i);
        CanonWellFormed(sorted[i].value);
      }
    case _ =>
  }

  lemma {:induction false} ItemSmaller(items: seq<Value>, i: nat)
    requires i < |items|
    ensures Size(items[i]) < 1 + ItemsSize(items)
  {
    if i == 0 {
    } else {
      ItemSmaller(items[1..], i - 1);
    }
  }

  lemma {:induction false} FieldSmaller(fields: seq<Field>, i: nat)
    requires i < |fields|
    ensures Size(fields[i].value) < 1 + FieldsSize(fields)
  {
    if i == 0 {
    } else {
      FieldSmaller(fields[1..], i - 1);
    }
  }

  // ---------------------------------------------------------------- exactly when reading recovers

  /** The reader never produces `undefined`. */
  lemma {:induction false} ParsedDefined(t: string)
    ensures ParseValue(t).Parsed? ==> Defined(ParseValue(t).value)
    decreases |t|, 1
  {
    if t == "" || "null" <= t || "true" <= t || "false" <= t || t[0] == '"' || "[]" <= t || "{}" <= t {
    } else if t[0] == '[' {
      ParsedItemsDefined(t[1..]);
    } else if t[0] == '{' {
      ParsedMembersDefined(t[1..]);
    }
  }

  lemma {:induction false} ParsedItemsDefined(t: string)
    ensures ParseItems(t).Parsed? ==> forall i :: 0 <= i < |ParseItems(t).value| ==> Defined(ParseItems(t).value[i])
    decreases |t|, 2
  {
    ParsedDefined(t);
    if ParseValue(t).Parsed? && ParseValue(t).rest != "" {
      ParsedItemsDefined(ParseValue(t).rest[1..]);
    }
  }

  lemma {:induction false} ParsedMembersDefined(t: string)
    ensures ParseMembers(t).Parsed? ==>
              forall i :: 0 <= i < |ParseMembers(t).value| ==> Defined(ParseMembers(t).value[i].value)
    decreases |t|, 2
  {
    if t != "" && ParseChars(t[1..]).Parsed? {
      var afterKey := ParseChars(t[1..]).rest;
      if afterKey != "" {
        ParsedDefined(afterKey[1..]);
        if ParseValue(afterKey[1..]).Parsed? && ParseValue(afterKey[1..]).rest != "" {
          ParsedMembersDefined(ParseValue(afterKey[1..]).rest[1..]);
        }
      }
    }
  }

  lemma {:induction false} SameDefined(v: Value, w: Value)
    requires Same(v, w) && Defined(w)
    ensures Defined(v)
    decreases v
  {
    match (v, w)
    case (Arr(xs), Arr(ys)) =>
      forall i | 0 <= i < |xs| ensures Defined(xs[i]) { SameDefined(xs[i], ys[i]); }
    case (Obj(fs), Obj(gs)) =>
      forall i | 0 <= i < |fs| ensures Defined(fs[i].value) {
        assert HasSame(fs[i], gs);
        var j :| 0 <= j < |gs| && fs[i].key == gs[j].key && Same(fs[i].value, gs[j].value);
        SameDefined(fs[i].value, gs[j].value);
      }
    case _ =>
  }

  /** A printed value is recovered by `JSON.parse`, up to member order, exactly when it holds no
      `undefined` at any depth. */
  lemma RecoveredIffDefined(v: Value)
    requires WellFormed(v)
    ensures Defined(v) <==> (JsonParse(Jcs(v)).Some? && Same(v, JsonParse(Jcs(v)).value))
  {
    if Defined(v) {
      ReadBack(v);
      CanonSame(v);
    }
    ParsedDefined(Jcs(v));
    if JsonParse(Jcs(v)).Some? && Same(v, JsonParse(Jcs(v)).value) {
      SameDefined(v, JsonParse(Jcs(v)).value);
    }
  }

  // ---------------------------------------------------------------- exactly when the text can be read

  /** No `undefined` at any depth, save as the only item of an array. */
  predicate Legible(v: Value)
    decreases v
  {
    match v
    case Undefined => false
    case Arr(items) => items == [Undefined] || forall i :: 0 <= i < |items| ==> Legible(items[i])
    case Obj(fields) => forall i :: 0 <= i < |fields| ==> Legible(fields[i].value)
    case _ => true
  }

  /** The value with every array of one `undefined` emptied. */
  ghost function Collapsed(v: Value): Value
    decreases v
  {
    match v
    case Arr(items) =>
      if items == [Undefined] then Arr([]) else Arr(seq(|items|, i requires 0 <= i < |items| => Collapsed(items[i])))
    case Obj(fields) =>
      Obj(seq(|fields|, i requires 0 <= i < |fields| => Field(fields[i].key, Collapsed(fields[i].value))))
    case _ => v
  }

  lemma {:induction false} CollapsedFits(v: Value)
    requires WellFormed(v) && Legible(v)
    ensures WellFormed(Collapsed(v)) && Defined(Collapsed(v)) && Alike(v, Collapsed(v))
    decreases v
  {
    match v
    case Arr(items) =>
      forall i | 0 <= i < |items| && items != [Undefined]
        ensures WellFormed(Collapsed(items[i])) && Defined(Collapsed(items[i])) && Alike(items[i], Collapsed(items[i]))
      {
        CollapsedFits(items[i]);
      }
    case Obj(fields) =>
      var collapsed := Collapsed(v).fields;
      forall i | 0 <= i < |fields|
        ensures WellFormed(collapsed[i].value) && Defined(collapsed[i].value) && HasAlike(fields[i], collapsed)
        ensures collapsed[i].key == fields[i].key
      {
        CollapsedFits(fields[i].value);
      }
    case _ =>
  }

  /** Legible text is read, in front of anything that may follow, as a value that prints the same. */
  lemma LegibleReads(v: Value, rest: string)
    requires WellFormed(v) && Legible(v) && Delimited(rest)
    ensures ParseValue(Jcs(v) + rest) == Parsed(Canon(Collapsed(v)), rest)
    ensures Alike(v, Canon(Collapsed(v)))
  {
    var w := Collapsed(v);
    CollapsedFits(v);
    AlikePrintsSame(v, w);
    ParsePrinted(w, rest);
    CanonSame(w);
    CanonWellFormed(w);
    SamePrintsSame(w, Canon(w));
    JcsAlike(v, Canon(w));
  }

  lemma NoValueStart(t: string)
    requires t != "" && (t[0] == 'u' || t[0] == ',' || t[0] == ']')
    ensures ParseValue(t) == Reject
  {
    assert "null"[0] == 'n' && "true"[0] == 't' && "false"[0] == 'f' && "[]"[0] == '[' && "{}"[0] == '{';
  }

  /** Any other value prints text that cannot be read. */
  lemma {:induction false} IllegibleRejected(v: Value, rest: string)
    requires WellFormed(v) && !Legible(v) && Delimited(rest)
    ensures ParseValue(Jcs(v) + rest) == Reject
    decreases Size(v), 1
  {
    match v
    case Undefined =>
      assert "undefined"[0] == 'u';
      NoValueStart("undefined" + rest);
    case Arr(items) =>
      BlankText(items, rest);
      ItemsRejected(items, rest);
      ArrayStep(JcsItems(items), rest);
    case Obj(fields) =>
      var sorted := SortFields(fields);
      SortSize(fields);
      SortedMembersFit(fields);
      SortElements(fields);
      var i :| 0 <= i < |fields| && !Legible(fields[i].value);
      assert fields[i] in sorted;
      MembersRejected(sorted, rest);
      MembersSplit(sorted, rest);
      ObjectStep(JcsFields(sorted), rest);
    case _ =>
  }

  lemma {:induction false} ItemsRejected(items: seq<Value>, rest: string)
    requires WellFormed(Arr(items)) && items != [] && Delimited(rest)
    requires exists i :: 0 <= i < |items| && !Legible(items[i])
    ensures ParseItems(JcsItems(items) + "]" + rest) == Reject
    decreases ItemsSize(items), 0
  {
    var head, follow := items[0], AfterItem(items, rest);
    ItemsSplit(items, rest);
    if head.Undefined? {
      assert ItemText(head) + follow == follow;
      NoValueStart(follow);
    } else if !Legible(head) {
      IllegibleRejected(head, follow);
    } else {
      LegibleReads(head, follow);
      LaterIllegible(items);
      ItemsRejected(items[1..], rest);
      ItemsStop(Jcs(head), JcsItems(items[1..]) + "]" + rest);
    }
  }

  lemma LaterIllegible(items: seq<Value>)
    requires items != [] && Legible(items[0]) && exists i :: 0 <= i < |items| && !Legible(items[i])
    ensures |items| > 1 && exists i :: 0 <= i < |items[1..]| && !Legible(items[1..][i])
  {
    var i :| 0 <= i < |items| && !Legible(items[i]);
    assert items[1..][i - 1] == items[i];
  }

  lemma ItemsStop(vt: string, more: string)
    requires ParseValue(vt + ("," + more)).Parsed? && ParseValue(vt + ("," + more)).rest == "," + more
    requires ParseItems(more) == Reject
    ensures ParseItems(vt + ("," + more)) == Reject
  {
    assert ("," + more)[1..] == more;
  }

  lemma {:induction false} MembersRejected(fields: seq<Field>, rest: string)
    requires AllWellFormed(fields) && fields != [] && Delimited(rest)
    requires exists f :: f in fields && !Legible(f.value)
    ensures ParseMembers(JcsFields(fields) + "}" + rest) == Reject
    decreases FieldsSize(fields), 0
  {
    var f, follow := fields[0], AfterMember(fields, rest);
    MembersSplit(fields, rest);
    if !Legible(f.value) {
      IllegibleRejected(f.value, follow);
      ValueStops(f.key, Jcs(f.value) + follow);
    } else {
      LegibleReads(f.value, follow);
      var g :| g in fields && !Legible(g.value);
      assert g in fields[1..];
      MembersRejected(fields[1..], rest);
      MembersStop(f.key, Jcs(f.value), JcsFields(fields[1..]) + "}" + rest);
    }
  }

  lemma ValueStops(key: string, body: string)
    requires ParseValue(body) == Reject
    ensures ParseMembers(Quote(key) + (":" + body)) == Reject
  {
    KeyStep(key, body);
  }

  lemma MembersStop(key: string, vt: string, more: string)
    requires ParseValue(vt + ("," + more)).Parsed? && ParseValue(vt + ("," + more)).rest == "," + more
    requires ParseMembers(more) == Reject
    ensures ParseMembers(Quote(key) + (":" + (vt + ("," + more)))) == Reject
  {
    KeyStep(key, vt + ("," + more));
    assert ("," + more)[1..] == more;
  }

  /** `JSON.parse` reads a printed value exactly when it is legible, and then as a value equal to it up
      to member order and up to `[undefined]` standing for `[]`. */
  lemma ReadIffLegible(v: Value)
    requires WellFormed(v)
    ensures JsonParse(Jcs(v)).Some? <==> Legible(v)
    ensures Legible(v) ==> Alike(v, JsonParse(Jcs(v)).value)
  {
    assert Jcs(v) + "" == Jcs(v);
    if Legible(v) {
      LegibleReads(v, "");
    } else {
      IllegibleRejected(v, "");
    }
  }

  lemma UndefinedMemberText(f: Field)
    requires f == Field("a", Undefined)
    ensures Jcs(Obj([f])) == "{\"a\":undefined}"
  {
    assert [f][1..] == [] && "a"[1..] == "";
    assert EscapeAll("a") == "a";
    assert SortFields([f]) == [f];
    assert JcsFields([f]) == "\"" + "a" + "\"" + ":" + "undefined";
  }

  /** A member that is `undefined` makes the whole text unreadable. */
  lemma UndefinedMemberUnread()
    ensures Jcs(Obj([Field("a", Undefined)])) == "{\"a\":undefined}"
    ensures JsonParse(Jcs(Obj([Field("a", Undefined)]))) == None
  {
    UndefinedMemberText(Field("a", Undefined));
    var v := Obj([Field("a", Undefined)]);
    assert !Legible(v.fields[0].value);
    ReadIffLegible(v);
  }

  /** A concrete loss: `join` prints an `undefined` item as nothing, so two different arrays share
      one text and the reader returns the empty one. */
  lemma UndefinedItemLost()
    ensures Jcs(Arr([Undefined])) == Jcs(Arr([])) == "[]"
    ensures JsonParse(Jcs(Arr([Undefined]))) == Some(Arr([]))
    ensures Alike(Arr([Undefined]), Arr([])) && !Same(Arr([Undefined]), Arr([]))
  {
  }
}
