/**
 How the text of the canonical printer looks, measured against RFC 8785 itself: members in the order
 of their UTF-16 code units, every character in its shortest form, and the standard's own example.
 */
module JsonText {
  import opened Wrappers
  import opened Json
  import opened JsonLaws

  // ---------------------------------------------------------------- members in code unit order

  /** The UTF-16 code units of a character: one below U+10000, else the two surrogates. */
  function UnitsOf(c: char): seq<int> {
    if c as int < 0x10000 then [c as int]
    else [0xD800 + (c as int - 0x10000) / 0x400, 0xDC00 + (c as int - 0x10000) % 0x400]
  }

  function CodeUnits(s: string): seq<int> {
    if s == "" then [] else UnitsOf(s[0]) + CodeUnits(s[1..])
  }

  /** Lexicographic order: a proper beginning, or the smaller unit at the first place they differ. */
  ghost predicate Before(x: seq<int>, y: seq<int>) {
    exists i :: DiffersAt(x, y, i)
  }

  ghost predicate DiffersAt(x: seq<int>, y: seq<int>, i: int) {
    && 0 <= i <= |x| && i < |y|
    && (forall j :: 0 <= j < i ==> x[j] == y[j])
    && (i == |x| || x[i] < y[i])
  }

  /** A common first part does not matter. */
  lemma SamePart(p: seq<int>, x: seq<int>, y: seq<int>)
    ensures Before(p + x, p + y) <==> Before(x, y)
  {
    if Before(x, y) {
      var i :| DiffersAt(x, y, i);
      assert forall j :: |p| <= j < |p| + i ==> (p + x)[j] == x[j - |p|] && (p + y)[j] == y[j - |p|];
      assert DiffersAt(p + x, p + y, |p| + i);
    }
    if Before(p + x, p + y) {
      var i :| DiffersAt(p + x, p + y, i);
      assert forall j :: 0 <= j < i - |p| ==> x[j] == (p + x)[|p| + j] && y[j] == (p + y)[|p| + j];
      assert DiffersAt(x, y, i - |p|);
    }
  }

  /** Two different characters are told apart within their own units. */
  lemma OtherPart(c: char, d: char, x: seq<int>, y: seq<int>)
    requires c != d
    ensures Before(UnitsOf(c) + x, UnitsOf(d) + y) <==> Rank(c) < Rank(d)
  {
    var a, b := UnitsOf(c) + x, UnitsOf(d) + y;
    var i := if a[0] != b[0] then 0 else 1;
    assert i < |UnitsOf(c)| && i < |UnitsOf(d)| && a[i] != b[i];
    assert a[i] < b[i] <==> Rank(c) < Rank(d);
    if a[i] < b[i] { assert DiffersAt(a, b, i); }
    if Before(a, b) {
      var k :| DiffersAt(a, b, k);
      assert k == i;
    }
  }

  /** The order of the sort is that of the code units (RFC 8785 section 3.2.3). */
  lemma {:induction false} LessIsUnitOrder(a: string, b: string)
    ensures Less(a, b) <==> Before(CodeUnits(a), CodeUnits(b))
  {
    if b == "" {
    } else if a == "" {
      assert DiffersAt(CodeUnits(a), CodeUnits(b), 0);
    } else if a[0] == b[0] {
      LessIsUnitOrder(a[1..], b[1..]);
      SamePart(UnitsOf(a[0]), CodeUnits(a[1..]), CodeUnits(b[1..]));
    } else {
      OtherPart(a[0], b[0], CodeUnits(a[1..]), CodeUnits(b[1..]));
    }
  }

  ghost predicate InUnitOrder(fields: seq<Field>) {
    forall i, j :: 0 <= i < j < |fields| ==> Before(CodeUnits(fields[i].key), CodeUnits(fields[j].key))
  }

  lemma UnitOrderIsSorted(fields: seq<Field>)
    ensures InUnitOrder(fields) <==> SortedKeys(fields)
  {
    forall i, j | 0 <= i < j < |fields|
      ensures Less(fields[i].key, fields[j].key) <==> Before(CodeUnits(fields[i].key), CodeUnits(fields[j].key))
    {
      LessIsUnitOrder(fields[i].key, fields[j].key);
    }
  }

  lemma {:induction false} InsertKeeps(f: Field, fields: seq<Field>)
    ensures multiset(Insert(f, fields)) == multiset([f] + fields)
  {
    if fields != [] && Less(fields[0].key, f.key) {
      InsertKeeps(f, fields[1..]);
      assert fields == [fields[0]] + fields[1..];
    }
  }

  lemma {:induction false} SortKeeps(fields: seq<Field>)
    ensures multiset(SortFields(fields)) == multiset(fields)
  {
    if fields == [] {
    } else {
      SortKeeps(fields[1..]);
      InsertKeeps(fields[0], SortFields(fields[1..]));
      assert fields == [fields[0]] + fields[1..];
    }
  }

  /** Sorting an object's members is the one arrangement of them in code unit order. */
  lemma SortExact(fields: seq<Field>, sorted: seq<Field>)
    requires DistinctKeys(fields)
    ensures sorted == SortFields(fields) <==> InUnitOrder(sorted) && multiset(sorted) == multiset(fields)
  {
    SortSorted(fields);
    SortKeeps(fields);
    UnitOrderIsSorted(SortFields(fields));
    UnitOrderIsSorted(sorted);
    if InUnitOrder(sorted) && multiset(sorted) == multiset(fields) {
      OneArrangement(sorted, SortFields(fields));
    }
  }

  lemma OneArrangement(a: seq<Field>, b: seq<Field>)
    requires SortedKeys(a) && SortedKeys(b) && multiset(a) == multiset(b)
    ensures a == b
  {
    forall i | 0 <= i < |a| ensures HasKey(b, a[i].key) { assert a[i] in multiset(a) && a[i] in b; }
    forall i | 0 <= i < |b| ensures HasKey(a, b[i].key) { assert b[i] in multiset(b) && b[i] in a; }
    SortedAligned(a, b);
    forall i | 0 <= i < |a| ensures a[i] == b[i] {
      assert a[i] in multiset(a) && a[i] in b;
      var j :| 0 <= j < |b| && b[j] == a[i];
      LessTotal(b[j].key, b[i].key);
      LessTotal(b[i].key, b[i].key);
      assert j == i;
    }
  }

  /** The members of every object at every depth are in code unit order. */
  ghost predicate InOrder(v: Value)
    decreases v
  {
    match v
    case Arr(items) => forall i :: 0 <= i < |items| ==> InOrder(items[i])
    case Obj(fields) => InUnitOrder(fields) && forall i :: 0 <= i < |fields| ==> InOrder(fields[i].value)
    case _ => true
  }

  lemma {:induction false} CanonInOrder(v: Value)
    requires WellFormed(v)
    ensures InOrder(Canon(v))
    decreases Size(v), 1
  {
    match v
    case Arr(items) =>
      CanonItemsAt(items);
      forall i | 0 <= i < |items| ensures InOrder(Canon(items[i])) {
        ItemSmaller(items, i);
        CanonInOrder(items[i]);
      }
    case Obj(fields) =>
      var sorted := SortFields(fields);
      SortSize(fields);
      SortedMembersFit(fields);
      CanonFieldsKeys(sorted);
      UnitOrderIsSorted(Canon(v).fields);
      forall i | 0 <= i < |sorted| ensures InOrder(Canon(sorted[i].value)) {
        FieldSmaller(sorted, i);
        CanonInOrder(sorted[i].value);
      }
    case _ =>
  }

  /** Whatever printed text can be read is read with the members of every object in code unit order. */
  lemma PrintedInOrder(v: Value)
    requires WellFormed(v) && JsonParse(Jcs(v)).Some?
    ensures InOrder(JsonParse(Jcs(v)).value)
  {
    ReadIffLegible(v);
    LegibleReads(v, "");
    assert Jcs(v) + "" == Jcs(v);
    CollapsedFits(v);
    CanonInOrder(Collapsed(v));
  }

  // ---------------------------------------------------------------- characters in their shortest form

  lemma EscapeLength(t: string)
    requires ParseEscape(t).Parsed?
    ensures |EscapeChar(ParseEscape(t).value)| <= 1 + |t| - |ParseEscape(t).rest|
  {
  }

  lemma ClosingQuote(t: string)
    requires ParseChars(t) == Parsed("", "")
    ensures t == "\""
  {
  }

  lemma OnlyHead(c: char, more: string, d: char)
    requires [c] + more == [d]
    ensures c == d && more == ""
  {
    assert ([c] + more)[0] == c && |[c] + more| == 1 + |more|;
  }

  lemma OneChar(all: string, c: char)
    requires ParseChars(all) == Parsed([c], "")
    ensures all != "" && all[0] != '"' && all[0] >= ' '
    ensures if all[0] == '\\' then ParseEscape(all[1..]) == Parsed(c, "\"") else all[0] == c && |all| == 2
  {
    var first := if all[0] == '\\' then ParseEscape(all[1..]) else Parsed(all[0], all[1..]);
    var more := ParseChars(first.rest);
    OnlyHead(first.value, more.value, c);
    ClosingQuote(first.rest);
  }

  lemma RawChar(c: char)
    requires c >= ' ' && c != '"' && c != '\\'
    ensures EscapeChar(c) == [c]
  {
  }

  /** A character is written in the shortest text that a JSON string reader, up to the closing quote,
      takes for it. */
  lemma EscapeShortest(c: char, quoted: string)
    requires ParseChars(quoted) == Parsed([c], "")
    ensures |EscapeChar(c)| <= |quoted| - 1
  {
    OneChar(quoted, c);
    if quoted[0] == '\\' {
      EscapeLength(quoted[1..]);
    } else {
      RawChar(c);
    }
  }

  /** And a hex escape in lower case (RFC 8785 section 3.2.2.2). */
  lemma EscapesLowerCase(c: char, x: char)
    requires |EscapeChar(c)| > 1 && x in EscapeChar(c)
    ensures !('A' <= x <= 'Z')
  {
  }

  // ---------------------------------------------------------------- escapes the reader knows

  /** The value of a hex digit of either case. */
  ghost predicate HexIs(c: char, v: int) {
    0 <= v < 16 && (c == "0123456789abcdef"[v] || c == "0123456789ABCDEF"[v])
  }

  lemma HexValueExact(c: char, v: int)
    requires v != -1
    ensures HexValue(c) == v <==> HexIs(c, v)
  {
  }

  /** Four hex digits of either case read as the character they number; the surrogates number none. */
  lemma EscapeReads(a: char, b: char, c: char, d: char, u: int, v: int, w: int, x: int)
    requires HexIs(a, u) && HexIs(b, v) && HexIs(c, w) && HexIs(d, x)
    ensures
      var n := ((u * 16 + v) * 16 + w) * 16 + x;
      ParseEscape(['u', a, b, c, d]) == if 0xD800 <= n < 0xE000 then Reject else Parsed(n as char, "")
  {
    HexValueExact(a, u);
    HexValueExact(b, v);
    HexValueExact(c, w);
    HexValueExact(d, x);
  }

  /** The eight short escapes (section 9 of ECMA-404). */
  lemma ShortEscapes(rest: string)
    ensures ParseEscape("\"" + rest) == Parsed('"', rest) && ParseEscape("\\" + rest) == Parsed('\\', rest)
    ensures ParseEscape("/" + rest) == Parsed('/', rest) && ParseEscape("n" + rest) == Parsed('\n', rest)
    ensures ParseEscape("r" + rest) == Parsed('\r', rest) && ParseEscape("t" + rest) == Parsed('\t', rest)
    ensures ParseEscape("b" + rest) == Parsed('\U{8}', rest) && ParseEscape("f" + rest) == Parsed('\U{c}', rest)
  {
  }

  // ---------------------------------------------------------------- examples

  function Named(key: char): Field { Field([key], Null) }

  lemma NamedLess(c: char, d: char)
    ensures Less(Named(c).key, Named(d).key) <==> Rank(c) < Rank(d)
  {
  }

  lemma SortedNames(keys: seq<char>, named: seq<Field>)
    requires |named| == |keys| && forall i :: 0 <= i < |keys| ==> named[i] == Named(keys[i])
    requires forall i, j :: 0 <= i < j < |keys| ==> Rank(keys[i]) < Rank(keys[j])
    ensures InUnitOrder(named)
  {
    forall i, j | 0 <= i < j < |keys| ensures Less(named[i].key, named[j].key) { NamedLess(keys[i], keys[j]); }
    UnitOrderIsSorted(named);
  }

  /** The keys of the example in RFC 8785 section 3.2.3, as it sorts them: the emoji, written with
      surrogates, comes before U+FB33. */
  lemma StandardKeyOrder()
    ensures
      InUnitOrder([Named('\r'), Named('1'), Named('\U{80}'), Named('\U{f6}'), Named('\U{20ac}'), Named('\U{1f600}'),
                   Named('\U{fb33}')])
  {
    var keys := ['\r', '1', '\U{80}', '\U{f6}', '\U{20ac}', '\U{1f600}', '\U{fb33}'];
    SortedNames(keys, [Named(keys[0]), Named(keys[1]), Named(keys[2]), Named(keys[3]), Named(keys[4]), Named(keys[5]),
                       Named(keys[6])]);
  }

  lemma TwoItems(v: Value, w: Value)
    requires !v.Undefined? && !w.Undefined?
    ensures Jcs(Arr([v, w])) == "[" + (Jcs(v) + "," + Jcs(w)) + "]"
  {
    assert [v, w][1..] == [w];
    assert JcsItems([w]) == Jcs(w);
  }

  lemma NumberSpelledOut()
    ensures Jcs(Num(-120)) == "-120"
  {
    assert PrintNat(12) == "12" && PrintNat(120) == "120";
  }

  lemma EscapeSpelledOut()
    ensures Jcs(Str("x\n")) == "\"x\\n\""
  {
    assert "x\n"[1..] == "\n" && "\n"[1..] == "";
    assert EscapeAll("\n") == "\\n";
  }

  lemma KeySpelledOut(c: char)
    requires 'a' <= c <= 'z'
    ensures Quote([c]) == "\"" + [c] + "\""
  {
    assert [c][1..] == "";
    assert EscapeAll([c]) == [c];
  }

  lemma TwoMembers(f: Field, g: Field)
    requires Less(f.key, g.key)
    ensures Jcs(Obj([g, f])) ==
            "{" + (Quote(f.key) + ":" + Jcs(f.value) + "," + (Quote(g.key) + ":" + Jcs(g.value))) + "}"
  {
    assert [g, f][1..] == [f] && [f][1..] == [];
    assert SortFields([f]) == [f];
    assert Insert(g, [f]) == [f] + Insert(g, []);
    assert SortFields([g, f]) == [f, g];
    JoinedMembers(f, g);
  }

  lemma JoinedMembers(f: Field, g: Field)
    ensures JcsFields([f, g]) == Quote(f.key) + ":" + Jcs(f.value) + "," + (Quote(g.key) + ":" + Jcs(g.value))
  {
    assert [f, g][1..] == [g];
    assert JcsFields([g]) == Quote(g.key) + ":" + Jcs(g.value);
  }

  /** One object, spelled out. */
  lemma SpelledOut()
    ensures Jcs(Obj([Field("b", Arr([Num(-120), Bool(true)])), Field("a", Str("x\n"))])) ==
            "{\"a\":\"x\\n\",\"b\":[-120,true]}"
  {
    assert Less("a", "b");
    TwoMembers(Field("a", Str("x\n")), Field("b", Arr([Num(-120), Bool(true)])));
    TwoItems(Num(-120), Bool(true));
    NumberSpelledOut();
    EscapeSpelledOut();
    KeySpelledOut('a');
    KeySpelledOut('b');
    JoinSpelledOut(Jcs(Str("x\n")), Jcs(Arr([Num(-120), Bool(true)])));
  }

  lemma JoinSpelledOut(text: string, items: string)
    requires text == "\"x\\n\"" && items == "[" + ("-120" + "," + "true") + "]"
    ensures "{" + ("\"" + "a" + "\"" + ":" + text + "," + ("\"" + "b" + "\"" + ":" + items)) + "}" ==
            "{\"a\":\"x\\n\",\"b\":[-120,true]}"
  {
  }
}
