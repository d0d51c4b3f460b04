/**
 The server-sent event wire: the frames the Runner writes and the buffer loop the command-line
 client reads them with. The main result: however the text is cut into chunks, the client
 delivers every payload once, in order, and ends with nothing buffered.
 */
module SseWire {
  import opened Wrappers
  import opened Json
  import opened JsonLaws

  /** One frame to be written: the event type and the whole event object. */
  datatype Frame = Frame(kind: string, payload: Value)

  /** `serializeSseFrame`. */
  function SerializeFrame(f: Frame): string {
    "event: " + f.kind + "\ndata: " + Jcs(f.payload) + "\n\n"
  }

  const STREAM_DONE := ": stream-done\n\n"

  /** Everything written for a stream: its frames, then the closing comment. */
  function WireText(frames: seq<Frame>): string {
    if frames == [] then STREAM_DONE else SerializeFrame(frames[0]) + WireText(frames[1..])
  }

  // ---------------------------------------------------------------- the client, as a function

  predicate BlankAt(t: string, i: int) {
    0 <= i && i + 2 <= |t| && t[i] == '\n' && t[i + 1] == '\n'
  }

  /** `indexOf("\n\n")`: the first blank line, or None. */
  function FindBlankLine(t: string): (r: Option<nat>)
    ensures r.Some? ==> BlankAt(t, r.value)
    ensures forall i :: BlankAt(t, i) ==> r.Some? && r.value <= i
  {
    FindBlankFrom(t, 0)
  }

  function FindBlankFrom(t: string, from: nat): (r: Option<nat>)
    ensures r.Some? ==> BlankAt(t, r.value)
    ensures forall i :: from <= i && BlankAt(t, i) ==> r.Some? && r.value <= i
    decreases |t| - from
  {
    if from + 2 > |t| then None
    else if BlankAt(t, from) then Some(from)
    else FindBlankFrom(t, from + 1)
  }

  function LineLength(t: string): (n: nat)
    ensures n <= |t| && '\n' !in t[..n] && (n < |t| ==> t[n] == '\n')
  {
    if t == "" || t[0] == '\n' then 0
    else
      var n := LineLength(t[1..]);
      assert t[..n + 1] == [t[0]] + t[1..][..n];
      n + 1
  }

  /** `split("\n")`. */
  function SplitLines(t: string): (lines: seq<string>)
    ensures lines != []
    decreases |t|
  {
    var n := LineLength(t);
    if n == |t| then [t] else [t[..n]] + SplitLines(t[n + 1..])
  }

  /** The text after `prefix` on the last line that starts with it and no earlier branch took. */
  function LastField(lines: seq<string>, prefix: string): string {
    if lines == [] then ""
    else
      var last := lines[|lines| - 1];
      if prefix <= last then last[|prefix|..] else LastField(lines[..|lines| - 1], prefix)
  }

  /** The data of one frame: none for a comment or when a field is missing. */
  function FrameData(frame: string): Option<string> {
    if ":" <= frame then None
    else
      var lines := SplitLines(frame);
      var data := LastField(lines, "data: ");
      if LastField(lines, "event: ") == "" || data == "" then None else Some(data)
  }

  function ToSeq<T>(p: Option<T>): seq<T> {
    match p
    case None => []
    case Some(v) => [v]
  }

  /** The complete frames of a text, and the incomplete rest. */
  datatype Pieces = Pieces(frames: seq<string>, rest: string)

  function Cut(t: string): Pieces
    decreases |t|
  {
    match FindBlankLine(t)
    case None => Pieces([], t)
    case Some(i) =>
      var more := Cut(t[i + 2..]);
      Pieces([t[..i]] + more.frames, more.rest)
  }

  function Datas(frames: seq<string>): seq<string> {
    if frames == [] then [] else ToSeq(FrameData(frames[0])) + Datas(frames[1..])
  }

  /** Malformed data is skipped. */
  function ParseAll(datas: seq<string>): seq<Value> {
    if datas == [] then [] else ToSeq(JsonParse(datas[0])) + ParseAll(datas[1..])
  }

  /** Everything the client yields for a text. */
  function Yielded(t: string): seq<Value> {
    ParseAll(Datas(Cut(t).frames))
  }

  function Concat(chunks: seq<string>): string {
    if chunks == [] then "" else chunks[0] + Concat(chunks[1..])
  }

  // ---------------------------------------------------------------- the client, as it runs

  method ParseFrame(frame: string) returns (found: Option<string>)
    ensures found == FrameData(frame)
  {
    if ":" <= frame {
      return None;
    }
    var kind, data := "", "";
    var lines := SplitLines(frame);
    var n := 0;
    while n < |lines|
      invariant 0 <= n <= |lines|
      invariant kind == LastField(lines[..n], "event: ")
      invariant data == LastField(lines[..n], "data: ")
    {
      var line := lines[n];
      if "event: " <= line {
        kind := line[7..];
      } else if "data: " <= line {
        data := line[6..];
      }
      n := n + 1;
      assert lines[..n][..n - 1] == lines[..n - 1] && lines[..n][n - 1] == line;
      assert "event: "[0] == 'e' && "data: "[0] == 'd';
    }
    assert lines[..n] == lines;
    if kind == "" || data == "" {
      return None;
    }
    found := Some(data);
  }

  /** The inner loop: consumes every complete frame of the buffer. */
  method DrainBuffer(pending: string) returns (yielded: seq<Value>, buffer: string)
    ensures yielded == Yielded(pending)
    ensures buffer == Cut(pending).rest
  {
    yielded, buffer := [], pending;
    while FindBlankLine(buffer).Some?
      invariant yielded + Yielded(buffer) == Yielded(pending)
      invariant Cut(buffer).rest == Cut(pending).rest
      decreases |buffer|
    {
      var idx := FindBlankLine(buffer).value;
      var data := ParseFrame(buffer[..idx]);
      YieldedStep(buffer, idx, data);
      if data.Some? {
        Regroup3(yielded, ToSeq(JsonParse(data.value)), Yielded(buffer[idx + 2..]));
        yielded := yielded + ToSeq(JsonParse(data.value));
      }
      buffer := buffer[idx + 2..];
    }
    NothingYielded(buffer);
  }

  lemma Regroup3(a: seq<Value>, b: seq<Value>, c: seq<Value>)
    ensures a + (b + c) == (a + b) + c
  {
  }

  lemma NothingYielded(t: string)
    requires FindBlankLine(t).None?
    ensures Yielded(t) == [] && Cut(t).rest == t
  {
  }

  lemma YieldedStep(t: string, idx: nat, data: Option<string>)
    requires FindBlankLine(t) == Some(idx) && data == FrameData(t[..idx])
    ensures Cut(t).rest == Cut(t[idx + 2..]).rest
    ensures data.None? ==> Yielded(t) == Yielded(t[idx + 2..])
    ensures data.Some? ==> Yielded(t) == ToSeq(JsonParse(data.value)) + Yielded(t[idx + 2..])
  {
    CutStep(t, idx);
    var rest := Datas(Cut(t[idx + 2..]).frames);
    ParseAllAppend(ToSeq(data), rest);
    if data.Some? { ParseAllOne(data.value); }
    assert [] + rest == rest;
  }

  /** The client's read loop over the chunks the body arrives in. */
  method ReadStream(chunks: seq<string>) returns (yielded: seq<Value>, buffer: string)
    ensures yielded == Yielded(Concat(chunks))
    ensures buffer == Cut(Concat(chunks)).rest
  {
    yielded, buffer := [], "";
    var n := 0;
    while n < |chunks|
      invariant 0 <= n <= |chunks|
      invariant yielded == Yielded(Concat(chunks[..n]))
      invariant buffer == Cut(Concat(chunks[..n])).rest
    {
      YieldedAppend(Concat(chunks[..n]), chunks[n]);
      ConcatSnoc(chunks, n);
      var more;
      more, buffer := DrainBuffer(buffer + chunks[n]);
      yielded := yielded + more;
      n := n + 1;
    }
    assert chunks[..n] == chunks;
  }

  lemma CutStep(t: string, idx: nat)
    requires FindBlankLine(t) == Some(idx)
    ensures Cut(t).rest == Cut(t[idx + 2..]).rest
    ensures Datas(Cut(t).frames) == ToSeq(FrameData(t[..idx])) + Datas(Cut(t[idx + 2..]).frames)
  {
  }

  lemma ParseAllOne(data: string)
    ensures ParseAll([data]) == ToSeq(JsonParse(data))
  {
  }

  lemma {:induction false} DatasAppend(a: seq<string>, b: seq<string>)
    ensures Datas(a + b) == Datas(a) + Datas(b)
  {
    if a == [] {
      assert a + b == b;
    } else {
      assert (a + b)[1..] == a[1..] + b;
      DatasAppend(a[1..], b);
    }
  }

  lemma {:induction false} ParseAllAppend(a: seq<string>, b: seq<string>)
    ensures ParseAll(a + b) == ParseAll(a) + ParseAll(b)
  {
    if a == [] {
      assert a + b == b;
    } else {
      assert (a + b)[1..] == a[1..] + b;
      ParseAllAppend(a[1..], b);
    }
  }

  /** Reading a chunk later yields what reading all the text at once yields. */
  lemma YieldedAppend(a: string, b: string)
    ensures Yielded(a + b) == Yielded(a) + Yielded(Cut(a).rest + b)
    ensures Cut(a + b).rest == Cut(Cut(a).rest + b).rest
  {
    CutAppend(a, b);
    var first, second := Cut(a).frames, Cut(Cut(a).rest + b).frames;
    DatasAppend(first, second);
    ParseAllAppend(Datas(first), Datas(second));
  }

  lemma {:induction false} ConcatSnoc(chunks: seq<string>, n: nat)
    requires n < |chunks|
    ensures Concat(chunks[..n + 1]) == Concat(chunks[..n]) + chunks[n]
  {
    if n == 0 {
      assert chunks[..1] == [chunks[0]] && chunks[..0] == [];
      assert Concat([chunks[0]]) == chunks[0] + Concat([]);
    } else {
      assert chunks[..n + 1][0] == chunks[0] && chunks[..n + 1][1..] == chunks[1..][..n];
      assert chunks[..n][0] == chunks[0] && chunks[..n][1..] == chunks[1..][..n - 1];
      ConcatSnoc(chunks[1..], n - 1);
    }
  }

  /** Cutting more text later is the same as cutting it all at once, wherever the chunk boundary
      falls, even inside a blank line. */
  lemma {:induction false} CutAppend(a: string, b: string)
    ensures
      var first := Cut(a);
      var second := Cut(first.rest + b);
      Cut(a + b) == Pieces(first.frames + second.frames, second.rest)
    decreases |a|
  {
    match FindBlankLine(a)
    case None =>
      assert [] + Cut(a + b).frames == Cut(a + b).frames;
    case Some(i) =>
      BlankLineAppend(a, b);
      assert (a + b)[..i] == a[..i] && (a + b)[i + 2..] == a[i + 2..] + b;
      CutAppend(a[i + 2..], b);
      var first := Cut(a[i + 2..]);
      var second := Cut(first.rest + b);
      assert [a[..i]] + (first.frames + second.frames) == [a[..i]] + first.frames + second.frames;
  }

  lemma BlankLineAppend(a: string, b: string)
    requires FindBlankLine(a).Some?
    ensures FindBlankLine(a + b) == FindBlankLine(a)
  {
    assert BlankAt(a + b, FindBlankLine(a).value);
    assert BlankAt(a, FindBlankLine(a + b).value);
  }

  // ---------------------------------------------------------------- printer against client

  /** The event types on the wire: nonempty, on one line. */
  ghost predicate PlainKind(kind: string) {
    kind != "" && '\n' !in kind
  }

  lemma {:induction false} LineLengthIs(line: string, rest: string)
    requires '\n' !in line && (rest == "" || rest[0] == '\n')
    ensures LineLength(line + rest) == |line|
  {
    if line == "" {
      assert line + rest == rest;
    } else {
      assert line[0] in line && (line + rest)[1..] == line[1..] + rest;
      LineLengthIs(line[1..], rest);
    }
  }

  /** A printed frame is read back as its payload. */
  lemma FrameReads(f: Frame)
    requires PlainKind(f.kind)
    ensures FrameData(Body(f)) == Some(Jcs(f.payload))
  {
    JcsOneLine(f.payload);
    TwoLines("event: " + f.kind, "data: " + Jcs(f.payload));
    BodyFields(f.kind, Jcs(f.payload));
    assert !(":" <= Body(f)) by {
      assert Body(f)[0] == 'e' && ":"[0] == ':';
    }
  }

  lemma TwoLines(first: string, second: string)
    requires '\n' !in first && '\n' !in second
    ensures SplitLines(first + "\n" + second) == [first, second]
  {
    var t := first + "\n" + second;
    assert t == first + ("\n" + second);
    LineLengthIs(first, "\n" + second);
    LineLengthIs(second, "");
    assert second + "" == second;
    assert t[..|first|] == first && t[|first| + 1..] == second;
  }

  lemma BodyFields(kind: string, data: string)
    ensures LastField(["event: " + kind, "data: " + data], "event: ") == kind
    ensures LastField(["event: " + kind, "data: " + data], "data: ") == data
    ensures "event: " + kind + "\ndata: " + data == "event: " + kind + "\n" + ("data: " + data)
  {
    var first, second := "event: " + kind, "data: " + data;
    assert [first, second][..1] == [first];
    assert "event: "[0] == 'e' && second[0] == 'd';
    assert first[7..] == kind && second[6..] == data;
    assert LastField([first], "event: ") == kind;
  }

  /** The first blank line of a printed frame is its end. */
  lemma FrameEnds(f: Frame, rest: string)
    requires PlainKind(f.kind)
    ensures FindBlankLine(SerializeFrame(f) + rest) == Some(|SerializeFrame(f)| - 2)
  {
    JcsOneLine(f.payload);
    var first, second := "event: " + f.kind, "data: " + Jcs(f.payload);
    var t := SerializeFrame(f) + rest;
    assert t == first + "\n" + second + "\n\n" + rest;
    BlankLineAfter(first, second, rest);
  }

  lemma BlankLineAfter(first: string, second: string, rest: string)
    requires first != "" && '\n' !in first && second != "" && '\n' !in second
    ensures FindBlankLine(first + "\n" + second + "\n\n" + rest) == Some(|first| + 1 + |second|)
  {
    var t := first + "\n" + second + "\n\n" + rest;
    var n := |first| + 1 + |second|;
    assert BlankAt(t, n);
    forall k | 0 <= k < n ensures !BlankAt(t, k) {
      if k < |first| {
        assert t[k] == first[k] && first[k] in first;
      } else if k == |first| {
        assert t[k + 1] == second[0] && second[0] in second;
      } else {
        assert t[k] == second[k - |first| - 1] && second[k - |first| - 1] in second;
      }
    }
  }

  function Bodies(frames: seq<Frame>): seq<string> {
    if frames == [] then [] else [Body(frames[0])] + Bodies(frames[1..])
  }

  function Body(f: Frame): string {
    "event: " + f.kind + "\ndata: " + Jcs(f.payload)
  }

  const DONE_COMMENT := ": stream-done"

  lemma DoneCuts()
    ensures Cut(STREAM_DONE) == Pieces([DONE_COMMENT], "")
  {
    var t := STREAM_DONE;
    assert |t| == 15 && BlankAt(t, 13);
    assert forall i :: 0 <= i < 13 ==> !BlankAt(t, i);
    assert FindBlankLine(t) == Some(13);
    assert t[..13] == DONE_COMMENT && t[15..] == "";
  }

  lemma CutFirst(body: string, rest: string)
    requires FindBlankLine(body + "\n\n" + rest) == Some(|body|)
    ensures Cut(body + "\n\n" + rest) == Pieces([body] + Cut(rest).frames, Cut(rest).rest)
  {
    var t := body + "\n\n" + rest;
    assert t[..|body|] == body && t[|body| + 2..] == rest;
  }

  /** The text of a stream falls into its frames and the closing comment, with nothing left. */
  lemma {:induction false} WireCuts(frames: seq<Frame>)
    requires forall f :: f in frames ==> PlainKind(f.kind)
    ensures Cut(WireText(frames)) == Pieces(Bodies(frames) + [DONE_COMMENT], "")
  {
    if frames == [] {
      DoneCuts();
    } else {
      var rest := WireText(frames[1..]);
      var body := Body(frames[0]);
      FrameEnds(frames[0], rest);
      assert SerializeFrame(frames[0]) == body + "\n\n";
      CutFirst(body, rest);
      WireCuts(frames[1..]);
      assert [body] + (Bodies(frames[1..]) + [DONE_COMMENT]) == Bodies(frames) + [DONE_COMMENT];
    }
  }

  /** The texts of the payloads. */
  function Texts(frames: seq<Frame>): seq<string> {
    if frames == [] then [] else [Jcs(frames[0].payload)] + Texts(frames[1..])
  }

  lemma {:induction false} BodiesRead(frames: seq<Frame>)
    requires forall f :: f in frames ==> PlainKind(f.kind)
    ensures Datas(Bodies(frames)) == Texts(frames)
  {
    if frames == [] {
    } else {
      FrameReads(frames[0]);
      assert Bodies(frames)[1..] == Bodies(frames[1..]);
      BodiesRead(frames[1..]);
    }
  }

  /** What the client's loop returns on a whole stream: every payload text parsed, in order, and an
      empty buffer. The comment delivers nothing. */
  lemma WireYields(frames: seq<Frame>)
    requires forall f :: f in frames ==> PlainKind(f.kind)
    ensures Yielded(WireText(frames)) == ParseAll(Texts(frames))
    ensures Cut(WireText(frames)).rest == ""
  {
    WireCuts(frames);
    BodiesRead(frames);
    DatasAppend(Bodies(frames), [DONE_COMMENT]);
    assert FrameData(DONE_COMMENT) == None by {
      assert ":" <= DONE_COMMENT;
    }
    assert Datas([DONE_COMMENT]) == [];
    assert Texts(frames) + [] == Texts(frames);
  }

  /** The values are the payloads of the frames, one for one, up to member order. */
  ghost predicate Recovers(values: seq<Value>, frames: seq<Frame>) {
    && |values| == |frames|
    && forall i :: 0 <= i < |frames| ==> Same(frames[i].payload, values[i]) && WellFormed(values[i])
  }

  lemma {:induction false} TextsRecover(frames: seq<Frame>)
    requires forall f :: f in frames ==> WellFormed(f.payload) && Defined(f.payload)
    ensures Recovers(ParseAll(Texts(frames)), frames)
  {
    if frames == [] {
    } else {
      TextsRecover(frames[1..]);
      assert frames[0] in frames;
      ReadBack(frames[0].payload);
      CanonSame(frames[0].payload);
      CanonWellFormed(frames[0].payload);
      assert Texts(frames)[1..] == Texts(frames[1..]);
    }
  }

  /** The round trip, for every list of frames and every way of cutting the text into chunks: by
      the contract of `ReadStream` the client yields every payload once, in order, and its buffer
      ends empty. */
  lemma StreamRoundTrip(frames: seq<Frame>, chunks: seq<string>)
    requires forall f :: f in frames ==> PlainKind(f.kind) && WellFormed(f.payload) && Defined(f.payload)
    requires Concat(chunks) == WireText(frames)
    ensures Recovers(Yielded(Concat(chunks)), frames)
    ensures Cut(Concat(chunks)).rest == ""
  {
    WireYields(frames);
    TextsRecover(frames);
  }

  /** A frame is recovered exactly when its payload holds no `undefined`: the client yields one
      value, and it is the payload. */
  lemma FrameRecoveredIffDefined(f: Frame)
    requires PlainKind(f.kind) && WellFormed(f.payload)
    ensures Defined(f.payload) <==> Recovers(Yielded(WireText([f])), [f])
  {
    WireYields([f]);
    assert Texts([f]) == [Jcs(f.payload)];
    ParseAllOne(Jcs(f.payload));
    RecoveredIffDefined(f.payload);
    if Defined(f.payload) {
      ReadBack(f.payload);
      CanonWellFormed(f.payload);
    }
  }
}
