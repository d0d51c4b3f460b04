/**
 What the client's cutting and reading of frames means, in terms of the text alone: where frames end,
 which of their lines count, and what a frame contributes.
 */
module SseFrames {
  import opened Wrappers
  import opened Json
  import opened SseWire

  // ---------------------------------------------------------------- where frames end

  /** The text of complete frames, each closed by a blank line. */
  function Closed(frames: seq<string>): string {
    if frames == [] then "" else frames[0] + "\n\n" + Closed(frames[1..])
  }

  /** The blank line after the frame is the first one. */
  ghost predicate EndsFirst(frame: string) {
    forall i :: BlankAt(frame + "\n\n", i) ==> i >= |frame|
  }

  /** Complete frames and an incomplete rest. */
  ghost predicate Pieced(frames: seq<string>, rest: string) {
    (forall f :: f in frames ==> EndsFirst(f)) && forall i :: !BlankAt(rest, i)
  }

  lemma FirstBlank(frame: string, more: string)
    requires EndsFirst(frame)
    ensures FindBlankLine(frame + "\n\n" + more) == Some(|frame|)
  {
    var t := frame + "\n\n" + more;
    assert BlankAt(t, |frame|);
    forall i | 0 <= i < |frame| ensures !BlankAt(t, i) {
      assert t[i] == (frame + "\n\n")[i] && t[i + 1] == (frame + "\n\n")[i + 1];
      assert !BlankAt(frame + "\n\n", i);
    }
  }

  lemma {:induction false} CutPieces(frames: seq<string>, rest: string)
    requires Pieced(frames, rest)
    ensures Cut(Closed(frames) + rest) == Pieces(frames, rest)
  {
    if frames == [] {
      assert Closed(frames) + rest == rest;
    } else {
      var more := Closed(frames[1..]) + rest;
      assert Closed(frames) + rest == frames[0] + "\n\n" + more;
      FirstBlank(frames[0], more);
      CutFirst(frames[0], more);
      CutPieces(frames[1..], rest);
    }
  }

  lemma FirstPiece(t: string, i: nat)
    requires FindBlankLine(t) == Some(i)
    ensures t == t[..i] + "\n\n" + t[i + 2..] && EndsFirst(t[..i])
  {
    var frame := t[..i];
    forall k | 0 <= k < i ensures !BlankAt(frame + "\n\n", k) {
      assert !BlankAt(t, k);
      assert (frame + "\n\n")[k] == t[k] && (frame + "\n\n")[k + 1] == t[k + 1];
    }
  }

  lemma OneMorePiece(frame: string, frames: seq<string>, rest: string)
    requires EndsFirst(frame) && Pieced(frames, rest)
    ensures Pieced([frame] + frames, rest)
    ensures Closed([frame] + frames) + rest == frame + "\n\n" + (Closed(frames) + rest)
  {
    assert ([frame] + frames)[1..] == frames;
  }

  lemma {:induction false} CutIsPieced(t: string)
    ensures Closed(Cut(t).frames) + Cut(t).rest == t && Pieced(Cut(t).frames, Cut(t).rest)
    decreases |t|
  {
    match FindBlankLine(t)
    case None => assert "" + t == t;
    case Some(i) =>
      var more := Cut(t[i + 2..]);
      CutIsPieced(t[i + 2..]);
      FirstPiece(t, i);
      OneMorePiece(t[..i], more.frames, more.rest);
  }

  /** Cutting is the one way to write a text as frames that each end at their first blank line, and a
      rest without one. */
  lemma CutExact(t: string, frames: seq<string>, rest: string)
    ensures Cut(t) == Pieces(frames, rest) <==> Closed(frames) + rest == t && Pieced(frames, rest)
  {
    CutIsPieced(t);
    if Closed(frames) + rest == t && Pieced(frames, rest) { CutPieces(frames, rest); }
  }

  // ---------------------------------------------------------------- which lines count

  function Joined(lines: seq<string>): string {
    if lines == [] then "" else if |lines| == 1 then lines[0] else lines[0] + "\n" + Joined(lines[1..])
  }

  ghost predicate Lines(lines: seq<string>) {
    lines != [] && forall line :: line in lines ==> '\n' !in line
  }

  lemma FirstLine(line: string, more: string)
    requires '\n' !in line
    ensures SplitLines(line + "\n" + more) == [line] + SplitLines(more)
  {
    var t := line + "\n" + more;
    LineLengthIs(line, "\n" + more);
    assert t == line + ("\n" + more);
    assert t[..|line|] == line && t[|line| + 1..] == more;
  }

  lemma {:induction false} SplitJoined(lines: seq<string>)
    requires Lines(lines)
    ensures SplitLines(Joined(lines)) == lines
  {
    if |lines| == 1 {
      LineLengthIs(lines[0], "");
      assert lines[0] + "" == lines[0];
    } else {
      FirstLine(lines[0], Joined(lines[1..]));
      SplitJoined(lines[1..]);
    }
  }

  /** The value is what follows the prefix on the last line that begins with it. */
  ghost predicate LastLineSays(lines: seq<string>, prefix: string, value: string) {
    exists i :: SaysAt(lines, prefix, value, i)
  }

  ghost predicate SaysAt(lines: seq<string>, prefix: string, value: string, i: int) {
    && 0 <= i < |lines| && lines[i] == prefix + value
    && forall j :: i < j < |lines| ==> !(prefix <= lines[j])
  }

  lemma {:induction false} LastFieldMeans(lines: seq<string>, prefix: string, value: string)
    requires value != ""
    ensures LastField(lines, prefix) == value <==> LastLineSays(lines, prefix, value)
  {
    if lines == [] {
    } else {
      var n := |lines| - 1;
      if prefix <= lines[n] {
        forall i | SaysAt(lines, prefix, value, i) ensures i == n {}
        assert lines[n] == prefix + LastField(lines, prefix);
        if LastField(lines, prefix) == value { assert SaysAt(lines, prefix, value, n); }
      } else {
        LastFieldMeans(lines[..n], prefix, value);
        forall i | SaysAt(lines, prefix, value, i) ensures SaysAt(lines[..n], prefix, value, i) {}
        forall i | SaysAt(lines[..n], prefix, value, i) ensures SaysAt(lines, prefix, value, i) {}
      }
    }
  }

  /** A frame carries data exactly if it is no comment, its last `data: ` line has text, and so has its
      last `event: ` line; the data is the text of the former. */
  lemma FrameDataExact(lines: seq<string>, data: string)
    requires Lines(lines)
    ensures FrameData(Joined(lines)) == Some(data) <==>
            && !(":" <= Joined(lines)) && data != "" && LastLineSays(lines, "data: ", data)
            && exists kind :: kind != "" && LastLineSays(lines, "event: ", kind)
  {
    SplitJoined(lines);
    var kind := LastField(lines, "event: ");
    if data != "" { LastFieldMeans(lines, "data: ", data); }
    if kind != "" { LastFieldMeans(lines, "event: ", kind); }
    forall k | k != "" && LastLineSays(lines, "event: ", k) ensures k == kind { LastFieldMeans(lines, "event: ", k); }
  }

  // ---------------------------------------------------------------- what a frame contributes

  /** A frame adds the value of its data, if it has data that parses, and nothing else; a frame without
      leaves those before and after it as they are. */
  lemma FrameAdds(frames: seq<string>, frame: string, more: seq<string>)
    requires Pieced(frames + [frame] + more, "")
    ensures
      Yielded(Closed(frames + [frame] + more)) ==
      Yielded(Closed(frames)) +
      (match FrameData(frame)
       case None => []
       case Some(data) => match JsonParse(data) case None => [] case Some(v) => [v]) +
      Yielded(Closed(more))
  {
    YieldedClosed(frames + [frame] + more);
    YieldedClosed(frames);
    YieldedClosed(more);
    DatasAppend(frames + [frame], more);
    DatasAppend(frames, [frame]);
    ParseAllAppend(Datas(frames) + Datas([frame]), Datas(more));
    ParseAllAppend(Datas(frames), Datas([frame]));
    assert Datas([frame]) == ToSeq(FrameData(frame));
    if FrameData(frame).Some? { ParseAllOne(FrameData(frame).value); }
  }

  lemma YieldedClosed(frames: seq<string>)
    requires forall f :: f in frames ==> EndsFirst(f)
    ensures Yielded(Closed(frames)) == ParseAll(Datas(frames))
  {
    CutPieces(frames, "");
    assert Closed(frames) + "" == Closed(frames);
  }

  // ---------------------------------------------------------------- spelled out

  lemma OneFrame(f: Frame)
    ensures WireText([f]) == SerializeFrame(f) + ": stream-done\n\n"
  {
    assert [f][1..] == [];
  }

  lemma FrameSpelledOut()
    ensures SerializeFrame(Frame("MessageStart", Null)) == "event: MessageStart\ndata: null\n\n"
  {
  }

  /** A stream of one event, spelled out (section 9.2 of the WHATWG HTML standard). */
  lemma StreamSpelledOut()
    ensures WireText([Frame("MessageStart", Null)]) == "event: MessageStart\ndata: null\n\n" + ": stream-done\n\n"
  {
    OneFrame(Frame("MessageStart", Null));
    FrameSpelledOut();
  }
}
