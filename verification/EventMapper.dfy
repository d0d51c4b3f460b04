/**
 The LangGraph adapter's event mapper: LangGraph `astream_events` records in, stream-event drafts
 out, with per-run block state so that any input trace gives well-bracketed blocks.
 */
module EventMapper {
  import opened Wrappers
  import opened Json

  datatype Name =
    | OnThreadStart | OnThreadEnd
    | OnChainStart | OnChainEnd | OnChainError
    | OnChatModelStart | OnLlmStart
    | OnChatModelStream | OnLlmStream | OnText
    | OnChatModelEnd | OnLlmEnd
    | OnToolStart | OnToolStream | OnToolEnd | OnToolError
    | OnInterrupt
    | Dropped(event: string)

  /** A LangGraph record. `isRoot` is `metadata.is_root === true`, `chunk` is `data.chunk`, and
      `error` the text of `data.error ?? data.exception`, printed when it is not a string. */
  datatype Event = Event(
    name: Name,
    runId: Option<string>,
    toolName: Option<string>,
    isRoot: bool,
    chunk: Value,
    error: string)

  datatype Outcome = Completed | Failed

  datatype Draft =
    | SessionStart
    | SessionEnd(outcome: Outcome)
    | MessageStart(messageId: string)
    | MessageEnd(messageId: string)
    | BlockStart(blockId: string)
    | BlockDelta(blockId: string, delta: string)
    | BlockEnd(blockId: string)
    | ToolInputStart(callId: string, toolName: string)
    | ToolInputDelta(callId: string, delta: string)
    | ToolResult(callId: string)
    | ToolError(callId: string, message: string)
    | PermissionPrompt(promptId: string)

  datatype RunState = RunState(blockStarted: bool, blockId: string)

  datatype State = State(runs: map<string, RunState>, sessionStarted: bool, sessionEnded: bool)

  const START := State(map[], false, false)

  function Run(e: Event): string { e.runId.GetOr("") }

  function BlockId(run: string): string { "blk_" + run }

  function MessageId(run: string): string { "msg_" + run }

  function Content(fields: seq<Field>): Option<string> {
    if fields == [] then None
    else if fields[0].key == "content" then
      if fields[0].value.Str? then Some(fields[0].value.s) else None
    else Content(fields[1..])
  }

  /** The text of a chunk: a string, or the string `content` of an object. */
  function Delta(chunk: Value): Option<string> {
    match chunk
    case Str(s) => Some(s)
    case Obj(fields) => Content(fields)
    case _ => None
  }

  function Capped(s: string): string { if |s| <= 1024 then s else s[..1024] }

  predicate IsText(n: Name) { n.OnChatModelStream? || n.OnLlmStream? || n.OnText? }

  predicate IsModelEnd(n: Name) { n.OnChatModelEnd? || n.OnLlmEnd? }

  predicate StartsSession(e: Event) { e.name.OnThreadStart? || (e.name.OnChainStart? && e.isRoot) }

  /** How an event ends the session, if it does. */
  function Ending(e: Event): Option<Outcome> {
    match e.name
    case OnThreadEnd => Some(Completed)
    case OnChainEnd => if e.isRoot then Some(Completed) else None
    case OnChainError => if e.isRoot then Some(Failed) else None
    case _ => None
  }

  function Emitted(s: State, e: Event): seq<Draft> {
    var run := Run(e);
    if StartsSession(e) then (if s.sessionStarted then [] else [SessionStart])
    else if Ending(e).Some? then (if s.sessionEnded then [] else [SessionEnd(Ending(e).value)])
    else if IsText(e.name) then
      match Delta(e.chunk)
      case None => []
      case Some(d) =>
        (if Open(s, run) then [] else [BlockStart(Block(s, run))]) + [BlockDelta(Block(s, run), d)]
    else if IsModelEnd(e.name) then
      (if Open(s, run) then [BlockEnd(s.runs[run].blockId)] else []) + [MessageEnd(MessageId(run))]
    else match e.name
      case OnChatModelStart => [MessageStart(MessageId(run))]
      case OnLlmStart => [MessageStart(MessageId(run))]
      case OnToolStart => [ToolInputStart(run, e.toolName.GetOr(""))]
      case OnToolStream => [ToolInputDelta(run, Delta(e.chunk).GetOr(""))]
      case OnToolEnd => [ToolResult(run)]
      case OnToolError => [ToolError(run, Capped(e.error))]
      case OnInterrupt => [PermissionPrompt("prm_" + run)]
      case _ => []
  }

  predicate Open(s: State, run: string) { run in s.runs && s.runs[run].blockStarted }

  function Block(s: State, run: string): string {
    if run in s.runs then s.runs[run].blockId else BlockId(run)
  }

  function Next(s: State, e: Event): State {
    var run := Run(e);
    if StartsSession(e) then s.(sessionStarted := true)
    else if Ending(e).Some? then s.(sessionEnded := true)
    else if IsText(e.name) && Delta(e.chunk).Some? then s.(runs := s.runs[run := RunState(true, Block(s, run))])
    else if IsModelEnd(e.name) then s.(runs := s.runs - {run})
    else s
  }

  class EventMapper {
    var runs: map<string, RunState>
    var sessionStarted: bool
    var sessionEnded: bool

    ghost function Value(): State
      reads this
    {
      State(runs, sessionStarted, sessionEnded)
    }

    constructor ()
      ensures Value() == START
    {
      runs, sessionStarted, sessionEnded := map[], false, false;
    }

    method Map(e: Event) returns (out: seq<Draft>)
      modifies this
      ensures out == Emitted(old(Value()), e) && Value() == Next(old(Value()), e)
    {
      match e.name
      case OnThreadStart => out := EmitSessionStart();
      case OnChainStart =>
        out := [];
        if e.isRoot && !sessionStarted { out := EmitSessionStart(); }
      case OnThreadEnd => out := EmitSessionEnd(Completed);
      case OnChainEnd =>
        out := [];
        if e.isRoot && !sessionEnded { out := EmitSessionEnd(Completed); }
      case OnChainError =>
        out := [];
        if e.isRoot { out := EmitSessionEnd(Failed); }
      case OnChatModelStart => out := [MessageStart(MessageId(Run(e)))];
      case OnLlmStart => out := [MessageStart(MessageId(Run(e)))];
      case OnChatModelStream => out := EmitDelta(e);
      case OnLlmStream => out := EmitDelta(e);
      case OnText => out := EmitDelta(e);
      case OnChatModelEnd => out := EmitMessageEnd(e);
      case OnLlmEnd => out := EmitMessageEnd(e);
      case OnToolStart => out := [ToolInputStart(Run(e), e.toolName.GetOr(""))];
      case OnToolStream => out := [ToolInputDelta(Run(e), Delta(e.chunk).GetOr(""))];
      case OnToolEnd => out := [ToolResult(Run(e))];
      case OnToolError => out := [ToolError(Run(e), Capped(e.error))];
      case OnInterrupt => out := [PermissionPrompt("prm_" + Run(e))];
      case Dropped(_) => out := [];
    }

    method EmitSessionStart() returns (out: seq<Draft>)
      modifies this`sessionStarted
      ensures sessionStarted && out == if old(sessionStarted) then [] else [SessionStart]
    {
      if sessionStarted { return []; }
      sessionStarted := true;
      return [SessionStart];
    }

    method EmitSessionEnd(outcome: Outcome) returns (out: seq<Draft>)
      modifies this`sessionEnded
      ensures sessionEnded && out == if old(sessionEnded) then [] else [SessionEnd(outcome)]
    {
      if sessionEnded { return []; }
      sessionEnded := true;
      return [SessionEnd(outcome)];
    }

    method EmitDelta(e: Event) returns (out: seq<Draft>)
      requires IsText(e.name)
      modifies this`runs
      ensures out == Emitted(old(Value()), e) && Value() == Next(old(Value()), e)
    {
      var run := Run(e);
      var delta := Delta(e.chunk);
      out := [];
      if delta.None? { return; }
      if run !in runs {
        runs := runs[run := RunState(false, BlockId(run))];
      }
      var st := runs[run];
      if !st.blockStarted {
        out := out + [BlockStart(st.blockId)];
        runs := runs[run := st.(blockStarted := true)];
      }
      out := out + [BlockDelta(st.blockId, delta.value)];
    }

    method EmitMessageEnd(e: Event) returns (out: seq<Draft>)
      requires IsModelEnd(e.name)
      modifies this`runs
      ensures out == Emitted(old(Value()), e) && Value() == Next(old(Value()), e)
    {
      var run := Run(e);
      out := [];
      if run in runs && runs[run].blockStarted {
        out := out + [BlockEnd(runs[run].blockId)];
      }
      out := out + [MessageEnd(MessageId(run))];
      runs := runs - {run};
    }
  }

  // ---------------------------------------------------------------- traces

  function StateAfter(trace: seq<Event>): State {
    if trace == [] then START else Next(StateAfter(trace[..|trace| - 1]), trace[|trace| - 1])
  }

  function Output(trace: seq<Event>): seq<Draft> {
    if trace == [] then []
    else
      var init := trace[..|trace| - 1];
      Output(init) + Emitted(StateAfter(init), trace[|trace| - 1])
  }

  /** The block drafts that carry one block id. */
  function OfBlock(out: seq<Draft>, block: string): seq<Draft> {
    if out == [] then []
    else (if HasBlock(out[0], block) then [out[0]] else []) + OfBlock(out[1..], block)
  }

  predicate HasBlock(d: Draft, block: string) {
    match d
    case BlockStart(b) => b == block
    case BlockDelta(b, _) => b == block
    case BlockEnd(b) => b == block
    case _ => false
  }

  lemma {:induction false} OfBlockAppend(a: seq<Draft>, b: seq<Draft>, block: string)
    ensures OfBlock(a + b, block) == OfBlock(a, block) + OfBlock(b, block)
  {
    if a == [] {
      assert a + b == b;
    } else {
      assert (a + b)[0] == a[0] && (a + b)[1..] == a[1..] + b;
      OfBlockAppend(a[1..], b, block);
      var head := if HasBlock(a[0], block) then [a[0]] else [];
      assert head + (OfBlock(a[1..], block) + OfBlock(b, block)) == head + OfBlock(a[1..], block) + OfBlock(b, block);
    }
  }

  // ---------------------------------------------------------------- what the blocks of a run should be

  /** The texts of a run's messages: the closed ones, and the one under way. */
  datatype Texts = Texts(closed: seq<seq<string>>, open: seq<string>)

  /** Read off the input alone: each text of the run extends the message under way, and each end of
      the run's model closes it if it has any text. */
  function TextsOf(trace: seq<Event>, run: string): Texts {
    if trace == [] then Texts([], [])
    else NextTexts(TextsOf(trace[..|trace| - 1], run), trace[|trace| - 1], run)
  }

  function NextTexts(t: Texts, e: Event, run: string): Texts {
    if e.runId.GetOr("") != run then t
    else if e.name in {OnChatModelStream, OnLlmStream, OnText} && Delta(e.chunk).Some? then
      t.(open := t.open + [Delta(e.chunk).value])
    else if e.name in {OnChatModelEnd, OnLlmEnd} && t.open != [] then Texts(t.closed + [t.open], [])
    else t
  }

  /** The chunk is the text, or an object whose first `content` is the text. */
  ghost predicate Carries(chunk: Value, text: string) {
    || chunk == Str(text)
    || (chunk.Obj? && exists i :: ContentAt(chunk.fields, i) && chunk.fields[i].value == Str(text))
  }

  ghost predicate ContentAt(fields: seq<Field>, i: int) {
    && 0 <= i < |fields| && fields[i].key == "content"
    && forall j :: 0 <= j < i ==> fields[j].key != "content"
  }

  lemma DeltaExact(chunk: Value, text: string)
    ensures Delta(chunk) == Some(text) <==> Carries(chunk, text)
  {
    if chunk.Obj? { ContentExact(chunk.fields); }
  }

  lemma {:induction false} ContentExact(fields: seq<Field>)
    ensures forall i :: ContentAt(fields, i) ==>
                          Content(fields) == if fields[i].value.Str? then Some(fields[i].value.s) else None
    ensures Content(fields).Some? ==> exists i :: ContentAt(fields, i)
  {
    if fields != [] && fields[0].key != "content" {
      ContentExact(fields[1..]);
      forall i | ContentAt(fields, i) ensures i > 0 && ContentAt(fields[1..], i - 1) {}
      forall i | ContentAt(fields[1..], i) ensures ContentAt(fields, i + 1) {
        assert forall j :: 0 < j <= i ==> fields[j] == fields[1..][j - 1];
      }
    } else if fields != [] {
      assert ContentAt(fields, 0);
    }
  }

  /** A start and one delta per text; nothing for no text. */
  function OpenBlock(texts: seq<string>, block: string): seq<Draft> {
    if texts == [] then []
    else
      var n := |texts| - 1;
      (if n == 0 then [BlockStart(block)] else OpenBlock(texts[..n], block)) + [BlockDelta(block, texts[n])]
  }

  function Blocks(messages: seq<seq<string>>, block: string): seq<Draft> {
    if messages == [] then []
    else
      var n := |messages| - 1;
      Blocks(messages[..n], block) + OpenBlock(messages[n], block) + [BlockEnd(block)]
  }

  ghost predicate NoneEmpty(messages: seq<seq<string>>) {
    forall i :: 0 <= i < |messages| ==> messages[i] != []
  }

  function Shape(t: Texts, block: string): seq<Draft> {
    Blocks(t.closed, block) + OpenBlock(t.open, block)
  }

  ghost predicate InStep(s: State, t: Texts, run: string) {
    NoneEmpty(t.closed) && (Open(s, run) <==> t.open != []) && Block(s, run) == BlockId(run)
  }

  /** For every trace, the drafts of a run's block are start, deltas, end for each closed message of
      the run, then start and deltas of the one under way: every text appears once, in its own
      message, in order, and the mapper's state says whether a block is open. */
  lemma {:induction false} BlocksExact(trace: seq<Event>, run: string)
    ensures OfBlock(Output(trace), "blk_" + run) == Shape(TextsOf(trace, run), "blk_" + run)
    ensures InStep(StateAfter(trace), TextsOf(trace, run), run)
  {
    if trace == [] {
    } else {
      var init, e := trace[..|trace| - 1], trace[|trace| - 1];
      BlocksExact(init, run);
      BlocksExact(init, Run(e));
      var s, t := StateAfter(init), TextsOf(init, run);
      OfBlockAppend(Output(init), Emitted(s, e), BlockId(run));
      StepKeepsShape(s, t, e, run);
      StepKeepsStep(s, t, e, run);
    }
  }

  lemma StepKeepsStep(s: State, t: Texts, e: Event, run: string)
    requires InStep(s, t, run) && Block(s, Run(e)) == BlockId(Run(e))
    ensures InStep(Next(s, e), NextTexts(t, e, run), run)
  {
  }

  lemma StepKeepsShape(s: State, t: Texts, e: Event, run: string)
    requires InStep(s, t, run) && Block(s, Run(e)) == BlockId(Run(e))
    ensures Shape(NextTexts(t, e, run), BlockId(run)) == Shape(t, BlockId(run)) + OfBlock(Emitted(s, e), BlockId(run))
  {
    StepOfBlock(s, e, run);
    if Run(e) == run && IsText(e.name) && Delta(e.chunk).Some? {
      TextGrows(t, Delta(e.chunk).value, BlockId(run));
    } else if Run(e) == run && IsModelEnd(e.name) && t.open != [] {
      MessageCloses(t, BlockId(run));
    }
  }

  /** What one event adds to the drafts of one block. */
  lemma StepOfBlock(s: State, e: Event, run: string)
    requires Block(s, Run(e)) == BlockId(Run(e))
    ensures
      var b := BlockId(run);
      OfBlock(Emitted(s, e), b) ==
      if Run(e) != run then []
      else if IsText(e.name) && Delta(e.chunk).Some? then
        (if Open(s, run) then [] else [BlockStart(b)]) + [BlockDelta(b, Delta(e.chunk).value)]
      else if IsModelEnd(e.name) && Open(s, run) then [BlockEnd(b)]
      else []
  {
    var b, own := BlockId(run), BlockId(Run(e));
    assert own == b <==> Run(e) == run by { assert own[4..] == Run(e) && b[4..] == run; }
    var out := Emitted(s, e);
    if |out| == 2 {
      assert out[1..] == [out[1]] && out[1..][1..] == [];
      assert OfBlock([out[1]], b) == if HasBlock(out[1], b) then [out[1]] else [];
    } else if |out| == 1 {
      assert out[1..] == [];
    }
  }

  lemma TextGrows(t: Texts, d: string, b: string)
    ensures Shape(t.(open := t.open + [d]), b) ==
            Shape(t, b) + ((if t.open != [] then [] else [BlockStart(b)]) + [BlockDelta(b, d)])
  {
  }

  lemma MessageCloses(t: Texts, b: string)
    requires t.open != []
    ensures Shape(Texts(t.closed + [t.open], []), b) == Shape(t, b) + [BlockEnd(b)]
  {
  }

  /** Cut anywhere, even inside one event's drafts, the output of a block is a beginning of some
      sequence of whole blocks, each start, one or more deltas, end. */
  lemma BlocksBracketed(trace: seq<Event>, run: string, k: nat) returns (messages: seq<seq<string>>)
    requires k <= |Output(trace)|
    ensures NoneEmpty(messages)
    ensures OfBlock(Output(trace)[..k], BlockId(run)) <= Blocks(messages, BlockId(run))
  {
    BlocksExact(trace, run);
    PrefixOfBlock(Output(trace), k, BlockId(run));
    messages := WholeBlocks(TextsOf(trace, run), BlockId(run));
  }

  lemma PrefixOfBlock(out: seq<Draft>, k: nat, b: string)
    requires k <= |out|
    ensures OfBlock(out[..k], b) <= OfBlock(out, b)
  {
    assert out[..k] + out[k..] == out;
    OfBlockAppend(out[..k], out[k..], b);
  }

  lemma WholeBlocks(t: Texts, b: string) returns (messages: seq<seq<string>>)
    requires NoneEmpty(t.closed)
    ensures NoneEmpty(messages) && Shape(t, b) <= Blocks(messages, b)
  {
    messages := t.closed;
    if t.open != [] {
      messages := t.closed + [t.open];
      MessageCloses(t, b);
    }
  }

  // ---------------------------------------------------------------- ends follow ends

  predicate Paired(end: Draft, next: Draft) {
    && end.BlockEnd? && next.MessageEnd? && |next.messageId| >= 4 && |end.blockId| >= 4
    && next.messageId[..4] == "msg_" && end.blockId[..4] == "blk_"
    && end.blockId[4..] == next.messageId[4..]
  }

  ghost predicate EndsPaired(out: seq<Draft>) {
    forall i :: 0 <= i < |out| && out[i].BlockEnd? ==> i + 1 < |out| && Paired(out[i], out[i + 1])
  }

  ghost predicate BlockIdsDerived(s: State) {
    forall run :: run in s.runs ==> s.runs[run].blockId == BlockId(run)
  }

  /** Every block end is directly followed by the end of the same run's message, and so in every
      beginning of the trace. */
  lemma {:induction false} BlockEndThenMessageEnd(trace: seq<Event>)
    ensures EndsPaired(Output(trace)) && BlockIdsDerived(StateAfter(trace))
  {
    if trace == [] {
    } else {
      var init, e := trace[..|trace| - 1], trace[|trace| - 1];
      BlockEndThenMessageEnd(init);
      StepPairs(StateAfter(init), e);
      PairsJoin(Output(init), Emitted(StateAfter(init), e));
    }
  }

  lemma StepPairs(s: State, e: Event)
    requires BlockIdsDerived(s)
    ensures EndsPaired(Emitted(s, e)) && BlockIdsDerived(Next(s, e))
  {
    assert MessageId(Run(e))[4..] == Run(e);
  }

  lemma PairsJoin(a: seq<Draft>, b: seq<Draft>)
    requires EndsPaired(a) && EndsPaired(b)
    ensures EndsPaired(a + b)
  {
  }

  // ---------------------------------------------------------------- the session's own events

  function Session(out: seq<Draft>): seq<Draft> {
    if out == [] then []
    else (if OfSession(out[0]) then [out[0]] else []) + Session(out[1..])
  }

  predicate OfSession(d: Draft) { d.SessionStart? || d.SessionEnd? }

  lemma {:induction false} SessionAppend(a: seq<Draft>, b: seq<Draft>)
    ensures Session(a + b) == Session(a) + Session(b)
  {
    if a == [] {
      assert a + b == b;
    } else {
      assert (a + b)[0] == a[0] && (a + b)[1..] == a[1..] + b;
      SessionAppend(a[1..], b);
      var head := if OfSession(a[0]) then [a[0]] else [];
      assert head + (Session(a[1..]) + Session(b)) == head + Session(a[1..]) + Session(b);
    }
  }

  /** The session draft a record calls for. */
  function Wanted(e: Event): Option<Draft> {
    if e.name == OnThreadStart || (e.name == OnChainStart && e.isRoot) then Some(SessionStart)
    else if e.name == OnThreadEnd || (e.name == OnChainEnd && e.isRoot) then Some(SessionEnd(Completed))
    else if e.name == OnChainError && e.isRoot then Some(SessionEnd(Failed))
    else None
  }

  predicate WantsStart(e: Event) { Wanted(e).Some? && Wanted(e).value.SessionStart? }

  predicate WantsEnd(e: Event) { Wanted(e).Some? && Wanted(e).value.SessionEnd? }

  predicate Started(trace: seq<Event>) { exists i :: 0 <= i < |trace| && WantsStart(trace[i]) }

  predicate Ended(trace: seq<Event>) { exists i :: 0 <= i < |trace| && WantsEnd(trace[i]) }

  /** What the session should see: the first event that starts it, and the first that ends it,
      with its own outcome, in the order they came. */
  function SessionSpec(trace: seq<Event>): seq<Draft> {
    if trace == [] then []
    else
      var init, e := trace[..|trace| - 1], trace[|trace| - 1];
      SessionSpec(init) + SessionStep(e, Started(init), Ended(init))
  }

  function SessionStep(e: Event, started: bool, ended: bool): seq<Draft> {
    if (WantsStart(e) && !started) || (WantsEnd(e) && !ended) then [Wanted(e).value] else []
  }

  lemma OneMoreEvent(trace: seq<Event>)
    requires trace != []
    ensures
      var init, e := trace[..|trace| - 1], trace[|trace| - 1];
      && (Started(trace) <==> Started(init) || WantsStart(e))
      && (Ended(trace) <==> Ended(init) || WantsEnd(e))
  {
  }

  lemma Flags(s: State, e: Event)
    ensures Next(s, e).sessionStarted == (s.sessionStarted || WantsStart(e))
    ensures Next(s, e).sessionEnded == (s.sessionEnded || WantsEnd(e))
  {
  }

  /** Start and end each occur at the first event that calls for them and nowhere else. */
  lemma {:induction false} SessionExact(trace: seq<Event>)
    ensures Session(Output(trace)) == SessionSpec(trace)
    ensures StateAfter(trace).sessionStarted <==> Started(trace)
    ensures StateAfter(trace).sessionEnded <==> Ended(trace)
  {
    if trace == [] {
    } else {
      var init, e := trace[..|trace| - 1], trace[|trace| - 1];
      SessionExact(init);
      OneMoreEvent(trace);
      Flags(StateAfter(init), e);
      SessionAppend(Output(init), Emitted(StateAfter(init), e));
      StepOfSession(StateAfter(init), e);
    }
  }

  lemma StepOfSession(s: State, e: Event)
    ensures Session(Emitted(s, e)) == SessionStep(e, s.sessionStarted, s.sessionEnded)
  {
    var out := Emitted(s, e);
    if |out| == 2 {
      assert out[1..] == [out[1]] && Session([out[1]]) == [];
    } else if |out| == 1 {
      assert out[1..] == [];
    }
  }

  function Starts(out: seq<Draft>): nat { multiset(out)[SessionStart] }

  function Ends(out: seq<Draft>): nat {
    multiset(out)[SessionEnd(Completed)] + multiset(out)[SessionEnd(Failed)]
  }

  /** So a trace gives at most one start and one end of the session, whatever it holds. */
  lemma AtMostOneEach(trace: seq<Event>)
    ensures Starts(Session(Output(trace))) == (if Started(trace) then 1 else 0)
    ensures Ends(Session(Output(trace))) == (if Ended(trace) then 1 else 0)
  {
    SessionExact(trace);
    SpecOnce(trace);
  }

  lemma {:induction false} SpecOnce(trace: seq<Event>)
    ensures Starts(SessionSpec(trace)) == (if Started(trace) then 1 else 0)
    ensures Ends(SessionSpec(trace)) == (if Ended(trace) then 1 else 0)
  {
    if trace == [] {
    } else {
      var init, e := trace[..|trace| - 1], trace[|trace| - 1];
      SpecOnce(init);
      OneMoreEvent(trace);
      StepCounts(SessionSpec(init), e, Started(init), Ended(init));
    }
  }

  lemma StepCounts(out: seq<Draft>, e: Event, started: bool, ended: bool)
    ensures
      var all := out + SessionStep(e, started, ended);
      && Starts(all) == Starts(out) + (if WantsStart(e) && !started then 1 else 0)
      && Ends(all) == Ends(out) + (if WantsEnd(e) && !ended then 1 else 0)
  {
  }

  // ---------------------------------------------------------------- everything else

  /** The drafts that belong to no block and are not the session's own. */
  function Others(out: seq<Draft>): seq<Draft> {
    if out == [] then []
    else (if OfBlocks(out[0]) || OfSession(out[0]) then [] else [out[0]]) + Others(out[1..])
  }

  predicate OfBlocks(d: Draft) { d.BlockStart? || d.BlockDelta? || d.BlockEnd? }

  /** What a record calls for besides: at most one draft, named after its run, whatever came before. */
  function Besides(e: Event): seq<Draft> {
    var run := if e.runId.Some? then e.runId.value else "";
    if e.name in {OnChatModelStart, OnLlmStart} then [MessageStart("msg_" + run)]
    else if e.name in {OnChatModelEnd, OnLlmEnd} then [MessageEnd("msg_" + run)]
    else if e.name == OnToolStart then [ToolInputStart(run, if e.toolName.Some? then e.toolName.value else "")]
    else if e.name == OnToolStream then [ToolInputDelta(run, if Delta(e.chunk).Some? then Delta(e.chunk).value else "")]
    else if e.name == OnToolEnd then [ToolResult(run)]
    else if e.name == OnToolError then [ToolError(run, if |e.error| > 1024 then e.error[..1024] else e.error)]
    else if e.name == OnInterrupt then [PermissionPrompt("prm_" + run)]
    else []
  }

  function AllBesides(trace: seq<Event>): seq<Draft> {
    if trace == [] then [] else AllBesides(trace[..|trace| - 1]) + Besides(trace[|trace| - 1])
  }

  lemma {:induction false} OthersAppend(a: seq<Draft>, b: seq<Draft>)
    ensures Others(a + b) == Others(a) + Others(b)
  {
    if a == [] {
      assert a + b == b;
    } else {
      assert (a + b)[0] == a[0] && (a + b)[1..] == a[1..] + b;
      OthersAppend(a[1..], b);
    }
  }

  lemma {:induction false} NoOthers(out: seq<Draft>)
    requires forall d :: d in out ==> OfBlocks(d) || OfSession(d)
    ensures Others(out) == []
  {
    if out == [] {
    } else {
      NoOthers(out[1..]);
    }
  }

  /** The last drafts of a record are these, and those before them are of a block or the session. */
  ghost predicate OthersLast(out: seq<Draft>, more: seq<Draft>) {
    var n := |out| - |more|;
    && n >= 0 && |more| <= 1 && (more != [] ==> out[n] == more[0] && !OfBlocks(more[0]) && !OfSession(more[0]))
    && forall i :: 0 <= i < n ==> OfBlocks(out[i]) || OfSession(out[i])
  }

  lemma SessionAlone(s: State, e: Event)
    requires StartsSession(e) || Ending(e).Some?
    ensures OthersLast(Emitted(s, e), Besides(e))
  {
    assert Besides(e) == [];
  }

  lemma TextAlone(s: State, e: Event)
    requires IsText(e.name)
    ensures OthersLast(Emitted(s, e), Besides(e))
  {
    assert Besides(e) == [];
  }

  lemma MessageEndLast(s: State, e: Event)
    requires IsModelEnd(e.name)
    ensures OthersLast(Emitted(s, e), Besides(e))
  {
    assert Besides(e) == [MessageEnd("msg_" + Run(e))];
  }

  lemma OtherAlone(s: State, e: Event)
    requires !StartsSession(e) && Ending(e).None? && !IsText(e.name) && !IsModelEnd(e.name)
    ensures Emitted(s, e) == Besides(e) && OthersLast(Emitted(s, e), Besides(e))
  {
  }

  lemma StepOthersLast(s: State, e: Event)
    ensures OthersLast(Emitted(s, e), Besides(e))
  {
    if StartsSession(e) || Ending(e).Some? {
      SessionAlone(s, e);
    } else if IsText(e.name) {
      TextAlone(s, e);
    } else if IsModelEnd(e.name) {
      MessageEndLast(s, e);
    } else {
      OtherAlone(s, e);
    }
  }

  lemma OthersAtEnd(out: seq<Draft>, more: seq<Draft>)
    requires OthersLast(out, more)
    ensures Others(out) == more
  {
    var n := |out| - |more|;
    assert out == out[..n] + more;
    OthersAppend(out[..n], more);
    NoOthers(out[..n]);
    if more != [] { assert more[1..] == []; }
  }

  /** Messages, tools and prompts: for every trace, their drafts are those its records call for, one record
      after the other, whatever blocks and sessions are open. */
  lemma {:induction false} OthersExact(trace: seq<Event>)
    ensures Others(Output(trace)) == AllBesides(trace)
  {
    if trace == [] {
    } else {
      var init, e := trace[..|trace| - 1], trace[|trace| - 1];
      OthersExact(init);
      OthersAppend(Output(init), Emitted(StateAfter(init), e));
      StepOthersLast(StateAfter(init), e);
      OthersAtEnd(Emitted(StateAfter(init), e), Besides(e));
    }
  }
}
