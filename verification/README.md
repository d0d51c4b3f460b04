# The Runner's state machines, verified

This project models, in Dafny 4.11, the parts of the SOA-Harness Runner whose correctness is about runs, time and
arithmetic, and proves what their code promises.

* **Streaming dispatch and its wire.** The canonical printer, the SSE frames, the sequence checker and the driver of
  a stream, and the command-line client that reads the text back from arbitrary chunks. End to end: the client gets
  exactly the events the Runner decided to send (`ClientReceivesWire`), and the message ends among them say what the
  audit row says, exactly if the adapter never ends a message without a stop reason (`ClientReadsRowIff`).
* **Dispatcher and token budget.** The retry loop, the ring with its audit trail, the sliding-window percentile in
  exact arithmetic, and the two gates built on it.
* **Audit chain, paging and sink.** The hash chain, the cursor reader over a growing chain, and the degradation
  machine whose state can be read off its own event log.
* **A2A handoff.** The task registry with its timers and the event loop, and the JWT replay cache.
* **Rate limiter and LangGraph event mapper.**

What the source changes in place is a class whose methods are proved against functions of the old state; the laws
about runs are lemmas about those functions. One call, callback or tick is one step.

## How to read it

`dafny verify dfyconfig.toml` checks everything. Each file is one module of the same name.

| file | what it holds |
|---|---|
| `Json.dfy`, `JsonLaws.dfy` | the printer `jcs` (RFC 8785 sections 3.2.2 and 3.2.3), a reader for compact integer-only JSON, canonicity and the round trip |
| `JsonText.dfy` | how printed text looks: member order by UTF-16 code units, shortest escapes, examples |
| `SseWire.dfy`, `SseFrames.dfy` | frames, the client's chunk loop and what its rules mean (section 9.2 of the WHATWG HTML standard) |
| `StreamTypes.dfy`, `SequenceCheck.dfy` | the event vocabulary, the checker and its exact language |
| `StreamDispatch.dfy`, `StreamLaws.dfy`, `StreamEndings.dfy`, `TestAdapter.dfy` | a streaming dispatch, its laws, how it ends, and the test adapter as a producer |
| `Dispatch.dfy`, `DispatchLaws.dfy` | the synchronous dispatcher and its laws |
| `Percentile.dfy`, `Budget.dfy` | the percentile and the budget gates |
| `AuditChain.dfy`, `RecordsPaging.dfy`, `AuditSink.dfy` | the audit components |
| `AuditRecords.dfy` | the dispatcher's audit row in the chain and before the reader |
| `RateLimiter.dfy`, `EventMapper.dfy` | the two monitors |
| `Handoff.dfy`, `HandoffLaws.dfy`, `HandoffStatus.dfy`, `HandoffTiming.dfy`, `JwtReplay.dfy` | the A2A service (RFC 7519 sections 4.1.4 and 4.1.7 for the JWT times and ids) |
| `Wrappers.dfy` | `Option` |

## Where the code does not do what is said of it

The model follows the code. Each point is a lemma.

* `jcs` and `undefined`: a member whose value is `undefined` prints text no JSON reader accepts, and an `undefined`
  array item prints as nothing. A value survives printing and reading exactly when it holds no `undefined`
  (`RecoveredIffDefined`); its text can be read at all exactly when `undefined` occurs in it only as the sole item of an
  array (`ReadIffLegible`, `UndefinedMemberUnread`); and two values share a text exactly when they are equal up to
  member order and up to `[undefined]` standing for `[]` (`JcsAlike`, `UndefinedItemLost`).
* "Exactly one MessageEnd": an adapter that sends a MessageEnd without a stop reason and then fails leaves two on the
  wire (`TwoEnds`); this is the only such case (`OneEndExactly`). Wire and audit row agree exactly when no MessageEnd
  without a stop reason was forwarded (`AuditMatchesWire`); they part even if nothing fails, the row then saying
  NaturalStop (`BareEndDisagrees`). The synthetic end's sequence 999999 keeps sequences increasing exactly when the
  adapter's stay below it (`SequencesIncrease`, `SequenceFalls`).
* "Exactly one audit row per dispatch": there is none for a request the schema refuses and for an abort seen at the
  head of the retry loop (`RecordedExactly`, `AbortLeavesNoRow`).
* `wouldExhaust` against the published headroom: they part exactly when the projection is not positive and the
  gate's sum stays within the maximum (`HeadroomAgrees`, `HeadroomDisagrees`). At cold start the dispatcher's gate
  multiplies its baseline by 1.15 and does not see the message stack, so it is the stricter on one range of tokens left
  and the laxer on another (`GatesAgree`, `ColdStartGap`, `DispatcherLaxer`).
* Paging needs row ids, and the dispatcher's audit rows have none: a reader over such rows is told there is more and
  given nothing to continue from (`IdlessRowsStick`, `DispatchLogSticks`). A log can be followed exactly when the last
  row of every page has an id that leads back to it (`FollowsIffEndsLeadBack`).
* The deadline-collision guard reads the deadline with `parseInt` and compares; unreadable text gives NaN, which
  passes, while the service falls back to 300 s (`GuardMeans`, `StartedNeverTimesOut`, `GuardFails`).
* The sink's recovery events report `flushed_records` even when nothing was flushed: declared healthy by a transition,
  a sink with buffered rows claims them unshipped. The counts add up to what was shipped exactly if no transition does
  so over a nonempty buffer (`CountsAddUpIff`, `ClaimsUnshipped`).
* The eager deadline callback reads the status it is about to report through the same rule that already calls the task
  timed out, so it speaks up only if its timer fires in the very clock second it was due (`DeadlineEmitsIff`,
  `LateCallbackSilent`).

## Model

| member | source | states |
|---|---|---|
| `Json.SortSorted` | packages/runner/src/dispatch/stream.ts:36 | sorting the members of an object with distinct keys puts its keys in strictly increasing UTF-16 order |
| `Json.LessTotal` | packages/runner/src/dispatch/stream.ts:36 | the string order of the sort tells any two different keys apart, in one direction |
| `JsonLaws.JcsOneLine` | packages/runner/src/dispatch/stream.ts:33-42 | no value prints a raw newline |
| `JsonLaws.ParsePrinted` | packages/runner/src/dispatch/stream.ts:33-42 | reading a printed value in front of any text that cannot continue it returns that value, members sorted, and leaves the text |
| `JsonLaws.ReadBack` | packages/cli/src/client.ts:152 | parsing a printed value without undefined parts gives its canonical form |
| `JsonLaws.CanonSame` | packages/runner/src/dispatch/stream.ts:36 | the canonical form is the value up to member order |
| `JsonLaws.SamePrintsSame` | packages/runner/src/dispatch/stream.ts:33-42 | values equal up to member order print the same text |
| `JsonLaws.UniqueRead` | packages/runner/src/dispatch/stream.ts:33-42 | in front of any text that may follow, one text has one value, up to the sameness of `JcsAlike`, and one rest |
| `JsonLaws.JcsAlike` | packages/runner/src/dispatch/stream.ts:33-42 | over all values, undefined included: the same text if and only if equal up to member order, at every depth, with the array of one undefined counting as the empty one |
| `JsonLaws.JcsCanonical` | packages/runner/src/dispatch/stream.ts:33-42 | so without undefined two values print the same text if and only if they are equal up to member order |
| `JsonLaws.RecoveredIffDefined` | packages/runner/src/dispatch/stream.ts:33-42 | print then parse recovers a value if and only if it holds no undefined at any depth |
| `JsonLaws.ReadIffLegible` | packages/cli/src/client.ts:151-155 | printed text parses if and only if undefined occurs in the value only as the sole item of an array, and then as a value that prints the same |
| `JsonLaws.UndefinedMemberUnread` | packages/runner/src/dispatch/stream.ts:37-41 | an object with an undefined member prints text that does not parse |
| `JsonLaws.UndefinedItemLost` | packages/runner/src/dispatch/stream.ts:35 | the array of one undefined prints and reads as the empty array, which is another value |
| `JsonText.LessIsUnitOrder` | packages/runner/src/dispatch/stream.ts:36 | the order of the sort is the lexicographic order of UTF-16 code units |
| `JsonText.SortExact` | packages/runner/src/dispatch/stream.ts:36 | the sorted members of an object are the one arrangement of them in code unit order |
| `JsonText.PrintedInOrder` | packages/runner/src/dispatch/stream.ts:36-42 | whatever printed text parses, parses with the members of every object at every depth in code unit order |
| `JsonText.EscapeShortest` | packages/runner/src/dispatch/stream.ts:34 | every character is written in the shortest text a JSON string reader takes for it |
| `JsonText.EscapesLowerCase` | packages/runner/src/dispatch/stream.ts:34 | hex escapes are in lower case |
| `JsonText.EscapeReads` | packages/cli/src/client.ts:152 | four hex digits of either case read as the character they number, surrogates as none |
| `JsonText.ShortEscapes` | packages/cli/src/client.ts:152 | the eight short escapes of JSON and the characters they stand for |
| `JsonText.StandardKeyOrder` | packages/runner/src/dispatch/stream.ts:36 | the keys of the example in RFC 8785 section 3.2.3 are in its order |
| `JsonText.SpelledOut` | packages/runner/src/dispatch/stream.ts:33-42 | one object with its text, character by character |
| `SseWire.ParseFrame` | packages/cli/src/client.ts:143-150 | the loop over a frame's lines: comments and frames without type or data give nothing, else the last data line |
| `SseWire.DrainBuffer` | packages/cli/src/client.ts:139-156 | the inner loop yields what the complete frames of the buffer parse to, and keeps the unfinished rest |
| `SseWire.ReadStream` | packages/cli/src/client.ts:132-158 | over any chunks the client yields what the whole text read at once yields, and keeps the same rest |
| `SseWire.CutAppend` | packages/cli/src/client.ts:140-142 | cutting frames as text arrives gives the same frames as cutting all of it, even when a blank line is split between chunks |
| `SseWire.YieldedAppend` | packages/cli/src/client.ts:135-157 | reading a chunk later yields what reading all the text at once yields |
| `SseWire.FrameReads` | packages/runner/src/dispatch/stream.ts:48-50 | the body of a printed frame is read back as its payload text |
| `SseWire.WireCuts` | packages/runner/src/dispatch/stream.ts:236 | the text of a stream falls into its frames and the closing comment, nothing left |
| `SseWire.WireYields` | packages/cli/src/client.ts:135-157 | the client loop over a whole stream yields the parse of every payload text in order; the comment delivers nothing |
| `SseWire.StreamRoundTrip` | packages/cli/src/client.ts:132-157 | for every list of frames without undefined and every cutting into chunks, the client yields exactly the payloads in order and ends with an empty buffer |
| `SseWire.FrameRecoveredIffDefined` | packages/runner/src/dispatch/stream.ts:48-50 | one frame arrives if and only if its payload holds no undefined |
| `SseFrames.CutExact` | packages/cli/src/client.ts:139-142 | cutting is the one way to write a text as frames that each end at their first blank line, and a rest without one |
| `SseFrames.FrameDataExact` | packages/cli/src/client.ts:142-150 | a frame carries data if and only if it is no comment and its last `data: ` and `event: ` lines have text; the data is that of the last `data: ` line |
| `SseFrames.FrameAdds` | packages/cli/src/client.ts:139-156 | a frame adds the value of its data if that parses, and nothing else; the frames around it yield what they do without it |
| `SseFrames.StreamSpelledOut` | packages/runner/src/dispatch/stream.ts:48-50 | a stream of one event, character by character |
| `SequenceCheck.SequenceChecker.constructor` | packages/runner/src/dispatch/stream.ts:99-103 | the initial state |
| `SequenceCheck.SequenceChecker.Check` | packages/runner/src/dispatch/stream.ts:105-144 | the check passes exactly the events the automaton passes and moves to its next state |
| `SequenceCheck.SequenceChecker.IsComplete` | packages/runner/src/dispatch/stream.ts:146-148 | true exactly in a state that started, ended and has no open block |
| `SequenceCheck.RunSplits` | packages/runner/src/dispatch/stream.ts:105-144 | past the start, a run passes exactly when sequences rise, no second start, at most one end, and the block automaton passes: three independent concerns |
| `SequenceCheck.BlockRunAccepts` | packages/runner/src/dispatch/stream.ts:118-137 | the block automaton accepts exactly the concatenations of Start Delta* End |
| `SequenceCheck.AcceptsIsLanguage` | packages/runner/src/dispatch/stream.ts:99-149 | accepted and complete if and only if: sequences from 0 strictly increasing, one MessageStart in front, one MessageEnd, and the rest whole blocks |
| `SequenceCheck.PrefixPasses` | packages/runner/src/dispatch/stream.ts:105-144 | every beginning of a passed stream passes |
| `StreamDispatch.InFlightRegistry.Register` | packages/runner/src/dispatch/stream.ts:59-63 | a new unaborted controller, listed under the id |
| `StreamDispatch.InFlightRegistry.Cancel` | packages/runner/src/dispatch/stream.ts:66-71 | found exactly when listed; aborts that controller and no other |
| `StreamDispatch.InFlightRegistry.Release` | packages/runner/src/dispatch/stream.ts:73-75 | only this id is unlisted |
| `StreamDispatch.Reply.WriteEvent` | packages/runner/src/dispatch/stream.ts:204 | the written text stays the printed frames of the events written |
| `StreamDispatch.Reply.Close` | packages/runner/src/dispatch/stream.ts:231-237 | the synthetic end if any, then the closing comment, completes the wire text |
| `StreamDispatch.ForwardEvents` | packages/runner/src/dispatch/stream.ts:196-215 | the loop writes exactly the longest passing beginning of the adapter's events and ends with their final fields and the stream's error |
| `StreamDispatch.RunStreamDispatch` | packages/runner/src/dispatch/stream.ts:171-250 | whatever the adapter does: the reply is ended and holds the wire, the in-flight entry is gone, and one row is recorded with the stream's conclusion |
| `StreamLaws.WireIsCheckedPrefix` | packages/runner/src/dispatch/stream.ts:202-233 | the wire is the longest checked beginning of the events plus at most one synthetic end, there exactly when the stream failed before a stop reason went out |
| `StreamLaws.OneEndExactly` | packages/runner/src/dispatch/stream.ts:205-234 | exactly one MessageEnd, unless the stream fails after an end without a stop reason; then two |
| `StreamLaws.TwoEnds` | packages/runner/src/dispatch/stream.ts:205-234 | a start, an end without a stop reason and a throw put two ends on the wire |
| `StreamLaws.BareEndDisagrees` | packages/runner/src/dispatch/stream.ts:205-243 | a start and an end without a stop reason: nothing fails, one end goes out, and the row says NaturalStop where the end says nothing |
| `StreamLaws.AuditMatchesWire` | packages/runner/src/dispatch/stream.ts:241-248 | every end on the wire agrees with the audit row on stop reason, error code and usage if and only if no end without a stop reason was forwarded |
| `StreamLaws.CleanStreamUntouched` | packages/runner/src/dispatch/stream.ts:196-215 | a stream of the language that finishes passes through unchanged, without an error |
| `StreamLaws.SequencesIncrease` | packages/runner/src/dispatch/stream.ts:222-231 | sequences on the wire strictly increase if and only if the stream does not fail, or a stop reason went out before, or every forwarded sequence is below 999999 |
| `StreamLaws.SequenceFalls` | packages/runner/src/dispatch/stream.ts:222-231 | a stream cut off after a start with sequence 1000000 ends on a smaller one |
| `StreamLaws.SyntheticBodyFits` | packages/runner/src/dispatch/stream.ts:222-230 | the synthetic end has distinct fields and no undefined ones |
| `StreamLaws.ClientReceivesWire` | packages/cli/src/client.ts:110-158 | end to end: for every adapter of plain events and every cutting of the Runner's text, the client receives exactly the wire's events in order, buffer empty |
| `StreamLaws.SameSays` | packages/runner/src/dispatch/types.ts:168-195 | an object equal up to member order carries the same event fields |
| `StreamLaws.ClientReadsEvent` | packages/cli/src/client.ts:110-158 | every event of the wire arrives as a JSON object with its type, sequence, stop reason, error code and usage |
| `StreamLaws.ClientReadsRow` | packages/cli/src/client.ts:110-158 | if no end without a stop reason was forwarded, exactly one object the client receives is a message end, and its stop reason, error code and usage are those of the one audit row |
| `StreamLaws.ClientReadsRowIff` | packages/cli/src/client.ts:110-158 | every message end the client receives says what the audit row says if and only if no end without a stop reason was forwarded |
| `StreamEndings.ErrorExact` | packages/runner/src/dispatch/stream.ts:196-221 | no error if and only if the stream is in the language and the adapter finishes; else the adapter's own code if all events passed and it failed with one, and DispatcherAdapterError in every other case |
| `StreamEndings.FailedEnding` | packages/runner/src/dispatch/stream.ts:216-234 | a failure before a stop reason: the wire's last event is an end with sequence 999999, DispatcherError and that error, in JSON of seven named members, and the row says the same |
| `StreamEndings.SentEnding` | packages/runner/src/dispatch/stream.ts:205-249 | in every other case exactly one end was forwarded and the row says what it says, NaturalStop and no tokens where it says nothing |
| `StreamEndings.StreamRows` | packages/runner/src/dispatch/dispatcher.ts:454-482 | the audit row and the ring row of a stream, field by field |
| `StreamEndings.EventText` | packages/runner/src/dispatch/stream.ts:48-50 | the text of one event of each kind on the wire |
| `StreamEndings.PlainThrow` | packages/runner/src/dispatch/stream.ts:220-221 | a start and a foreign throw: DispatcherAdapterError in the synthetic end, its JSON and the row |
| `TestAdapter.InMemoryTestAdapter.DispatchStream` | packages/runner/src/dispatch/test-double.ts:158-259 | the generator emits the programmed stream and logs one call with its abort flag |
| `TestAdapter.EmitDeltas` | packages/runner/src/dispatch/test-double.ts:205-233 | the delta loop emits consecutive sequences up to the count or the abort |
| `TestAdapter.AdapterStreamAccepted` | packages/runner/src/dispatch/test-double.ts:182-258 | without a programmed error the stream is in the checker's language for every delta count and abort point |
| `TestAdapter.AdapterStreamShape` | packages/runner/src/dispatch/test-double.ts:182-258 | it is a start, one block of n deltas and an end, numbered from 0, n being the smaller of the programmed count and the abort boundary |
| `TestAdapter.AdapterStreamDispatched` | packages/runner/src/dispatch/test-double.ts:244-258 | dispatched, it reaches the wire untouched, and the row says UserInterrupt exactly when the abort cut it short or it stalled |
| `TestAdapter.AdapterErrorDispatched` | packages/runner/src/dispatch/test-double.ts:190-192 | a programmed error leaves the start, the synthetic end, and a row with that error |
| `Dispatch.Dispatcher.constructor` | packages/runner/src/dispatch/dispatcher.ts:105-116 | empty ring and trail |
| `Dispatch.Dispatcher.RecordDispatch` | packages/runner/src/dispatch/dispatcher.ts:397-446 | one row in front of the session's ring, cut to its size, and one at the end of the audit trail |
| `Dispatch.Dispatcher.InvokeWithRetry` | packages/runner/src/dispatch/dispatcher.ts:204-295 | the loop's response, calls, sleeps and record are those of the retry function; the code after the loop is never reached |
| `Dispatch.Dispatcher.Dispatch` | packages/runner/src/dispatch/dispatcher.ts:126-185 | schema, then budget gate, then the loop, with what each leaves in the records |
| `Dispatch.Dispatcher.RecordStreamDispatch` | packages/runner/src/dispatch/dispatcher.ts:454-482 | a stream's terminal state is recorded like any response |
| `Dispatch.Dispatcher.RecentResponse` | packages/runner/src/dispatch/dispatcher.ts:191-200 | a beginning of the newest-first ring, of the length asked for within one and the ring size |
| `DispatchLaws.RetryEnds` | packages/runner/src/dispatch/dispatcher.ts:212-282 | the loop ends at an attempt before which every attempt failed retryably, in the response that attempt calls for, with the delay each failed attempt calls for in between |
| `DispatchLaws.DispatchBounded` | packages/runner/src/dispatch/errors.ts:42-49 | at most four adapter calls whatever mix of errors occurs; the end is the first attempt that is not retried, and it fixes every field of the response: the provider's own, an interrupt, or an error with the code, id and refusal text of the failure |
| `DispatchLaws.GatesAnswer` | packages/runner/src/dispatch/dispatcher.ts:132-157 | a request the schema refuses gets DispatcherRequestInvalid and no row, one the budget refuses gets BudgetExhausted without a code and a row; neither calls the adapter |
| `DispatchLaws.GateExact` | packages/runner/src/dispatch/dispatcher.ts:149-158 | over any run of the tracker the budget refuses if and only if the session was recorded and what it used plus 1.15 times its projection exceeds the request's ceiling |
| `DispatchLaws.EndExists` | packages/runner/src/dispatch/dispatcher.ts:212-282 | every world has such an attempt among the first four |
| `DispatchLaws.SleepTotal` | packages/runner/src/dispatch/dispatcher.ts:278-300 | without Retry-After the jittered sleeps of a dispatch total at most 1397 ms |
| `DispatchLaws.SleepTotalReached` | packages/runner/src/dispatch/dispatcher.ts:297-300 | some dispatch sleeps 1397 ms |
| `DispatchLaws.DispatchEchoes` | packages/runner/src/dispatch/dispatcher.ts:219-241 | the response always carries the request's session, turn, billing tag and correlation id |
| `DispatchLaws.RecordedExactly` | packages/runner/src/dispatch/dispatcher.ts:133-146 | a row is recorded if and only if the request is valid and either the budget refuses it or the loop does not end at an aborted loop head |
| `DispatchLaws.AbortLeavesNoRow` | packages/runner/src/dispatch/dispatcher.ts:213-215 | a valid dispatch aborted at the latest at the head of its first attempt calls no adapter and leaves no row |
| `DispatchLaws.RowsExact` | packages/runner/src/dispatch/dispatcher.ts:397-446 | every recorded dispatch adds one audit row and one ring row with the fields of its response, and leaves other rings alone |
| `DispatchLaws.RefusedRow` | packages/runner/src/dispatch/dispatcher.ts:302-328 | the audit row of a dispatch the budget refuses, field by field |
| `DispatchLaws.SubcodesListed` | packages/runner/src/dispatch/errors.ts:20-31 | the provider codes are numbered from -32100 down and the dispatcher's from -32110 down, and there are no others |
| `DispatchLaws.RecordKeepsRings` | packages/runner/src/dispatch/dispatcher.ts:419-446 | recording keeps every ring the newest part of its session's audit rows, row for row |
| `DispatchLaws.RunKeepsRings` | packages/runner/src/dispatch/dispatcher.ts:397-482 | over any mix of dispatches the audit holds one row per recorded dispatch in order, and each ring is the newest-first list of its last R |
| `Percentile.Rank` | packages/runner/src/budget/tracker.ts:85-89 | the interpolation point of n values splits into a whole part and twentieths, inside the list |
| `Percentile.PercentileTwentieths` | packages/runner/src/budget/tracker.ts:80-91 | the percentile of integers is a whole number of twentieths, computed by an integer formula |
| `Percentile.PercentileMonotone` | packages/runner/src/budget/tracker.ts:80-91 | raising any entries never lowers it |
| `Percentile.PercentilePermuted` | packages/runner/src/budget/tracker.ts:82 | rearranging the input does not change it |
| `Percentile.PercentileBetween` | packages/runner/src/budget/tracker.ts:80-91 | it lies between any lower and any upper bound of the values |
| `Budget.BudgetTracker.InitFor` | packages/runner/src/budget/tracker.ts:109-121 | an existing session is left alone, a new one is empty |
| `Budget.BudgetTracker.RecordTurn` | packages/runner/src/budget/tracker.ts:124-135 | the session's window and totals take in the turn, no other session changes |
| `Budget.BudgetTracker.Remove` | packages/runner/src/budget/tracker.ts:206-208 | only this session goes |
| `Budget.RunKeepsHistory` | packages/runner/src/budget/tracker.ts:109-135 | over every run the window is the last W turns recorded and the totals are the sums over all of them |
| `Budget.ProjectionInput` | packages/runner/src/budget/tracker.ts:153-154 | the percentile is taken over exactly the last W recorded turns |
| `Budget.ProjectionExact` | packages/runner/src/budget/tracker.ts:150-190 | every field of a projection from the turns recorded: fewer than three in the window make the stack plus 2048, at least 4096, the projection |
| `Budget.HeadroomExact` | packages/runner/src/budget/tracker.ts:165-171 | the headroom is how often the next turn fits into what is left |
| `Budget.GatesExact` | packages/runner/src/budget/tracker.ts:196-203 | both gates from the turns recorded, the dispatcher's against the request's ceiling |
| `Budget.RoundingExact` | packages/runner/src/budget/tracker.ts:177 | rounding to three decimals loses nothing |
| `Budget.ExhaustMeaning` | packages/runner/src/budget/tracker.ts:196-203 | the gate fires if and only if the cumulative count plus the per-turn projection exceeds the maximum |
| `Budget.HeadroomAgrees` | packages/runner/src/budget/tracker.ts:170-171 | gate and headroom below one agree if and only if the projection is positive or the gate's sum exceeds the maximum |
| `Budget.HeadroomDisagrees` | packages/runner/src/budget/tracker.ts:170-171 | three free turns: headroom zero, gate open |
| `Budget.GatesAgree` | packages/runner/src/dispatch/dispatcher.ts:149-158 | with one ceiling, `wouldExhaust` given the message stack and the dispatcher projecting without it: they agree once warm; cold, the dispatcher alone refuses if and only if between the baseline and 4710 tokens are left, and alone admits if and only if between 4711 and the stack plus 2047 are |
| `Budget.DispatcherLaxer` | packages/runner/src/dispatch/dispatcher.ts:150 | a new session with 5000 tokens left and a stack of 10000: `wouldExhaust` fires, the dispatcher goes on |
| `Budget.ColdStartGap` | packages/runner/src/dispatch/dispatcher.ts:150-154 | without a message stack the gap is 4096 to 4710 tokens left |
| `AuditChain.AuditChain.Append` | packages/runner/src/audit/chain.ts:70-97 | one sealed row joins the end, the rest is unchanged, every row stays linked and the tail is the last row's hash |
| `AuditChain.AuditChain.Snapshot` | packages/runner/src/audit/chain.ts:112-114 | the rows |
| `AuditChain.CoreKeepsBody` | packages/runner/src/audit/chain.ts:73-84 | reserved names come from the chain, a WORM stamp from the caller if it brings one and else from the clock; every other field is kept, none is added, and `this_hash` is not hashed |
| `AuditChain.RunKeepsLinks` | packages/runner/src/audit/chain.ts:70-97 | any run of appends only extends the log, by one row per entry, and keeps every row linked |
| `AuditChain.RunRecordsEntries` | packages/runner/src/audit/chain.ts:70-97 | row k holds the fields of its entry over the hash of the row before it, or GENESIS, and is sealed with the hash of that and its canonical form |
| `AuditChain.FramingUnambiguous` | packages/runner/src/audit/chain.ts:85 | the hashed text splits into previous hash and canonical form in one way only |
| `AuditChain.TailFixesTexts` | packages/runner/src/audit/chain.ts:85-88 | two chains with one tail hash agree row for row in canonical text and hash, or the lemma returns two different texts with one hash, one hashed in each chain; nothing is assumed of the canonical form |
| `AuditChain.TamperEvident` | packages/runner/src/audit/chain.ts:85-88 | with a canonical form that separates the records, such chains are equal row for row |
| `AuditChain.JcsTamperEvident` | packages/runner/src/audit/chain.ts:85 | with a JCS canonical form, such chains of plain JSON rows have the same rows up to member order inside their values |
| `AuditChain.EditMovesTail` | packages/runner/src/audit/chain.ts:99-101 | an edited and relinked log has another tail hash, or two different texts hashed in the two logs collide |
| `AuditChain.EditStaysVisible` | packages/runner/src/audit/chain.ts:70-101 | as long as neither of two logs is a beginning of the other, whatever rows were changed, inserted or dropped, appending to both never makes the tails meet, under the same proviso |
| `RecordsPaging.FindsFirst` | packages/runner/src/audit/records-route.ts:115 | the first row with the id, none only when no row has it |
| `RecordsPaging.AnswerExact` | packages/runner/src/audit/records-route.ts:104-134 | each reply from the log alone: malformed limit, unknown id, or the rows after the first with that id, as many as asked for, the maximum and the log allow |
| `RecordsPaging.RoundContinues` | packages/runner/src/audit/records-route.ts:110-135 | a reader in step continues right where it stopped, and `has_more` is true exactly if rows are left |
| `RecordsPaging.PagingExact` | packages/runner/src/audit/records-route.ts:104-134 | with unique ids, any limits and a growing log, what has arrived is always a beginning of the log, each row once, and `has_more` false means all of it |
| `RecordsPaging.PagingEnds` | packages/runner/src/audit/records-route.ts:110-123 | over a fixed log requests with any limits bring the rows they ask for together, up to the whole log, and all of it after as many requests as rows were missing |
| `RecordsPaging.RoundAt` | packages/runner/src/audit/records-route.ts:110-135 | what one request returns and where it leaves the reader, wherever it starts |
| `RecordsPaging.FollowsIffEndsLeadBack` | packages/runner/src/audit/records-route.ts:110-135 | for any limits and any growth of the log, every request continues where the last page ended if and only if the last row of every page has an id that leads back to it |
| `RecordsPaging.FollowsExact` | packages/runner/src/audit/records-route.ts:122-134 | and then what has arrived is a beginning of the log, with a truthful `has_more` |
| `RecordsPaging.IdlessRowsStick` | packages/runner/src/dispatch/dispatcher.ts:427-444 | over rows without an id, for any limits and any growth, every request starts at row 0 again, and a page short of the end says there is more and gives nothing to continue from |
| `AuditSink.AuditSink.constructor` | packages/runner/src/audit/sink.ts:104-117 | an initial state other than healthy counts as a transition |
| `AuditSink.AuditSink.TransitionTo` | packages/runner/src/audit/sink.ts:161-215 | no event exactly when already there, else one event named after the new state, with its times |
| `AuditSink.AuditSink.RecordAuditRow` | packages/runner/src/audit/sink.ts:148-155 | healthy keeps nothing, else the row joins buffer and pending queue |
| `AuditSink.AuditSink.FlushAndRecover` | packages/runner/src/audit/sink.ts:222-239 | ships the buffer in order; a failed ship leaves the sink as it was, a full one empties it and recovers with the count flushed |
| `AuditSink.RunRecoverable` | packages/runner/src/audit/sink.ts:161-239 | in every run state, failure times and pending files can be read off the event log and the buffer, and no two adjacent events share a kind |
| `AuditSink.RunConserves` | packages/runner/src/audit/sink.ts:148-239 | rows of completed flushes, then the buffer, are the rows received while not healthy, in order; each was shipped at least once or is buffered, and once if no flush failed |
| `AuditSink.EventsExact` | packages/runner/src/audit/sink.ts:161-239 | in every run each transition to another state adds one event named after it, each completed flush of a degraded sink a recovery; both count the rows received and not acknowledged |
| `AuditSink.ClaimsExact` | packages/runner/src/audit/sink.ts:192-239 | in every run the recovery events claim the acknowledged rows, those a healthy sink still holds, and those claimed again after it left healthy |
| `AuditSink.CountsAddUpIff` | packages/runner/src/audit/sink.ts:192-239 | the claimed counts equal the acknowledged rows at every point of a run if and only if no transition declared the sink healthy over a nonempty buffer |
| `AuditSink.ClaimsUnshipped` | packages/runner/src/audit/sink.ts:192-205 | degraded, one row, declared healthy: one row claimed, none shipped |
| `AuditRecords.PagedIds` | packages/runner/src/audit/records-route.ts:115-133 | for every run of appends the reader knows a row by the string `id` its body came with |
| `AuditRecords.DispatchRowsIdless` | packages/runner/src/dispatch/dispatcher.ts:426-445 | the rows that dispatches append to the chain have no id |
| `AuditRecords.DispatchRowsPlain` | packages/runner/src/dispatch/dispatcher.ts:426-445 | they are plain JSON with distinct keys and no undefined |
| `AuditRecords.ChainTells` | packages/runner/src/dispatch/dispatcher.ts:426-445 | the k-th row of the chain names every field of the k-th dispatch row, the hash before it and the WORM stamp |
| `AuditRecords.RefusedChained` | packages/runner/src/dispatch/dispatcher.ts:302-328 | after any run, a dispatch the budget refuses adds a chain row that says BudgetExhausted, no code, no subcode and no tokens |
| `AuditRecords.NamesListed` | packages/runner/src/dispatch/types.ts:63-90 | the names of stop reasons and error codes on the wire, in the order of the enumerations |
| `AuditRecords.NamesDistinct` | packages/runner/src/dispatch/types.ts:63-90 | the names in a row tell stop reasons and error codes apart |
| `AuditRecords.DispatchLogSticks` | packages/runner/src/audit/records-route.ts:131-134 | after any run of dispatches a reader of their audit log is at row 0 again at every request |
| `RateLimiter.PerBearerLimiter.Consume` | packages/runner/src/dispatch/plugin.ts:76-90 | the decision is the window's; only this bearer's window changes, losing stale times and gaining an admitted one |
| `RateLimiter.FreshOfRecord` | packages/runner/src/dispatch/plugin.ts:78 | pruning loses nothing: the fresh part of the window is the fresh part of the whole record |
| `RateLimiter.RunKeepsQuota` | packages/runner/src/audit/records-route.ts:37-53 | over a clock that never goes back, the window is the end of the record of admitted calls, and admitted calls `limit` apart are 60 seconds apart |
| `RateLimiter.WindowBound` | packages/runner/src/dispatch/plugin.ts:73-91 | no 60-second window, wherever it starts, admits more than `limit` calls of a bearer |
| `RateLimiter.RefusedIffFull` | packages/runner/src/dispatch/plugin.ts:79-86 | refused if and only if `limit` calls were admitted in the last 60 seconds of the whole record; the wait is then 1 to 60 seconds |
| `RateLimiter.OwnCallsDecide` | packages/runner/src/dispatch/plugin.ts:74-88 | a bearer's window and admissions depend on its own calls alone |
| `RateLimiter.RetryIsTight` | packages/runner/src/dispatch/plugin.ts:82-85 | a refused caller back after w whole seconds, with no other call of its own, is admitted if and only if w is at least the wait it was told |
| `RateLimiter.NoLimitNoEntry` | packages/runner/src/dispatch/plugin.ts:79-86 | with a limit of zero or less every answer is refused, 60 s |
| `EventMapper.EventMapper.Map` | packages/langgraph-adapter/src/stream-event-synth.ts:102-218 | the drafts and the next state for every kind of record |
| `EventMapper.EventMapper.EmitSessionStart` | packages/langgraph-adapter/src/stream-event-synth.ts:222-226 | a start the first time only |
| `EventMapper.EventMapper.EmitSessionEnd` | packages/langgraph-adapter/src/stream-event-synth.ts:228-232 | an end the first time only |
| `EventMapper.EventMapper.EmitDelta` | packages/langgraph-adapter/src/stream-event-synth.ts:234-256 | a block start before the first delta of a run, then the delta |
| `EventMapper.EventMapper.EmitMessageEnd` | packages/langgraph-adapter/src/stream-event-synth.ts:258-274 | the block end if a block is open, the message end, and the run forgotten |
| `EventMapper.BlocksExact` | packages/langgraph-adapter/src/stream-event-synth.ts:234-274 | for every trace, a run's block drafts are start, deltas, end for each closed message of the run read off the input, then those of the one under way; every text once, in its message, in order |
| `EventMapper.DeltaExact` | packages/langgraph-adapter/src/stream-event-synth.ts:284-292 | the text of a chunk is the string it is, or the string `content` of an object |
| `EventMapper.OthersExact` | packages/langgraph-adapter/src/stream-event-synth.ts:133-211 | for every trace, message, tool and prompt drafts are those its records call for, in order, whatever blocks and sessions are open |
| `EventMapper.BlocksBracketed` | packages/langgraph-adapter/src/stream-event-synth.ts:234-274 | cut anywhere, the drafts of a block are a beginning of a sequence of Start Delta+ End |
| `EventMapper.BlockEndThenMessageEnd` | packages/langgraph-adapter/src/stream-event-synth.ts:258-274 | every block end is directly followed by the message end of the same run |
| `EventMapper.SessionExact` | packages/langgraph-adapter/src/stream-event-synth.ts:104-131 | session start and end appear exactly at the first event that calls for each, with its outcome |
| `EventMapper.AtMostOneEach` | packages/langgraph-adapter/src/stream-event-synth.ts:222-232 | each occurs once if the trace calls for it, else never |
| `Handoff.HandoffService.RecordStatus` | packages/runner/src/a2a/plugin.ts:127-143 | a terminal row stays; any other takes the status and keeps offer and, without a new one, its stamp |
| `Handoff.HandoffService.KeepOffer` | packages/runner/src/a2a/plugin.ts:150-158 | the offer replaces the row's offer and nothing else; an unknown task starts accepted |
| `Handoff.HandoffService.ScheduleAutoExecute` | packages/runner/src/a2a/plugin.ts:101-116 | two timers at N and 2N seconds, unless a pair is listed |
| `Handoff.HandoffService.CancelAutoExecute` | packages/runner/src/a2a/plugin.ts:119-124 | the listed pair is cleared and unlisted |
| `Handoff.HandoffService.CancelTaskDeadline` | packages/runner/src/a2a/plugin.ts:345-351 | the listed deadline timer is cleared and unlisted |
| `Handoff.HandoffService.HandleOffer` | packages/runner/src/a2a/plugin.ts:509-556 | the reply for every shape of params and match; state changes only on acceptance |
| `Handoff.HandoffService.HandleTransfer` | packages/runner/src/a2a/plugin.ts:558-621 | the reply from retained offer and digests; on acceptance the row is stamped, the pair scheduled and the deadline armed |
| `Handoff.HandoffService.HandleStatus` | packages/runner/src/a2a/plugin.ts:623-646 | the status as read, a task past its deadline as timed out |
| `Handoff.HandoffService.HandleReturn` | packages/runner/src/a2a/plugin.ts:648-667 | the deadline timer goes for any task id; a well-formed return also cancels the pair and completes the task |
| `Handoff.HandoffService.FireTimer` | packages/runner/src/a2a/plugin.ts:448-464 | what each callback does to tasks, handles and emissions |
| `HandoffLaws.TerminalIsFinal` | packages/runner/src/a2a/plugin.ts:126-143 | a stored terminal status never changes, whatever follows in any order |
| `HandoffLaws.NoEmissionAfterReturn` | packages/runner/src/a2a/plugin.ts:433-481 | after an acknowledged return the deadline callback never fires for the task again, even if a later transfer re-arms it |
| `HandoffLaws.OneTimerEach` | packages/runner/src/a2a/plugin.ts:87-116 | matching handles leave a task at most one pending timer of each kind |
| `HandoffLaws.TimersConsistent` | packages/runner/src/a2a/plugin.ts:344-351 | in every run pending timers and the two handle maps match |
| `HandoffLaws.OffersKept` | packages/runner/src/a2a/plugin.ts:150-158 | the stored offer is the task's latest acceptable offer, with the second it came in |
| `HandoffStatus.StatusExact` | packages/runner/src/a2a/plugin.ts:179-194 | the reply to a status request from the operations alone: unknown, completed, timed out, executing or accepted, each with its exact condition |
| `HandoffStatus.OfferAnswers` | packages/runner/src/a2a/plugin.ts:509-556 | each reply to an offer and its one condition |
| `HandoffStatus.TransferAnswers` | packages/runner/src/a2a/plugin.ts:583-600 | each reply to a transfer by the latest acceptable offer: accepted if and only if it is within the retention window and names both digests |
| `HandoffStatus.TransferSets` | packages/runner/src/a2a/plugin.ts:101-116 | what an accepted transfer leaves pending: the pair at N and 2N seconds unless one is pending, the one deadline timer, and every other timer as it was |
| `HandoffStatus.ReturnAnswers` | packages/runner/src/a2a/plugin.ts:648-667 | a return is acknowledged if and only if it carries a digest; it leaves no deadline timer of the task, and acknowledged no timer at all |
| `HandoffStatus.DigestMeans` | packages/runner/src/a2a/errors.ts:67-69 | a digest is `sha256:` and 64 lower-case hex digits |
| `HandoffStatus.DestinationMeans` | packages/runner/src/a2a/plugin.ts:605 | a destination is `ses_` and the first sixteen characters of the task id, zeros for those it lacks |
| `HandoffTiming.RunCovered` | packages/runner/src/a2a/plugin.ts:101-143 | in every run with the hook on, an accepted task that has not ended has a completion pending, scheduled no later than its stamp |
| `HandoffTiming.NoTimeout` | packages/runner/src/a2a/plugin.ts:179-194 | with 2000 N + L <= 1000 D no run is ever answered that a task timed out, however often transfers are replayed |
| `HandoffTiming.TimeoutReached` | packages/runner/src/a2a/plugin.ts:179-194 | without that margin a run is, with a deadline callback or without one |
| `HandoffTiming.NeverTimedOutIff` | packages/runner/src/a2a/plugin.ts:602-612 | no status request is ever answered timed out if and only if 2000 N + L <= 1000 D |
| `HandoffTiming.GuardMeans` | packages/runner/src/server.ts:438-452 | a start that passes the guard uses the deadline it was set, or 300 s, and has 2N below it if and only if the setting is readable or N is below 150 |
| `HandoffTiming.GuardFails` | packages/runner/src/server.ts:444-448 | N = 200 beside an unreadable deadline passes the guard, and after a legal run a task is answered timed out |
| `HandoffTiming.StartedNeverTimesOut` | packages/runner/src/a2a/types.ts:162-177 | a started service, its loop at most a second late, never reads timed out if and only if the setting is readable or 2000 N + L <= 300000 |
| `HandoffTiming.AcceptedTaskEnds` | packages/runner/src/a2a/plugin.ts:103-109 | with the hook on an accepted task has ended 2N seconds and the lateness after its transfer |
| `HandoffTiming.DeadlineEmitsIff` | packages/runner/src/a2a/plugin.ts:448-464 | the callback is called, with the task and its destination, exactly when a deadline timer fires whose task has not ended and the clock is still in the second the timer was due; by nothing else |
| `HandoffTiming.LateCallbackSilent` | packages/runner/src/a2a/plugin.ts:448-464 | a run in which the timer of an unended task fires one millisecond late, in the next second, and nothing is called |
| `JwtReplay.JtiReplayCache.Has` | packages/runner/src/a2a/jwt.ts:90-93 | prunes, and answers whether the id is held past now |
| `JwtReplay.JtiReplayCache.Register` | packages/runner/src/a2a/jwt.ts:96-98 | held until exp + 30, other ids unchanged |
| `JwtReplay.JtiReplayCache.Size` | packages/runner/src/a2a/jwt.ts:100-103 | prunes and counts |
| `JwtReplay.JtiReplayCache.PruneExpired` | packages/runner/src/a2a/jwt.ts:105-110 | the deleting loop keeps exactly the entries past now |
| `JwtReplay.Verify` | packages/runner/src/a2a/jwt.ts:161-269 | the checks in order give the declared outcome, and the cache changes only by pruning and, for a valid token, registering |
| `JwtReplay.ValidMeans` | packages/runner/src/a2a/jwt.ts:185-268 | valid if and only if readable, algorithm EdDSA, ES256 or RS256, claims typed, audience right, lifetime at most 300 s, in time, id not held, key found and signature good; its expiry is then at most the skew and 300 s ahead |
| `JwtReplay.RefusalsMean` | packages/runner/src/a2a/jwt.ts:161-261 | the exact condition of every other outcome |
| `JwtReplay.CacheAfter` | packages/runner/src/a2a/jwt.ts:90-110 | what an attempt leaves in the cache: what it held past now, and a valid token's id until 30 s after its expiry |
| `JwtReplay.ReplayBeforeSignature` | packages/runner/src/a2a/jwt.ts:232-236 | a held id is a replay whatever key discovery and signature would say |
| `JwtReplay.CacheRemembers` | packages/runner/src/a2a/jwt.ts:83-111 | in every run the cache lists only accepted tokens and all that are still to be remembered, despite lazy pruning |
| `JwtReplay.ReplayExact` | packages/runner/src/a2a/jwt.ts:234-236 | a token that reaches the check is refused if and only if an earlier accepted one with its id is to be remembered past now |
| `JwtReplay.AcceptedApart` | packages/runner/src/a2a/jwt.ts:213-268 | two accepted tokens with one id: the later is accepted no earlier than the first's exp + 30; no token twice unless more than 30 seconds pass inside one attempt |
| `JwtReplay.OnlyValidRegisters` | packages/runner/src/a2a/jwt.ts:265-267 | without an accepted token the cache stays empty |

## Left out

- Concurrency inside one call: each request, callback, verification and flush is one step. Awaits between the `jti`
  check and its registration, between two flushes, and between a flush and an arriving row are not modelled.
- One correlation id registered twice at once, which overwrites the earlier controller: ids are taken as distinct.
- Events after MessageEnd and the matching of `content_block_index`: the checker enforces neither, so nothing is
  claimed of them.
- Text is a sequence of Unicode characters: strings with lone surrogates, UTF-8 decoding of chunks and the BOM are
  outside. Numbers on the wire are safe integers; fractions and exponents are outside the reader.
- IEEE-754 rounding: token counts are integers, the percentile and the 1.15 factor are exact reals.
- Hashing, the `canonicalize` library, JOSE, X.509, base64url and `Date`: parameters or abstract functions. The hash is
  not assumed injective, since no injective function writes 64 hex digits; the lemmas return two texts the chains
  themselves hashed instead.
- Schema validation, capability matching, the digests recomputed at a transfer, clocks, random draws and minted ids:
  parameters of the calls.
- The text of error messages, and the fields of a response that no modelled code reads (`content_blocks` beyond the
  refusal, `tool_calls`, `generated_at`).
- The clock runs at one rate for timers and requests, timers fire in the order they are due, and no delay exceeds
  the 24.8 days of `setTimeout`.
- A registry passed in with deadlines of its own, and a deadline callback that throws, which the plugin ignores.
- A test-adapter stream that stalls and is never aborted has no end; the model gives every stall an abort.
- File writes, fsync, markers and the directory of pending files beyond its set of names; the 60-second and
  1000-record thresholds, which comments describe and the sink does not implement.
- Outside the model: HTTP routing, bearers, TLS, the etag-drift check after a valid token, version negotiation, card
  signing, memory backends and the permission resolver.
