# A verified model of RESTinio's connection, parser and message core

The repository vendors RESTinio 0.6.13, a C++ HTTP server library. This project models its five
hardest pieces in Dafny and proves what they promise:

1. **The HTTP pipelining engine** (`Buffers`, `GroupHistory`, `CoordinatorSpec`, `CoordinatorObjects`, `WriteOutput`,
   `ConnectionSpec`, `ConnectionObject`, and the theorems in `ConnectionHistory`,
   `ConnectionInvariant`, `ConnectionTheorems`, `ConnectionClosing`, `ConnectionAccepts`,
   `ConnectionProgress`, `ConnectionLifetime`). A ring of
   response contexts takes parts in any order and releases them in request order; the write half of a
   connection cuts them into write operations and calls notificators. The ring, the coordinator, the
   output context and the connection are classes; each method is proved equal to one step of a state
   machine over values, and the theorems are about all runs of that machine.
2. **The parser combinators** (`ParserSource`, `IntegerAccumulator`, `NumberParsing`, `Grammar`,
   `GrammarRelation`, `GrammarLaws`, `GrammarEffects`, `ParserObjects`). Grammars are values; the stateful parser is
   proved equal to an interpreter, and the interpreter to a relational semantics.
3. **The connection-count limiter with the acceptor** (`LimiterSpec`, `AcceptorObjects`): a protocol
   whose steps are the critical sections of the limiter's lock, in every interleaving.
4. **The response builders** (`HeaderString`, `HeaderReader`, `ChunkedCoding`, `ResponseBuilders`,
   `BodyBuilders`, `BuilderHeaders`, `BuilderObjects`), with a reference reader for response headers
   and a reference decoder for section 4.1 of RFC 7230; `EndToEnd` follows a
   chunked response from its builder through the coordinator to the socket.
5. **The multipart splitter and the request target scanner** (`Multipart`, `RequestTarget`).

Conventions. A C++ move empties its source. A notificator is named by a token, one per submission. An
asynchronous write either sends all its buffers or fails. The trace of a connection records what was
registered, submitted, accepted, sent and fired; the observations used in the theorems
(`SentItems`, `AcceptedItems`, `Stream`, `FiredTokens`, `OutputThrough`, `LastFlags`, `Awaited`) are functions of
the trace alone. Runs are finite sequences of steps; a step that is not enabled changes nothing.

Results that correct a first expectation:

- `get_by_req_id` is exact in a state if and only if the ids in the table do not wrap around 2^32
  (`FindExactUnlessWrapped`), and in all histories if and only if the table holds at most one request
  (`NeverLosesExactly`, with the calls that lose a request in `WrappedIdIsLost`). The run theorems are
  stated for at most 2^32 registrations.
- `fail_write_group` leaves the item index behind; no group is ever started with it
  (`StaleIndexIsNeverUsed`).
- `merge` keeps all notificators if and only if the first group has none
  (`MergeConservesNotificators`); `enqueue_group` checks exactly that. Over all histories of group
  objects, every notificator is called exactly once if and only if none was overwritten that way
  (`CalledExactlyOnce`).
- The overflow flag of the integer accumulator is raised if and only if some digit makes the residue
  modulo 2^bits fall or, for signed types, exceed the limit (`FlaggedExactlyWhenNoticeable`), so it
  tells the truth exactly for numbers within the limit and for those (`DetectionIsExact`); 15000000000
  in a signed 32-bit and 300 in an unsigned 8-bit type slip through (`OverflowCanGoUnnoticed`,
  `UnsignedOverflowCanGoUnnoticed`).
- `produce` does not rewind (`ProduceDoesNotRewind`): a failing producer ends where it began if and
  only if nothing was consumed before the failure (`RewindsExactly`). The last round of a `repeat` keeps
  its writes (`RepeatKeepsPartialWrites`): there are none if and only if the maximum was reached or
  that round was quiet (`RepeatLeaves`).
- An accept that ends without a connection is never given back to the limiter
  (`DeniedAcceptIsNotGivenBack`): a server serves again if and only if fewer accepts than the limit were
  lost and a slot is left (`ServesAgainExactly`), and `limit - lost` connections are then exactly what it
  can hold (`RestOfTheLimitIsUsable`, `LostAcceptsShrinkTheLimit`).

## Model

| member | source | states |
|---|---|---|
| `Buffers.MergeConservesNotificators` | web/restinio/restinio/buffers.hpp:874-892 | merging two groups keeps every notificator if and only if the first group has none, the condition in the doc comment of `merge` |
| `Buffers.WriteGroup.Move` | web/restinio/restinio/buffers.hpp:724-731 | a moved-from group is empty and has no notificator, the new one has the old value |
| `Buffers.WriteGroup.Swap` | web/restinio/restinio/buffers.hpp:695-702 | two groups exchange items, status line size and notificator |
| `Buffers.WriteGroup.Assign` | web/restinio/restinio/buffers.hpp:733-739 | move assignment takes the source's value and fires the notificator of the overwritten value with an error; self-assignment changes and fires nothing |
| `Buffers.WriteGroup.InvokeNotificator` | web/restinio/restinio/buffers.hpp:814-827 | the notificator is called once and is gone before the call |
| `Buffers.WriteGroup.Destroy` | web/restinio/restinio/buffers.hpp:746-756 | destruction fires a notificator that was not called |
| `Buffers.WriteGroup.SetNotificator` | web/restinio/restinio/buffers.hpp:799-804 | a new notificator replaces the one that is there |
| `Buffers.WriteGroup.Merge` | web/restinio/restinio/buffers.hpp:880-892 | items are appended in order, the second notificator moves over, and the dying second group fires nothing |
| `Buffers.WriteGroup.SetStatusLineSize` | web/restinio/restinio/buffers.hpp:762-790 | accepted if and only if the size is zero or fits into a first trivial item; otherwise nothing changes and the error tells which check failed |
| `GroupHistory.NotificatorBalance` | web/restinio/restinio/buffers.hpp:690-892 | in every history of creations, moves, swaps, assignments, merges, notifications and destructions on any number of groups, each notificator handed out is held once, was called once, or was overwritten once |
| `GroupHistory.CalledAtMostOnce` | web/restinio/restinio/buffers.hpp:814-827 | in every history a notificator is called at most once, and only one that was handed out |
| `GroupHistory.CalledExactlyOnce` | web/restinio/restinio/buffers.hpp:690-892 | when all groups are destroyed every notificator was called exactly once if and only if no step overwrote one (a new notificator on a group that has one, or a merge into such a group) |
| `GroupHistory.Program.AssignFrom` | web/restinio/restinio/buffers.hpp:733-739 | move assignment between group objects, self-assignment included, is that step of the history |
| `GroupHistory.Program.MergeFrom` | web/restinio/restinio/buffers.hpp:880-892 | merging one group object into another, or into itself, is that step of the history |
| `GroupHistory.Program.DestroyIt` | web/restinio/restinio/buffers.hpp:746-756 | destroying a group object is that step of the history |
| `CoordinatorSpec.FindSound` | web/restinio/restinio/impl/response_coordinator.hpp:195-206 | the lookup never leaves the window and finds the context of the very id it was asked for |
| `CoordinatorSpec.FindExactUnlessWrapped` | web/restinio/restinio/impl/response_coordinator.hpp:195-206 | the lookup finds every context in the window if and only if the ids in the window do not wrap around 2^32 |
| `CoordinatorSpec.WrappedIdIsLost` | web/restinio/restinio/impl/response_coordinator.hpp:195-206 | for every table that holds at least two requests, calls that lead from the initial state to one in which a registered request is unknown to the lookup and its response is refused |
| `CoordinatorSpec.NeverLosesExactly` | web/restinio/restinio/impl/response_coordinator.hpp:195-206 | the lookup finds every registered request in all histories of calls if and only if the table holds at most one request |
| `CoordinatorSpec.HistoryKeepsConsistent` | web/restinio/restinio/impl/response_coordinator.hpp:314-444 | consecutive ids below the counter and no final context without a group, after every history of calls |
| `CoordinatorSpec.RegisterKeepsConsistent` | web/restinio/restinio/impl/response_coordinator.hpp:314-320 | registration succeeds exactly on a table that is not full and keeps consecutive ids ending below the counter |
| `CoordinatorSpec.AppendKeepsConsistent` | web/restinio/restinio/impl/response_coordinator.hpp:323-361 | an accepted part keeps the ids and leaves a final context with something to send |
| `CoordinatorSpec.AppendExactly` | web/restinio/restinio/impl/response_coordinator.hpp:323-361 | a part is taken if and only if the coordinator is not closed and its request is in the table, at whatever place, and not finished; each refusal has its own error |
| `CoordinatorSpec.MergesExactly` | web/restinio/restinio/impl/response_coordinator.hpp:61-77 | a group is merged into the last one if and only if it has no status line and that one has no notificator, and no status line is lost |
| `CoordinatorSpec.PopKeepsConsistent` | web/restinio/restinio/impl/response_coordinator.hpp:370-406 | popping keeps consecutive ids and never leaves a final context empty in the table |
| `CoordinatorSpec.FinishedResponseNeverBlocks` | web/restinio/restinio/impl/response_coordinator.hpp:370-406 | a context leaves the table exactly when the last group of a final response is popped; nothing is ready only if the table is empty or its oldest response is unfinished; the closed flag rises exactly with the last group of a final connection-close response |
| `CoordinatorObjects.ContextTable.GetByReqId` | web/restinio/restinio/impl/response_coordinator.hpp:195-206 | the ring lookup selects the window position of the specification, across wraparound of the index |
| `CoordinatorObjects.ContextTable.Store` | web/restinio/restinio/impl/response_coordinator.hpp:262-270 | writing through a ring index changes one window position and no other |
| `CoordinatorObjects.ContextTable.PushResponseContext` | web/restinio/restinio/impl/response_coordinator.hpp:209-227 | a push on a full table (capacity 0 included) changes nothing; otherwise the window grows by the reinitialised cell, which is a fresh context when unused cells hold no groups, and that stays so |
| `CoordinatorObjects.ContextTable.PopResponseContextNonchecked` | web/restinio/restinio/impl/response_coordinator.hpp:251-260 | the window loses its first context and the ring turns by one cell |
| `CoordinatorObjects.ContextTable.PopResponseContext` | web/restinio/restinio/impl/response_coordinator.hpp:230-239 | an empty table is refused and unchanged |
| `CoordinatorObjects.ContextTable.Drain` | web/restinio/restinio/impl/response_coordinator.hpp:427-443 | the nested drain loop empties the table and fires every queued notificator once, in order |
| `CoordinatorObjects.Coordinator.RegisterNewRequest` | web/restinio/restinio/impl/response_coordinator.hpp:314-320 | the id returned is the number of earlier registrations modulo 2^32 and the table grows by a fresh context, or the full table is unchanged |
| `CoordinatorObjects.Coordinator.AppendResponse` | web/restinio/restinio/impl/response_coordinator.hpp:323-361 | the object does what the specification of appending says, with the same errors (which parts those are is `AppendExactly`), and keeps unused cells empty and final contexts nonempty |
| `CoordinatorObjects.Coordinator.PopReadyBuffers` | web/restinio/restinio/impl/response_coordinator.hpp:370-406 | the object does what the specification of popping says and keeps the invariant |
| `CoordinatorObjects.Coordinator.ResetAll` | web/restinio/restinio/impl/response_coordinator.hpp:415-444 | the table ends empty, id counter and closed flag stay, every queued notificator fires with an error |
| `WriteOutput.ExtractionPartitions` | web/restinio/restinio/impl/write_group_output_ctx.hpp:252-279 | repeated extraction terminates and partitions the items in order into nonempty runs of at most max_iov_len trivial items and single file items; neighbouring runs are split only when full |
| `WriteOutput.OutputContext.ExtractNextWriteOperation` | web/restinio/restinio/impl/write_group_output_ctx.hpp:252-279 | the operation sends exactly the items between the old and the new index, none if and only if the group is exhausted |
| `WriteOutput.OutputContext.PrepareTrivialBuffers` | web/restinio/restinio/impl/write_group_output_ctx.hpp:333-354 | the buffer loop takes the longest run of trivial items up to the limit, with their contents and total size |
| `WriteOutput.OutputContext.FinishWriteGroup` | web/restinio/restinio/impl/write_group_output_ctx.hpp:293-309 | the notificator gets success, the group is released and the index is reset |
| `WriteOutput.OutputContext.FailWriteGroup` | web/restinio/restinio/impl/write_group_output_ctx.hpp:282-330 | the notificator gets the error, the group is released, the index stays unless the notificator throws |
| `ConnectionObject.Connection.WriteResponseParts` | web/restinio/restinio/impl/connection.hpp:885-972 | one call is one step of the machine: refused parts fire their notificator with an error, an accepted part starts a write only if none is in progress, an unacceptable part closes the connection, at once or, when its notificator runs first, in the handler |
| `ConnectionObject.Connection.HandleException` | web/restinio/restinio/impl/connection.hpp:864-881 | the handler of the exception closes the connection, after whatever the notificator of the refused part wrote |
| `ConnectionObject.Connection.InitWrite` | web/restinio/restinio/impl/connection.hpp:989-1056 | the pump takes the next ready group, through groups without items, and terminates |
| `ConnectionObject.Connection.HandleCurrentWriteCtx` | web/restinio/restinio/impl/connection.hpp:1075-1105 | starts the next operation, or stops at the notificator, or goes on to the next group |
| `ConnectionObject.Connection.AfterNotification` | web/restinio/restinio/impl/connection.hpp:1251-1308 | after a written group the connection closes if the coordinator did, else looks for more (what that means for the socket is `SocketClosesExactly`) |
| `ConnectionObject.Connection.AfterWrite` | web/restinio/restinio/impl/connection.hpp:1356-1389 | a completed write goes on with the group; an error closes the connection and fails the group, also when its notificator throws |
| `ConnectionObject.Connection.Close` | web/restinio/restinio/impl/connection.hpp:1397-1456 | the socket is closed and the coordinator reset, firing every queued notificator |
| `ConnectionInvariant.NextInv` | web/restinio/restinio/impl/connection.hpp:885-1456 | every step keeps the invariant relating state and trace |
| `ConnectionTheorems.ResponsesInRequestOrder` | web/restinio/restinio/impl/connection.hpp:977-1056 | in every run, while the socket is open, sent items, the outstanding operation, the rest of the current group and the queue are together exactly the accepted items in increasing request id; in every state what was sent is a prefix of them (section 6.3.2 of RFC 7230) |
| `ConnectionTheorems.OneGroupInFlight` | web/restinio/restinio/impl/connection.hpp:974-986 | a write is outstanding only for the current group, and parts written while a group is held, also from its own notificator, start nothing |
| `ConnectionTheorems.StaleIndexIsNeverUsed` | web/restinio/restinio/impl/write_group_output_ctx.hpp:282-309 | an open idle connection always has item index 0 |
| `ConnectionTheorems.NotifiedExactlyOnce` | web/restinio/restinio/impl/response_coordinator.hpp:61-77 | over every run each submitted notificator fires at most once, is held as long as it has not fired, and has fired exactly once when the socket is closed and no write is outstanding |
| `ConnectionTheorems.SuccessMeansWritten` | web/restinio/restinio/impl/write_group_output_ctx.hpp:293-330 | at the moment a notificator reports success the socket has taken exactly the smaller requests in full and its own request through its own group |
| `ConnectionTheorems.ClosingIsABarrier` | web/restinio/restinio/impl/response_coordinator.hpp:332-401 | once closed, the output is exactly the responses up to the closing one, and in every continuation the flag stays, nothing is accepted and nothing else is sent |
| `ConnectionClosing.ClosedExactlyByACloseResponse` | web/restinio/restinio/impl/response_coordinator.hpp:392-401 | in every reachable open state all requests that left the table had a final part, none but the last asked to close, and the coordinator is closed if and only if the last one did |
| `ConnectionAccepts.PartIsAcceptedExactly` | web/restinio/restinio/impl/connection.hpp:885-972 | in every run a part is accepted, and its event follows at once, if and only if the connection is open, not closing, and the trace has its request registered and without a final part; otherwise the step accepts nothing |
| `ConnectionAccepts.NothingAfterTheFinalPart` | web/restinio/restinio/impl/response_coordinator.hpp:349-356 | in every run no part of a response is accepted after its final part |
| `ConnectionAccepts.AcceptedAreTaken` | web/restinio/restinio/impl/connection.hpp:885-972 | in every run the accepted items of a request are exactly those of the parts the coordinator took, in the order of the calls |
| `ConnectionLifetime.ClosedInTime` | web/restinio/restinio/impl/connection.hpp:1251-1308 | in every run an open socket with a closed coordinator still has a group in flight |
| `ConnectionLifetime.SocketClosesExactly` | web/restinio/restinio/impl/connection.hpp:885-1456 | in every run the socket is closed if and only if some step had a cause (request to close, destruction, failed write, thrown exception, a request too many, a refused part) or a close response is done |
| `ConnectionLifetime.KeepAliveStaysOpen` | web/restinio/restinio/impl/connection.hpp:1264-1285 | without a cause and without an accepted final part that asks to close, the socket is open at the end of every run |
| `ConnectionLifetime.CloseResponseIsCarriedOut` | web/restinio/restinio/impl/connection.hpp:1304-1308 | when a close response and all older ones have their final parts, every state at rest has a closed socket |
| `ConnectionLifetime.RefusedPartCloses` | web/restinio/restinio/impl/connection.hpp:864-881 | a part refused by an open connection brings the socket down as soon as no exception is on its way to the handler |
| `ConnectionLifetime.StatusTellsTheCause` | web/restinio/restinio/impl/connection.hpp:899-970 | in every run the status given to a notificator tells what happened to its group: failed write, connection down or closing, refused by the coordinator, destroyed in the queue |
| `ConnectionProgress.IdleMeansDelivered` | web/restinio/restinio/impl/connection.hpp:1264-1308 | an open idle connection whose requests all have final parts has sent all accepted items in order |
| `ConnectionProgress.CompletionMakesProgress` | web/restinio/restinio/impl/connection.hpp:1075-1105 | every awaited completion lowers a well-founded measure of remaining work |
| `ConnectionProgress.CompletionsDrain` | web/restinio/restinio/impl/connection.hpp:1075-1308 | from every reachable state finitely many completions lead to an idle state |
| `IntegerAccumulator.Accumulator.NextDigit` | web/restinio/restinio/impl/overflow_controlled_integer_accumulator.hpp:155-172 | the object advances as the specification, flag included |
| `IntegerAccumulator.AccumulatorIsSound` | web/restinio/restinio/impl/overflow_controlled_integer_accumulator.hpp:155-186 | for every width and base: congruent to the true value until flagged, a flag means real overflow, values within the limit are exact, and for signed types the flag is exact below 2^bits |
| `IntegerAccumulator.FlaggedExactlyWhenNoticeable` | web/restinio/restinio/impl/overflow_controlled_integer_accumulator.hpp:155-172 | for every width, signedness, base and digits the flag is raised if and only if some digit makes the residue of the true value modulo 2^bits fall or (signed) exceed the limit |
| `IntegerAccumulator.DetectionIsExact` | web/restinio/restinio/impl/overflow_controlled_integer_accumulator.hpp:155-186 | the flag agrees with real overflow if and only if the value is within the limit or some digit is noticeable in that sense |
| `IntegerAccumulator.UnsignedOverflowCanGoUnnoticed` | web/restinio/restinio/impl/overflow_controlled_integer_accumulator.hpp:155-172 | 300 for an 8-bit unsigned type ends as 44 without a flag |
| `IntegerAccumulator.OverflowCanGoUnnoticed` | web/restinio/restinio/impl/overflow_controlled_integer_accumulator.hpp:155-172 | 15000000000 for a 32-bit int ends as 2115098112 without a flag |
| `ParserSource.Source.GetCh` | web/restinio/restinio/helpers/easy_parser.hpp:764-773 | one character and one step forward, or end of input and no step |
| `ParserSource.Source.BackTo` | web/restinio/restinio/helpers/easy_parser.hpp:793-798 | any position up to the end of the input can be restored |
| `NumberParsing.ParseDigits` | web/restinio/restinio/helpers/easy_parser.hpp:2434-2556 | the position never leaves the input, and a failure restores it |
| `NumberParsing.ReadDigits` | web/restinio/restinio/helpers/easy_parser.hpp:2442-2467 | the digit loop feeds exactly the longest run of digits up to the limit, or stops at an overflow, for every limit its 8-bit counter can meet, also after wrapping around |
| `NumberParsing.TryParseDigits` | web/restinio/restinio/helpers/easy_parser.hpp:2434-2556 | the stateful parser returns the value and position of the specification, for decimal and hexadecimal digits |
| `NumberParsing.TryParseSigned` | web/restinio/restinio/helpers/easy_parser.hpp:2716-2793 | the same for an optional sign, with the position restored on every failure |
| `NumberParsing.ParsedNumberIsExact` | web/restinio/restinio/helpers/easy_parser.hpp:2434-2556 | a number is returned if and only if there are enough digits and none is noticeable, and then it is the true value modulo 2^bits; a value within the limit is returned exactly; the error tells overflow from too few digits, with its position |
| `NumberParsing.ParsesExactlyWhatIsDenoted` | web/restinio/restinio/helpers/easy_parser.hpp:2434-2556 | the parser returns a number and a position if and only if that is what the digits in the input denote, said without running it |
| `NumberParsing.ParsesExactlySigned` | web/restinio/restinio/helpers/easy_parser.hpp:2716-2793 | the same with an optional sign |
| `NumberParsing.SignedErrors` | web/restinio/restinio/helpers/easy_parser.hpp:2716-2793 | a signed number is refused as illegal if and only if its digits overflow noticeably; every other refusal is a pattern not found |
| `NumberParsing.ParseUndoesPrint` | web/restinio/restinio/helpers/easy_parser.hpp:2434-2556 | a printed number within the limit is read back anywhere in the input, consuming exactly its digits |
| `NumberParsing.ParseUndoesSpelling` | web/restinio/restinio/helpers/easy_parser.hpp:2511-2556 | a number within the limit is read back however its letters are written, in upper or lower case |
| `NumberParsing.DigitsAreThese` | web/restinio/restinio/helpers/easy_parser.hpp:2507-2515 | a character stands for a digit if and only if it is one of the ways to write that digit |
| `NumberParsing.ParseUndoesPrintSigned` | web/restinio/restinio/helpers/easy_parser.hpp:2716-2793 | every value of a signed type is read back, the smallest through a wrapping negation |
| `Grammar.Process` | web/restinio/restinio/helpers/easy_parser.hpp:1645-2114 | a clause never moves backwards or past the end, whether it succeeds or fails |
| `Grammar.AcceptsExactlyWholeInput` | web/restinio/restinio/helpers/easy_parser.hpp:5039-5065 | `try_parse` accepts if and only if the producer ends at the end of the input without trailing spaces; otherwise it reports the error of the producer or the first character that is not a space |
| `GrammarRelation.InterpreterAgreesWithRelation` | web/restinio/restinio/helpers/easy_parser.hpp:1645-2114 | success and failure (with the position and target left, and with or without a cut) are exactly those of the relational semantics, in both directions |
| `GrammarRelation.ProducerAgreesWithRelation` | web/restinio/restinio/helpers/easy_parser.hpp:2021-2039 | the same for producers: value and end position of a success, and position and cut of a refusal |
| `GrammarLaws.TargetIsNotInspected` | web/restinio/restinio/helpers/easy_parser.hpp:1645-2114 | match, end position and error of a clause do not depend on the target value |
| `GrammarLaws.FailureIsUndone` | web/restinio/restinio/helpers/easy_parser.hpp:1645-1943 | failed sequences and choices restore position and target, lookaheads always do, an unmatched option does, a failed repeat restores the position |
| `GrammarLaws.LeafErrors` | web/restinio/restinio/helpers/easy_parser.hpp:3310-3341 | a character or fragment is refused for an early end if and only if what is left is a proper beginning of it, and otherwise because it is not there |
| `GrammarLaws.ErrorsPointAhead` | web/restinio/restinio/helpers/easy_parser.hpp:1645-2114 | the position in an error lies in the input and not before the start of the clause; lookaheads report a pattern not found at their start, a repeat behind its complete rounds |
| `GrammarLaws.ProduceDoesNotRewind` | web/restinio/restinio/helpers/easy_parser.hpp:2021-2039 | a concrete failing `produce` that leaves the position advanced |
| `GrammarLaws.RepeatKeepsPartialWrites` | web/restinio/restinio/helpers/easy_parser.hpp:2077-2114 | a concrete `repeat` whose failed last round leaves its write in the target |
| `GrammarEffects.TargetHoldsTheWrites` | web/restinio/restinio/helpers/easy_parser.hpp:1645-2114 | whatever a clause does to a target, in success and in failure, is exactly the writes of the consumers that were not rolled back, in order |
| `GrammarEffects.RewindsExactly` | web/restinio/restinio/helpers/easy_parser.hpp:2021-2039 | a failing producer ends where it began if and only if the clauses before the failing one consumed nothing and the failing one stops in place |
| `GrammarEffects.RepeatLeaves` | web/restinio/restinio/helpers/easy_parser.hpp:2077-2114 | a repeat leaves the writes of its complete rounds and then those of the failed one, which are none if and only if the maximum was reached or the clauses of that round wrote nothing before it failed |
| `GrammarLaws.CutsComeFromForced` | web/restinio/restinio/helpers/easy_parser.hpp:1961-1986 | a clause fails with a cut if and only if it fails inside a forced alternative reached through sequences, consumed producers, `produce` and transformers only |
| `GrammarLaws.CutEndsTheChoice` | web/restinio/restinio/helpers/easy_parser.hpp:1645-1684 | the first clause of a choice that succeeds or cuts decides it; later clauses are irrelevant; a cut becomes `no_appropriate_alternative` at the start position |
| `GrammarLaws.NoAlternativeLeft` | web/restinio/restinio/helpers/easy_parser.hpp:1676-1683 | a choice without a match fails the same way |
| `ParserObjects.TryProcess` | web/restinio/restinio/helpers/easy_parser.hpp:1645-2114 | the stateful clauses, with consumers that roll back and copies of targets, do what the interpreter says; a failing clause other than a plain consumer restores the position, unless it is a repeat also the target, and lookaheads always do |
| `ParserObjects.TryParseProducer` | web/restinio/restinio/helpers/easy_parser.hpp:1203-1220 | the stateful producers do what the interpreter says |
| `ParserObjects.AnyOf` | web/restinio/restinio/helpers/easy_parser.hpp:1650-1674 | each alternative gets its own copy of the target; nothing is kept of the failed ones |
| `ParserObjects.RepeatAll` | web/restinio/restinio/helpers/easy_parser.hpp:2084-2101 | the repeat loop counts the complete rounds and ends behind the last of them |
| `ParserObjects.TryParseExact` | web/restinio/restinio/helpers/easy_parser.hpp:3310-3341 | succeeds exactly on the fragment, restores the position otherwise |
| `ParserObjects.EnsureNoRemainingContent` | web/restinio/restinio/helpers/easy_parser.hpp:1564-1581 | reports the first character that is not a space |
| `ParserObjects.RemoveTrailingSpaces` | web/restinio/restinio/helpers/easy_parser.hpp:1593-1600 | removes exactly the trailing spaces |
| `ParserObjects.TryParseAll` | web/restinio/restinio/helpers/easy_parser.hpp:5039-5065 | the entry point returns what the specification says, errors included |
| `LimiterSpec.CountersAreExact` | web/restinio/restinio/connection_count_limiter.hpp:167-259 | in every interleaving active accepts are the outstanding ones plus those that ended without a monitor, connections are the live monitors, their sum respects the limit and neither counter underflows |
| `LimiterSpec.StackHoldsTheParkedSlots` | web/restinio/restinio/connection_count_limiter.hpp:149-183 | the pending stack holds exactly the parked slots, each once, and fits the reserved capacity |
| `LimiterSpec.NoLostWakeup` | web/restinio/restinio/connection_count_limiter.hpp:199-259 | while a slot is parked and no retry is scheduled, the limit is exactly used up |
| `LimiterSpec.LostAcceptsShrinkTheLimit` | web/restinio/restinio/impl/acceptor.hpp:453-462 | in every continuation at most `limit - lost` accepts and connections are open at the same time |
| `LimiterSpec.RestOfTheLimitIsUsable` | web/restinio/restinio/connection_count_limiter.hpp:199-259 | as long as a slot is left, some continuation has exactly `limit - lost` connections open at once |
| `LimiterSpec.ServesAgainExactly` | web/restinio/restinio/impl/acceptor.hpp:391-520 | a reachable server can create another connection if and only if fewer accepts than the limit ended without one and some slot was not dropped; otherwise it is dead in every continuation |
| `LimiterSpec.DeniedAcceptIsNotGivenBack` | web/restinio/restinio/impl/acceptor.hpp:453-462 | with one slot and a limit of one, a single denied connection parks the slot for good |
| `LimiterSpec.FailedSlotIsGivenUp` | web/restinio/restinio/impl/acceptor.hpp:325-341 | after a failed accept the slot stays dropped in every continuation |
| `LimiterSpec.NextInv` | web/restinio/restinio/impl/acceptor.hpp:325-420 | every step keeps the counters, the stack and the wakeup condition |
| `AcceptorObjects.Limiter.DecrementParallelConnections` | web/restinio/restinio/connection_count_limiter.hpp:201-227 | the slot parked last is taken off the stack if and only if there is room again |
| `AcceptorObjects.Limiter.AcceptNext` | web/restinio/restinio/connection_count_limiter.hpp:235-259 | an accept is counted if there is room, otherwise the slot is parked |
| `AcceptorObjects.LifetimeMonitor.Destroy` | web/restinio/restinio/connection_count_limiter.hpp:388-392 | only the monitor that still owns the connection gives it back |
| `AcceptorObjects.LifetimeMonitor.Move` | web/restinio/restinio/connection_count_limiter.hpp:406-411 | ownership moves, the source keeps nothing |
| `AcceptorObjects.Acceptor.Open` | web/restinio/restinio/impl/acceptor.hpp:264-272 | the loop is the run that opens every slot once, in order |
| `AcceptorObjects.Acceptor.AcceptCurrentConnection` | web/restinio/restinio/impl/acceptor.hpp:391-520 | a completed accept is the run of completion, inspection (with or without a monitor) and the next attempt |
| `AcceptorObjects.Acceptor.ConnectionDestroyed` | web/restinio/restinio/impl/acceptor.hpp:345-355 | the end of a connection is one step, with the posted retry |
| `HeaderString.CreateHeaderString` | web/restinio/restinio/impl/header_helpers.hpp:67-153 | the method builds the specified text, which the reference reader undoes (`ReadUndoesPrint`) |
| `HeaderString.ApproxBufferSize` | web/restinio/restinio/impl/header_helpers.hpp:44-62 | the loop adds up the reserve |
| `HeaderString.HeaderFitsReserve` | web/restinio/restinio/impl/header_helpers.hpp:44-153 | for every header the string is never longer than the reserve |
| `HeaderString.StatusLineIsDelimited` | web/restinio/restinio/message_builders.hpp:210-215 | the status line size delimits exactly the status line, followed by CRLF |
| `HeaderReader.ReadUndoesPrint` | web/restinio/restinio/impl/header_helpers.hpp:67-153 | a reference reader over the text gives back version, status code, reason, connection and content length fields and all fields in order, and what follows, for texts without line breaks |
| `HeaderReader.FieldsMeanTheHeader` | web/restinio/restinio/impl/header_helpers.hpp:98-134 | the Connection field read back is the connection value of the header, the Content-Length field its content length |
| `ChunkedCoding.CreateBuffers` | web/restinio/restinio/message_builders.hpp:791-860 | the buffer loop emits header, size lines, chunks and appendix of the specification |
| `ChunkedCoding.FlushBytes` | web/restinio/restinio/message_builders.hpp:791-860 | the bytes of one flush are the header if due, well-formed chunks, and the last chunk if it is the end |
| `ChunkedCoding.DecodeUndoesEncode` | web/restinio/restinio/message_builders.hpp:791-860 | the reference decoder returns the concatenated chunks and stops exactly at the end |
| `ResponseBuilders.ChunkedRoundTrip` | web/restinio/restinio/message_builders.hpp:656-760 | for every sequence of calls, whatever the flush points and whatever is called after `done`, the bytes after the header decode to the data appended before `done`, with nothing left |
| `ResponseBuilders.ChunkedGroupsAreProper` | web/restinio/restinio/message_builders.hpp:723-760 | over every sequence of calls: header first and once, one status line, one connection attribute, exactly the last group of a completed response final, and the status line check never throws |
| `BuilderHeaders.ChunkedHeaderIsAsAsked` | web/restinio/restinio/message_builders.hpp:723-789 | the header in the first group is the one the calls before it ask for: closing if and only if it was so or `connection_close` was called, the fields in order, with the chunked coding announced; all groups carry its connection attribute |
| `BuilderHeaders.AnnouncementIsMade` | web/restinio/restinio/message_builders.hpp:762-789 | a Transfer-Encoding field naming the chunked coding is there: a new one, or the first one extended unless it names it already; all other fields stay |
| `BuilderHeaders.ChunkedNotifies` | web/restinio/restinio/message_builders.hpp:723-760 | every notificator given to a builder before it is done goes to the connection with its group |
| `BodyBuilders.UserGroupsAreProper` | web/restinio/restinio/message_builders.hpp:514-598 | the same for user controlled output |
| `BuilderHeaders.UserHeaderIsAsAsked` | web/restinio/restinio/message_builders.hpp:514-558 | the header in the first group is the one the calls before it ask for, with the length set last; all groups carry its connection attribute |
| `BuilderHeaders.UserNotifies` | web/restinio/restinio/message_builders.hpp:514-558 | every notificator given to a builder before it is done goes to the connection with its group |
| `BodyBuilders.UserBodyIsComplete` | web/restinio/restinio/message_builders.hpp:433-598 | a completed response carries exactly the body items asked for before `done`, in order, whatever is called later |
| `BodyBuilders.ContentLengthIsBodySize` | web/restinio/restinio/message_builders.hpp:303-385 | one final group of header and body, with Content-Length equal to the total size of the body items, and no later call adds anything |
| `BuilderHeaders.ControlledHeaderIsAsAsked` | web/restinio/restinio/message_builders.hpp:303-341 | the header sent is the one the calls ask for, and on the wire the reference reader finds a Content-Length field equal to the total size of the body items |
| `BuilderObjects.ChunkedResponseBuilder.SendReadyData` | web/restinio/restinio/message_builders.hpp:723-760 | the object sends what its state machine says |
| `BuilderObjects.ChunkedResponseBuilder.Done` | web/restinio/restinio/message_builders.hpp:700-720 | `done` sends the final group once; a second call is an error and changes nothing |
| `BuilderObjects.UserControlledResponseBuilder.SendReadyData` | web/restinio/restinio/message_builders.hpp:514-558 | the object sends what its state machine says |
| `BuilderObjects.UserControlledResponseBuilder.SetBody` | web/restinio/restinio/message_builders.hpp:560-580 | unsent body parts are replaced, the header slot is kept |
| `BuilderObjects.ControlledResponseBuilder.SetBody` | web/restinio/restinio/message_builders.hpp:344-361 | body and size counter are replaced |
| `BuilderObjects.ControlledResponseBuilder.AppendBody` | web/restinio/restinio/message_builders.hpp:363-375 | a nonempty part is added to body and size counter |
| `BuilderObjects.ControlledResponseBuilder.Done` | web/restinio/restinio/message_builders.hpp:303-341 | the single group is sent once; a second call is an error |
| `EndToEnd.ChunkedResponseArrives` | web/restinio/restinio/impl/connection.hpp:885-1308 | a chunked response whose builder's calls reach the connection and are not refused stands, once sent in full, at its place in the pipelined output and decodes to the appended data |
| `Multipart.SplitMultipartBody` | web/restinio/restinio/helpers/multipart_body.hpp:70-133 | the loop computes the splitting function |
| `Multipart.CheckBoundaryValue` | web/restinio/restinio/helpers/multipart_body.hpp:454-475 | accepts exactly the boundary grammar of RFC 2046 |
| `Multipart.BoundaryFollowsTheGrammar` | web/restinio/restinio/helpers/multipart_body.hpp:401-475 | the values accepted are those of the boundary production of RFC 2046, with its characters listed one by one |
| `Multipart.BoundaryMakesMark` | web/restinio/restinio/helpers/multipart_body.hpp:546-552 | the mark made of two hyphens and a legal boundary contains no line break |
| `Multipart.SplitExactlyWellFormed` | web/restinio/restinio/helpers/multipart_body.hpp:70-133 | with a legal boundary, parts are found if and only if the body is a mark-free preamble that is empty or ends a line, mark-free parts between line ends and marks, the closing mark and any epilogue; they are exactly those parts |
| `Multipart.SplitUndoesCompose` | web/restinio/restinio/helpers/multipart_body.hpp:70-133 | splitting undoes composing |
| `RequestTarget.BlocksDoNotMatter` | web/restinio/restinio/http_headers.hpp:1947-1972 | folding `append_request_target` over any cut of a target equals one scan of the whole |
| `RequestTarget.ComponentsAreExact` | web/restinio/restinio/http_headers.hpp:1900-1943 | path, query and fragment are the unique decomposition of the target by sections 3.3 to 3.5 of RFC 3986, and rebuild it |
| `RequestTarget.RequestHeader.SetRequestTarget` | web/restinio/restinio/http_headers.hpp:1889-1898 | one scan of the whole target |
| `RequestTarget.RequestHeader.AppendRequestTarget` | web/restinio/restinio/http_headers.hpp:1947-1972 | one more block |

## Left out

- HeaderReader.ReadUndoesPrint: headers with line breaks in their texts, colons in field names, or versions and status codes of more than one and three digits; the source prints them without a check and the text no longer tells them apart.
- The repository's own files `PSoCcom.hpp`, `Serial.hpp`, `RPIdata.hpp`, `UARTTEST`, `mainTest.cpp`: device, file and build plumbing.
- The read half of `connection_t`, upgrade handling, timers, state listeners and `http_parser`.
- CoordinatorObjects.Coordinator.constructor: tables of more than 2^32 contexts are not modelled.
- Request ids after 2^32 registrations: the run theorems stop there, because the lookup does.
- ConnectionObject.Connection.AfterWrite: a write reported as aborted is possible only after `close()`, as the comment in `after_write` says.
- Notificators called for a part refused by a closed connection, or while the coordinator is reset, run as events of that step; the calls they make on the connection are refused as well and are the steps that follow.
- Buffers.WriteGroup: `reset()` and the byte storage of `writable_item_t`; items are a kind and their content, and the coordinator stores group values, since each group has one owner.
- NumberParsing.ReadDigits: `int_fast8_t` is taken to have 8 bits and to wrap around, as on common platforms.
- Grammar.Process: exceptions thrown by consumers, and the concrete consumers and transformers, which are arbitrary functions here.
- LimiterSpec.CountersAreExact: one open period; closing and reopening the acceptor does not return aborted accepts to the limiter. The limiter that limits nothing is not modelled.
- ChunkedCoding.CreateBuffers: sendfile items as chunks; the source reads them as plain buffers.
- Parsing of the parts of a multipart body and of Content-Type, `path2regex`, routers, regex engines, zlib, `uri_helpers`, TLS, asio wrappers, loggers, settings, websockets.
