# A verified model of the rusty_lsp server runtime

This project models the behaviour of `rusty_lsp`, an asynchronous framework for
language servers, and proves what that behaviour is meant to guarantee. One
story runs through it: bytes arrive in frames and become messages; requests run
concurrently while notifications are applied one at a time; the document store
changes; and answers are computed from positions in its texts.

Text is a sequence of bytes that is valid UTF-8 (RFC 3629, section 3), so that
byte scans, character scans and the three column encodings are really different
computations. Concurrency is a step system: every access to an atomic, a lock, a
channel or a map is one step, any enabled step may come next, and the results
hold in every reachable state of every interleaving.

| files | model |
|---|---|
| `Runtime.dfy` and `Runtime*.dfy` | the message loop, the request tasks, the notification worker, the in-flight map and its mutex, the permits, the teardown (`src/server.rs`) |
| `CancelToken.dfy`, `Outbound.dfy`, `PendingRequests.dfy` | the cancellation token, the outbound queue and its limit, the pending server-to-client requests (`src/cancel.rs`, `src/client.rs`) |
| `Strings.dfy`, `Scalars.dfy`, `Text.dfy`, `TextScan.dfy`, `LineIndex.dfy`, `Edits.dfy`, `Inserts.dfy`, `StablePositions.dfy`, `SequentialEdits.dfy`, `Divergence.dfy`, `Sorting.dfy` | UTF-8 text, positions, the line index, batch edits and what they mean one at a time (`src/text.rs`) |
| `Documents.dfy` | the document store with its cached line indexes (`src/documents.rs`) |
| `SemanticTokens.dfy` | the semantic-token builder (`src/lsp/semantic_tokens.rs`) |
| `Ascii.dfy`, `Uri.dfy`, `UriPaths.dfy` | URI normalization, percent-coding and paths (`src/lsp/base.rs`) |
| `Frames.dfy`, `Headers.dfy`, `Transport.dfy`, `JsonRpc.dfy`, `Wire.dfy`, `Wrappers.dfy` | framing, JSON-RPC messages, and the whole wire (`src/transport.rs`, `src/jsonrpc.rs`, the writer in `src/server.rs`) |

Loops and updates in place are methods proved against specification functions;
the properties are lemmas about those functions. In the runtime the step
functions are the model; `RuntimeLoop.Server` shows the bodies of the critical
sections as code that updates shared fields, each being one run of the step
system.

## What holds only under a condition

Each comes with an input or a run on which it fails, and says how sharp the
condition is.

- A change notification whose range is inverted panics in the middle
  (`src/documents.rs:157`). The text keeps the changes made so far, while the
  version and the cached line index stay. Exactly when the length or the line-feed
  positions have changed by then the index is stale, and a query through it can
  answer wrongly (`Documents.StepCoherent`, `Documents.PanicLeavesStaleIndex`).
- A batch of edits equals the same edits sent as changes, last first, for every
  choice of new texts, exactly when no edit that touches the next one has a
  position past the offset it is clamped to (`Divergence.StabilityIsExact`;
  `SequentialEdits.ClampedEditsDiffer` is the smallest case).
- `Uri::join` keeps a URI normal exactly unless the base ends in a bare percent sign
  and the segment begins with a lower-case hex letter
  (`UriPaths.JoinKeepsNormal`, `UriPaths.JoinCanBreakNormal`).
- `parent` undoes `join` for a slash-free segment exactly when the base has no
  trailing slash, or is the bare root and the segment is not empty
  (`UriPaths.ParentInvertsJoin`).
- A frame cut short is an error, except exactly when the body is empty and only the
  last byte is missing: a lone carriage return already counts as the empty line
  (`Frames.CutFrameFails`).
- An abort lands only at an await, so a cancelled handler in mid-poll can still
  answer. Starting a task keeps answers their owners' own, however the tasks go on,
  exactly when none under its id is still before its claim: otherwise some run
  without further input answers the new request with another handler's outcome
  (`RuntimeOwnAnswers.OwnAnswers`, `RuntimeReuse.StartingAloneIsExact`,
  `RuntimeReuse.UnsafeRunCanGoWrong`). For the client it is sufficient, not
  necessary, never to use a cancelled id again
  (`RuntimeOwnAnswers.NoReuseIsEnough`, `RuntimeReuse.ReuseCanSteal`).
- Progress needs a cap of at least one. A cap of zero is accepted by
  `with_max_concurrent_requests`, and then no handler ever runs
  (`RuntimeProgress.EveryRunDrains`, `RuntimePermits.ZeroCapNeverRuns`).
- A server-to-client call that is dropped while it waits leaves its entry in the
  pending map until a response arrives (`PendingRequests.OnlyAbandonedCallsLeak`).

## Model

| member | source | states |
|---|---|---|
| RuntimeMutex.NoClaimBeforeRegistration | src/server.rs:628-703 | A task about to look for its entry holds the mutex alone, and the loop is outside its critical section: no handler, however fast, claims before it is registered. |
| RuntimeMutex.OneHolder | src/server.rs:628-703 | While a task holds the mutex, no spawning or cancelling step that touches the map is enabled. |
| RuntimeMutex.AbortFollowsTrip | src/server.rs:753-756 | In every reachable state an aborted or dropped task's token is already tripped. |
| RuntimeMutex.StepKeeps | src/server.rs:606-704 | Every step of loop, worker and tasks keeps the mutex discipline, the soundness of the map and the order of trip and abort. |
| RuntimeReceipts.ReceivedIsWhatWasSent | src/server.rs:443-537 | Over every run the notification log is exactly the notifications read after a successful initialize, the requests are exactly those read, each with its id, kind, how far the server was, and as watermark the number of notifications before it; and every message that does not parse has its response. |
| RuntimeReplies.RepliesReportTheSteps | src/server.rs:475-537 | Success and failure of initialize and shutdown, duplicate refusals and cancellations are each answered exactly as often as the step was taken. |
| RuntimeReplies.RefusedOnlyAsDuplicate | src/server.rs:628-645 | A request refused as a duplicate found its id in flight when the loop, holding the map, came to spawn it. |
| RuntimeAccounts.Conservation | src/server.rs:606-703 | In every reachable state, per request and per id: received equals sent plus in flight plus claimed but unsent plus drained plus in the loop's hands. |
| RuntimeAccounts.ConservationWhileReading | src/server.rs:547-551 | Between messages and after the drain the loop holds nothing, so per id the received requests are the answered, the in-flight one, the claimed-unsent and the drained. |
| RuntimeAccounts.ExactlyOnePlace | src/server.rs:593-596 | Every request received is in exactly one of those places. |
| RuntimeAccounts.AnsweredOnce | src/server.rs:593-596 | No two answers settle one request, and an answered request is not in flight. |
| RuntimeAccounts.ClaimLosesNothing | src/server.rs:678-694 | When a task looks for its entry, the entry is missing exactly when the request is already answered, claimed or drained. |
| RuntimeOwnAnswers.OwnAnswers | src/server.rs:676-694 | Over every run in which each task under an id is started with no earlier one there still before its claim, each handler's answer under that id carries the outcome its own handler ended with. |
| RuntimeOwnAnswers.NoReuseIsEnough | src/server.rs:639-694 | So it is in every run in which no id is spawned again after it was cancelled. |
| RuntimeOwnAnswers.OutcomesComeFromHandlers | src/server.rs:672-694 | An outcome on its way to an answer was produced by that task's handler during the run. |
| RuntimeOwnAnswers.FinishAnswersTheHolder | src/server.rs:682-694 | A handler that finishes undisturbed answers whichever request its id belongs to at that moment. |
| RuntimeOwnAnswers.CancelRun | src/server.rs:739-759 | An uninterrupted cancellation removes the entry, trips, aborts and answers, and changes nothing else. |
| RuntimeOwnAnswers.ReuseStealsTheAnswer | src/server.rs:682-694 | From any state where a handler runs and its request is in flight, cancelling and reusing the id lets the new request be answered with the old outcome. |
| RuntimeOwnAnswers.SomeHandlerRuns | src/server.rs:656-677 | For every cap but zero such a state is reachable. |
| RuntimeReuse.StartSteals | src/server.rs:639-694 | From every reachable state about to start a task while one under its id is still before its claim, waiting, queued, running or at its claim, some run without further input answers the new request with another handler's outcome. |
| RuntimeReuse.StartingAloneIsExact | src/server.rs:639-694 | All runs without further input after the start keep the id's answers their owners' own if and only if no task under the id was still before its claim. |
| RuntimeReuse.UnsafeRunCanGoWrong | src/server.rs:639-694 | Every run in which some task is not started alone has a point from which a run without further input steals an answer. |
| RuntimeReuse.ReuseCanSteal | src/server.rs:739-759 | Whatever happened since the cancellation: if the id is used again while the cancelled task is before its claim, the new request can get the old handler's outcome. |
| RuntimeCancellation.AnswersTellTheTruth | src/server.rs:547-551 | Every answer carries the id of the request it settles; a cancelled or drained request's token is tripped and its task aborted. |
| RuntimePermits.PermitsAreConserved | src/server.rs:657-664 | Free and held permits always add up to the cap, at most that many handlers run, and permit holders are past the watermark wait. |
| RuntimePermits.ZeroCapNeverRuns | src/server.rs:206-209 | With a cap of zero no handler ever runs or answers. |
| RuntimePermits.AbortEndsTheTask | src/server.rs:753-756 | An abort at an await ends the task for good, gives back its permit and answers nothing. |
| RuntimeNotes.AppliedInReceiptOrder | src/server.rs:357-381 | Over every run, what the worker has applied is a prefix of the notifications the client sent after a successful initialize, in order, and covers the published watermark. |
| RuntimeNotes.HandlerSeesEarlierNotes | src/server.rs:583-589 | Until teardown, whenever a handler has started, every notification sent before its request has been applied. |
| RuntimeNotes.ShutdownSeesEarlierNotes | src/server.rs:503-507 | When the shutdown handler starts, and as long as it runs, everything sent has been applied. |
| RuntimeNotes.EndAppliesEverything | src/server.rs:540-561 | A server that has ended has ended its worker, and unless the grace ran out everything sent had been applied. |
| RuntimeNotes.HandlerReadsFoldOfPrefix | src/server.rs:656-661 | The documents a running handler reads are the fold of a prefix of the notifications sent that reaches at least to where its request came. |
| RuntimeNotes.ConcurrentCachesCoherent | src/documents.rs:63-68 | Over every interleaving of well-formed changes and lookups, a cached index belongs to the current text. |
| RuntimeNotes.WorkKeeps | src/server.rs:357-381 | Every step of the worker keeps queue, numbering, applied log and watermark in agreement with the receipt log. |
| RuntimeProgress.EveryRunDrains | src/server.rs:657-694 | With a cap of at least one (or none), runs without further input are bounded, and where one can go no further every request is answered exactly once, or drained once if the loop has ended. |
| RuntimeProgress.RunsAreShort | src/server.rs:606-704 | A run without input is no longer than the measure of the state it starts from. |
| RuntimeProgress.StepFalls | src/server.rs:606-704 | Every step other than input lowers the measure. |
| RuntimeProgress.SomethingCanHappen | src/server.rs:356-561 | No deadlock: unless everything is settled, some step other than input is enabled. |
| RuntimeProgress.CanDrain | src/server.rs:540-561 | From every reachable state some run without input settles everything. |
| RuntimeLifecycle.InitializesOnce | src/server.rs:476-500 | Initialize succeeds at most once, and the server counts as initialized exactly when it has. |
| RuntimeLifecycle.NothingBeforeInitialize | src/server.rs:459-471 | Before that no task is spawned, no notification queued, and every answer is a refusal or a failed initialize. |
| RuntimeLifecycle.AnswersFollowReceipt | src/server.rs:475-537 | Refusals go exactly to the requests that came too early or too late; only feature requests in between are spawned. |
| RuntimeLifecycle.EndsOkExactly | src/server.rs:384-455 | A finished run ended Ok exactly when it was stopped by `exit` after an accepted shutdown, a clean end of stream, or the signal. |
| RuntimeLifecycle.EndingFollowsInput | src/server.rs:384-455 | The cause of the ending is a function of the input steps alone and never changes during teardown. |
| RuntimeLifecycle.EndsForItsCause | src/server.rs:384-455 | The loop ends only by `exit`, after a shutdown if it says so, or by the event it names. |
| RuntimeLoop.Server.SpawnRequest | src/server.rs:606-704 | Refuses a duplicate id or registers a waiting task, as one uninterrupted run of the step system. |
| RuntimeLoop.Server.CancelRequest | src/server.rs:739-759 | Removes, trips, aborts and answers, or leaves everything as it was, as one uninterrupted run. |
| RuntimeLoop.Server.DrainInFlight | src/server.rs:547-551 | Empties the map; exactly the requests that had an entry are tripped, aborted and noted. |
| RuntimeLoop.Server.ServeNotes | src/server.rs:357-381 | Once the queue is closed: applies what is left of it in order, one at a time, and publishes the last number. |
| CancelToken.NoLostWakeup | src/cancel.rs:62-89 | A waiter parked while the flag is set has a wakeup pending or some canceller has yet to notify. |
| CancelToken.ReturnsOnlyWhenCancelled | src/cancel.rs:74-89 | A waiter returns only once the token is cancelled. |
| CancelToken.RegisteredIsFresh | src/cancel.rs:74-83 | Nobody is ever registered for a broadcast that was over before. |
| CancelToken.EveryWaiterReturns | src/cancel.rs:74-89 | Once the flag is set every run is bounded and brings every waiter back. |
| CancelToken.SecondCheckMatters | src/cancel.rs:80-86 | Without the second check a reachable state has every canceller finished and a waiter parked with nothing enabled to wake it; with it no reachable state does. |
| Outbound.QueueIsBounded | src/client.rs:59-76 | With k client-originated senders and limit L at most L + k - 1 of their messages are queued, none for L = 0; the depth never underflows and equals the queue length when nobody is in between. |
| Outbound.BoundIsReached | src/client.rs:69-76 | For every k and every positive L some run queues exactly that many. |
| Outbound.StepKeeps | src/client.rs:59-76 | Every check, count, push, pop and uncount keeps the depth and the bound. |
| Outbound.OwedIsNeverHeldBack | src/client.rs:59-64 | A response the protocol owes is counted and pushed whatever the limit and the depth. |
| Outbound.CheckedAtTheLimit | src/client.rs:69-76 | Client-originated traffic gets past the check exactly below the limit; refused, it changes nothing. |
| Outbound.QueueIsFifo | src/client.rs:59-64 | While the writer lives the queue is what was pushed, in order, less what was popped from its front. |
| PendingRequests.PendingIsExact | src/client.rs:169-189 | The map holds exactly the calls that are registered and unresolved, each under its own id, and ids never repeat. |
| PendingRequests.ResponseFindsItsCaller | src/client.rs:585-593 | A response fills the slot of the open call that drew its id and changes nothing else. |
| PendingRequests.AnswersStay | src/client.rs:585-593 | A filled slot and an answered call never change again, whatever arrives later. |
| PendingRequests.AnsweredByItsOwnResponse | src/client.rs:122-133 | What an answered call returns arrived under its own id. |
| PendingRequests.OnlyAbandonedCallsLeak | src/client.rs:141-165 | When every call is over, the map is empty exactly when every abandoned call had its response. |
| PendingRequests.AbandonedCallStays | src/client.rs:122-133 | A call dropped while it waits does stay in the map. |
| PendingRequests.EndsForItsOwnReason | src/client.rs:118-165 | A call that ended without an answer failed to serialize or send, timed out, or was dropped, and ended accordingly. |
| PendingRequests.AnswerBeatsTimeout | src/client.rs:141-165 | A waiting call whose response has come never times out. |
| Text.ColumnLands | src/text.rs:111-158 | UTF-16 and UTF-32 columns land on the first boundary at or past the column, UTF-8 columns on the last at or before it. |
| Text.ColumnRoundTrip | src/text.rs:88-106 | Byte to column to byte is the identity on boundaries in all three encodings. |
| Text.PositionLandsOnBoundary | src/text.rs:43-57 | Every position, in range or not, resolves to a character boundary. |
| Text.PositionStaysOnItsLine | src/text.rs:43-57 | A position on a line the text has never leaves that line, whatever its character; past the last line it is the end of the text. |
| Text.PositionMonotone | src/text.rs:43-57 | Offsets grow with positions in line and character order. |
| Text.OffsetRoundTrip | src/text.rs:43-82 | Offset to position to offset is the identity on character boundaries. |
| Text.OffsetsAreFloored | src/text.rs:63-82 | Every other offset counts as the last boundary at or before it, one past the end as the end. |
| Text.ColumnsAreFloored | src/text.rs:88-106 | So does a byte offset within a line. |
| Scalars.ValidIsEncoded | src/text.rs:1-40 | Text is valid exactly when it is the UTF-8 encoding of Unicode scalar values, and of just one sequence of them. |
| Scalars.UnitsCountCodeUnits | src/text.rs:84-158 | Columns count bytes, UTF-16 code units with surrogate pairs, or scalars. |
| TextScan.FloorCharBoundary | src/text.rs:327-335 | The backwards scan finds the largest boundary at or before the index. |
| TextScan.Utf16ColumnToByte | src/text.rs:111-120 | The character scan computes the specified UTF-16 conversion. |
| TextScan.Utf32ColumnToByte | src/text.rs:150-157 | The character scan computes the specified UTF-32 conversion. |
| TextScan.PositionToOffsetWith | src/text.rs:43-57 | The scan over lines computes the specified offset, clamping included. |
| TextScan.OffsetToPositionWith | src/text.rs:63-82 | The scan over characters computes the specified position. |
| LineIndex.TableRows | src/text.rs:260-272 | The byte-scanned table starts at 0, strictly increases, and its k-th entry is the start of line k. |
| LineIndex.IndexAgreesOnOffsets | src/text.rs:287-303 | Position to offset through the index equals the linear scan for every text, position and encoding. |
| LineIndex.IndexAgreesOnPositions | src/text.rs:306-322 | Offset to position through the index equals the linear scan. |
| LineIndex.SearchFindsLine | src/text.rs:306-322 | The row the binary search picks is the line the offset lies on. |
| LineIndex.SameTable | src/text.rs:260-272 | Two texts have the same table exactly when they have the same length and the same line-feed positions. |
| Edits.ApplyEditsWith | src/text.rs:184-222 | Succeeds exactly when no edit is inverted, none starts inside another, and of two that start together the one given first is empty; the result is back-to-front patching in document order, with its exact length and validity, and each error names its reason. |
| Edits.AcceptedExactly | src/text.rs:192-211 | That condition on the edits as given is what sorting by start and input order and comparing neighbours decides, and the sorted order is strict in (start, input order). |
| Edits.AnyOverlap | src/text.rs:206-211 | Checking neighbours decides the disjointness of all pairs. |
| Edits.NeighboursSuffice | src/text.rs:206-211 | For ordered edits, disjoint neighbours make every pair disjoint. |
| Edits.ForwardIsBackToFront | src/text.rs:213-221 | One forward pass writes the same text as patching from back to front. |
| Edits.ForwardValid | src/text.rs:213-221 | The pass cuts only at character boundaries, so the result is valid text. |
| SequentialEdits.BatchIsSequence | src/text.rs:184-222 | For an accepted batch in which no edit touching the next has a position past its offset, the result equals sending the edits one at a time in reverse, each resolved against the edited text. |
| SequentialEdits.BatchIsNotifications | src/documents.rs:143-166 | So does sending each edit as its own change notification with the next version. |
| SequentialEdits.ExactIsStable | src/text.rs:43-82 | Positions that are the positions of their offsets meet that condition. |
| Divergence.StabilityIsExact | src/text.rs:184-222 | The condition is exact: the two agree for all new texts if and only if it holds. |
| Divergence.UnstableDiffers | src/documents.rs:152-161 | Where it fails, new texts of at most two bytes together make the two differ. |
| StablePositions.PositionInPrefix | src/text.rs:43-57 | A position resolves in a beginning of the text to where it does in the text, or to the beginning's end. |
| StablePositions.StaysUnlessPast | src/text.rs:43-57 | Extending a text leaves a position at its end in place unless it lies past that end. |
| StablePositions.PastMoves | src/text.rs:43-57 | And a position past its offset does move once a line feed (past the last line) or a letter (past the line's end) follows. |
| SequentialEdits.ClampedEditsDiffer | src/documents.rs:152-161 | With clamped positions the two can differ. |
| Inserts.InsertsKeepTheirOrder | src/text.rs:192-221 | In every accepted batch the inserts at a position stand together in input order, and the result is the edits before applied to the text before, then the inserted texts, then the edits after applied to the rest. |
| Documents.InOrderNeverPanics | src/documents.rs:152-161 | Changes whose ranges are ordered never panic, whatever text they meet. |
| Documents.StepCoherent | src/documents.rs:143-166 | One operation keeps every cached index coherent except exactly when a change panics halfway with an index cached and the length or a line-feed position changed. |
| Documents.CachesStayCoherent | src/documents.rs:63-68 | Over every run without panics a cached index is absent or belongs to the current text. |
| Documents.PanicLeavesStaleIndex | src/documents.rs:152-163 | The exception happens, and a query through the stale index then differs from the uncached one. |
| Documents.CoherentAnswers | src/documents.rs:250-264 | Through a coherent index, or none, both queries answer as the uncached conversions do. |
| Documents.TextIsFoldOfAcceptedChanges | src/documents.rs:143-166 | While a document stays open its version never decreases and its text is the in-order fold of the accepted changes. |
| Documents.DocumentLife | src/documents.rs:118-166 | Whatever came before, an opened document has the text, version and language it was opened with, then its accepted changes folded over that text and the version of the last of them. |
| Documents.AbsentUntilOpened | src/documents.rs:169-175 | A document is absent until it is opened, and from its close until it is opened again. |
| Documents.WholeTextReplaces | src/documents.rs:148-163 | A change without a range replaces the whole text. |
| Documents.PanicKeepsWhatCameBefore | src/documents.rs:152-163 | A panicking change leaves version, language and index, and a text with exactly the changes before it. |
| Documents.CachedFromLookToChange | src/documents.rs:63-68 | An index is cached exactly from a look until the next accepted change. |
| Documents.LookupIsByNormalForm | src/documents.rs:76-84 | With normalized keys a raw string finds exactly what its normal form would. |
| Documents.SpellingsAgree | src/documents.rs:76-84 | Any two spellings of one URI find the same document. |
| Documents.KeysStayNormal | src/documents.rs:118-175 | Operations on normalized URIs keep every key of the store normalized, over whole runs. |
| Documents.SpellingsAgreeAfterRun | src/documents.rs:76-84 | So after every such run any two spellings of one URI find the same document. |
| Documents.Documents.DidOpen | src/documents.rs:118-131 | Stores the document given, drops the cached index, returns the previous document. |
| Documents.Documents.DidChange | src/documents.rs:143-166 | Patches in place change by change; ignored, applied or panicked exactly as specified. |
| Documents.Documents.DidClose | src/documents.rs:169-175 | Removes the entry and returns its document. |
| Documents.Documents.OffsetAt | src/documents.rs:250-254 | Computes what the entry's cached index, or one built now, gives on the current text, stale index and its panic included, and caches the index. |
| Documents.Documents.PositionAt | src/documents.rs:260-264 | Likewise from offset to position. |
| SemanticTokens.SemanticTokensBuilder.Push | src/lsp/semantic_tokens.rs:273-305 | Adds one token with the type's index and the union of the modifier bits, or reports the first unknown name and adds nothing. |
| SemanticTokens.SemanticTokensBuilder.PushRange | src/lsp/semantic_tokens.rs:323-355 | Adds exactly the pieces of the range line by line; with an unknown name it adds nothing. |
| SemanticTokens.SemanticTokensBuilder.Build | src/lsp/semantic_tokens.rs:359-374 | Five integers a token; decoding them gives back a permutation of the tokens pushed, in lexicographic order of their fields. |
| SemanticTokens.OrderIsLexicographic | src/lsp/semantic_tokens.rs:359-361 | The order sorted by is the lexicographic order of the five fields. |
| SemanticTokens.WriteDeltas | src/lsp/semantic_tokens.rs:361-372 | The loop's running differences never underflow and decode to the sorted tokens. |
| SemanticTokens.DecodeAppend | src/lsp/semantic_tokens.rs:361-372 | Appending one relative token decodes to appending that token. |
| SemanticTokens.MaskBits | src/lsp/semantic_tokens.rs:290-303 | A mask has exactly the bits of the wanted modifiers. |
| SemanticTokens.RangeTokensOrdered | src/lsp/semantic_tokens.rs:323-355 | The pieces come in document order, one to a line, none empty. |
| SemanticTokens.RangeTokensCells | src/lsp/semantic_tokens.rs:323-355 | Every cell a piece covers lies in the range and inside the text. |
| SemanticTokens.RangeTokensCover | src/lsp/semantic_tokens.rs:323-355 | Every cell of the range inside the text is covered. |
| Uri.NormalizeIdempotent | src/lsp/base.rs:167-202 | Normalizing twice is normalizing once. |
| Uri.NormalizeEqual | src/lsp/base.rs:167-202 | Two strings normalize alike exactly when they differ only in letter case within a valid scheme or hex digits after a scanned percent sign. |
| Uri.EarlyReturnAgrees | src/lsp/base.rs:172-182 | The early return is taken only when the rewriting would change nothing. |
| Uri.NormalizeUri | src/lsp/base.rs:167-202 | The in-place rewriting computes the normal form, malformed escapes included. |
| Uri.UpperEscapesEqual | src/lsp/base.rs:187-198 | Upper-casing escapes identifies strings exactly up to the case of scanned escape digits. |
| Uri.SchemeBytesAre | src/lsp/base.rs:157-164 | A scheme's bytes are the letters, the digits, and plus, minus and dot. |
| UriPaths.DecodeInvertsEncode | src/lsp/base.rs:207-248 | Percent-decoding undoes percent-encoding for all bytes. |
| UriPaths.KeptBytesAre | src/lsp/base.rs:207-229 | Exactly the unreserved characters and the slash stay unescaped. |
| UriPaths.EscapesAre | src/lsp/base.rs:207-229 | Every other byte becomes a percent sign and its two upper-case hex digits, the high one first. |
| UriPaths.EscapesAreRead | src/lsp/base.rs:232-248 | An escape in either case is read as its byte. |
| UriPaths.BadEscapeRefuses | src/lsp/base.rs:232-248 | A percent sign without two hex digits refuses the whole. |
| UriPaths.DecodesToTextOnly | src/lsp/base.rs:232-248 | What decodes to bytes that are no UTF-8 is refused. |
| UriPaths.EncodePathChars | src/lsp/base.rs:207-229 | The character loop appends the specified encoding. |
| UriPaths.PercentDecodeLoop | src/lsp/base.rs:232-248 | The byte loop computes the specified decoding or refuses. |
| UriPaths.FilePathRoundTrip | src/lsp/base.rs:51-155 | Every absolute UTF-8 path survives the trip through a `file` URI. |
| UriPaths.LocalFilesAre | src/lsp/base.rs:127-155 | A `file` URI names a path exactly when its authority is empty or `localhost` in any case; a remote one names none. |
| UriPaths.FromFilePathOf | src/lsp/base.rs:51-74 | The buffer-appending code builds the specified URI, and refuses relative paths. |
| UriPaths.JoinOf | src/lsp/base.rs:96-106 | The buffer-appending code builds the specified URI. |
| UriPaths.FromFilePathIsNormal | src/lsp/base.rs:51-74 | What is built without normalizing is normal anyway. |
| UriPaths.ParentInvertsJoin | src/lsp/base.rs:80-108 | `parent` undoes `join` under exactly the stated condition. |
| UriPaths.JoinKeepsNormal | src/lsp/base.rs:96-108 | `join` keeps normal form under exactly the stated condition. |
| UriPaths.JoinCanBreakNormal | src/lsp/base.rs:96-108 | The exception happens. |
| UriPaths.ParentShortens | src/lsp/base.rs:80-94 | A parent is strictly shorter, keeps the path's start, and is missing only at the bare root. |
| UriPaths.AncestorsEndAtRoot | src/lsp/base.rs:80-94 | Iterated parents end at the bare root. |
| UriPaths.PathStartIs | src/lsp/base.rs:110-122 | The path start is the first slash past the scheme and, after two slashes, past the authority. |
| Frames.FrameRoundTrip | src/transport.rs:30-129 | Reading a frame yields its body and leaves exactly what followed. |
| Frames.FrameOnTheWire | src/transport.rs:124-129 | A frame is the Content-Length header with the body's length in decimal, two CRLF, and the body. |
| Frames.CutFrameFails | src/transport.rs:30-102 | A frame cut anywhere inside is an error, with the one exception stated. |
| Frames.ParseInvertsDecimal | src/transport.rs:82-88 | The announced length is parsed back from its decimal digits. |
| Headers.ParsesExactlyNumbers | src/transport.rs:82-88 | A length is exactly the decimal digits of a 64-bit number after any zeros and at most one plus sign. |
| Headers.TrimTakesWhiteSpace | src/transport.rs:81-83 | Trimming takes white space from both ends, nothing else, and leaves none there. |
| Headers.WhiteIsWhiteSpace | src/transport.rs:81-83 | White space is the 25 characters with the Unicode property. |
| Headers.ReadsOneLine | src/transport.rs:62-95 | A line is read whole, ended by a line feed with or without a carriage return. |
| Headers.LastLineIsRead | src/transport.rs:62-71 | A line the stream ends in counts as a line, and then the block lacks its end. |
| Headers.RefusesBadText | src/transport.rs:62-64 | A line that is not UTF-8 fails the block. |
| Headers.ColonIsNeeded | src/transport.rs:81-94 | A line without a colon is malformed. |
| Headers.BlockDecides | src/transport.rs:54-104 | Whatever fields a header block has, in whatever order and case: the first length that is no number, no length, or one past 256 MiB fails it; else the last one is the body's. |
| Transport.FramesDeliver | src/server.rs:397-428 | The frames of any bodies, followed by anything, deliver those bodies in order and then whatever follows. |
| Transport.StreamRoundTrip | src/server.rs:397-428 | And when nothing follows, a clean end. |
| Transport.CutStreamBreaks | src/transport.rs:38-45 | A stream cut inside a frame delivers the earlier bodies and then breaks. |
| Transport.BatchingIsInvisible | src/server.rs:258-291 | However messages are grouped into writes, the bytes are the same. |
| Transport.EncodeMessage | src/transport.rs:124-129 | Appends exactly one frame to the buffer. |
| Transport.Writer.WriteBatch | src/server.rs:258-291 | One turn: drops the counter once per message taken and passes on what the turn passes on; dead exactly after a failure to serialize, write or flush. |
| Transport.TurnPassesOn | src/server.rs:268-290 | A turn passes on the frames of all its messages, the part before a write failed, or nothing when one cannot be serialized. |
| Transport.Writer.Serve | src/server.rs:258-291 | The loop over any turns leaves on the stream the frames of every message of the turns done, in order, and of a failing turn its part. |
| Transport.FailureLeavesPrefix | src/server.rs:258-291 | After any batches a written turn leaves exactly the frames of all messages taken, and a failing one a beginning of them, cut exactly where the write failed. |
| Transport.Reader.ReadHeaderBlock | src/transport.rs:54-101 | The header loop computes the specified verdict and stops where specified. |
| Transport.Reader.ReadMessage | src/transport.rs:30-49 | Reads one frame as specified: a body, a clean end or an error. |
| JsonRpc.RoundTrip | src/jsonrpc.rs:137-242 | Writing and reading a message back yields it in canonical form: nulls become absent and an error displaces the result. |
| JsonRpc.LosesNothingIffPlain | src/jsonrpc.rs:137-242 | The trip loses nothing exactly for messages without explicit nulls or a displaced result, and canonical form is stable. |
| JsonRpc.WrittenMembers | src/jsonrpc.rs:137-182 | A message is written with exactly these members: the version, a request's id, a response's id even if null, params only when present, and exactly one of result and error, a missing result as null. |
| JsonRpc.WrittenError | src/error.rs:44-53 | An error is written as code, message, and data only when present. |
| JsonRpc.ReadableObjects | src/jsonrpc.rs:193-242 | An object is a message exactly when its id, method and error are each missing, null or of the right shape. |
| JsonRpc.ArraysReadInOrder | src/jsonrpc.rs:193-206 | Read from an array, the fields come in the struct's order. |
| JsonRpc.ShortAndLongArrays | src/jsonrpc.rs:193-206 | Fields that end an array early are absent, and longer arrays are refused. |
| JsonRpc.Classification | src/jsonrpc.rs:208-242 | Every JSON value is refused or read as one of the three messages by exactly the stated test on its members, with its id recovered. |
| JsonRpc.ReadIsPlain | src/jsonrpc.rs:193-242 | Nothing read holds an explicit null, and unless it is a response with both members it is plain, so that writing and reading it back changes nothing. |
| JsonRpc.UnknownMembersIgnored | src/jsonrpc.rs:193-206 | Unknown members, such as the version, change nothing. |
| JsonRpc.Serialize | src/jsonrpc.rs:137-191 | The member-by-member serializer writes a value that reads back as the canonical message. |
| JsonRpc.SerializeError | src/error.rs:44-53 | The error object reads back, with a null `data` absent. |
| Wire.WireRoundTrip | src/server.rs:258-428 | When parsing undoes printing on the messages sent, they come out of the reader in order whatever the batches, canonical, and then a clean end. |
| Wire.WriterIsRead | src/server.rs:258-428 | What the writer leaves on the stream for its queue is read back as the queued messages and a clean end. |
| Wire.CutWireBreaks | src/transport.rs:30-102 | A stream cut inside its last frame delivers the messages before it, never part of it, and breaks. |
| Wire.BadBodyHidesNothing | src/server.rs:408-421 | An unparsable body in an intact frame leaves every later message readable. |
| Wire.SomePrinterInverts | src/transport.rs:106-129 | Such a printer and parser exist for any list of messages. |

## Left out

- Real input and output, the scheduler, timers and TCP: they appear only as steps that may happen; the grace period is a step that may come at any time.
- The dispatch tables and `src/service.rs`: a handler is a task that reads the store some finite number of times and ends with any outcome, a value, an error or a panic.
- JSON text: printing and parsing are function parameters, assumed inverse on the messages sent; a number with a fraction is kept as its text; an object is a map, so repeated keys are not modelled.
- The protocol types under `src/lsp/` other than `Uri`, `Position`, `Range` and the token builder.
- `CatchUnwind`'s pinning, panic payload texts, tracing, `ProgressGuard` and the typed client helpers.
- Windows branches of the URI code, `workspace_roots`, and the one-line comparisons on ranges.
- Panics inside the `initialize` and `shutdown` handlers, which unwind the loop itself.
- Fairness: progress is stated as a bound on every run without input and the absence of deadlock; permits may be granted in any order, while the semaphore is first-in, first-out.
- How the writer's failure overrides the loop's result: in the runtime it is one of the causes of the ending, and an answer counts as sent once it is on the output queue.
- RuntimeLoop.Server.ServeNotes: covers the worker once the queue is closed; notifications arriving while it works are the step system's (`RuntimeNotes.AppliedInReceiptOrder`).
- Where a poll stands: an aborted task may take any number of steps before it is dropped, as one whose poll is under way does; the model does not tell it from one already parked at an await, which the runtime would drop at once.
- Debug assertions: the queries through a stale index are those of a release build.
- `RuntimeLoop.Server` covers the critical sections one at a time; interleavings are the step system's.
- Texts of 2^32 - 1 bytes or more, where the casts to 32 bits would wrap, and legends with more than 32 modifiers.
- The standard library's stable sort and binary search are modelled by an insertion sort and a bisection with the same contracts.
- Wrap-around of the 64-bit request ids and of the depth counter after the writer is gone.
