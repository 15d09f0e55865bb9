# Qornix: a verified model of its caches, text processing and concurrent runtime

This project models the self-contained algorithms and protocols of the Qornix web framework and its
retrieval module in Dafny, and proves what each of them promises. `dafny verify dfyconfig.toml` checks
everything.

Objects whose methods update fields are classes, loops are loops, and both are proved against value-level
functions or predicates; the theorems are lemmas about those. Concurrent code is a transition system in
which one step is one lock region or one atomic operation, and its theorems hold after every finite sequence
of steps that can be taken, that is, over every interleaving.

| files | part of the program |
|---|---|
| `LruSpec`, `LruCache` | in-memory response cache: recency list, index and counters |
| `Text`, `CacheEntryCodec`, `RespSpec`, `RespGrammar`, `RespCodec` | number texts, stored cache entries, and the Redis wire format |
| `Tokens`, `Windows`, `Sections`, `Chunker` | document chunker, from lines to overlapping windows |
| `Semaphore`, `BlockingPool`, `SemaphoreProgress`, `PoolProgress` | bounded semaphore and blocking-task pool: safety, and that neither gets stuck |
| `WorkSplit`, `Batch`, `BatchProgress`, `BatchStats` | batch processor: one batch, that it does not get stuck, and the counters over the life of a processor |
| `WordPiece`, `BasicTokenizer`, `Encoder` | tokenizer and fixed-length encoding for embedding models |
| `Tally`, `Tfidf` | term index and BM25 score |
| `ByteScan`, `Utf8`, `Ngrams`, `CjkNgrams` | UTF-8 reader and the n-grams built on it; the scanning loops are proved for any reader and encoding |
| `Csv`, `CsvFields`, `CsvDetection`, `Columns` | CSV reader and delimiter detection; cell coordinates and column types |
| `Claims`, `Dedup` | duplicate finder |
| `AnalyticsSpec`, `Analytics` | search log, its index of counts, and the report of unanswered queries |
| `Options`, `Numbers`, `Slices`, `Subsequences`, `Sorting`, `Flattening`, `FiniteSets`, `Ranks` | small shared definitions |

Time, embeddings, the logarithm, the ask function of a batch and the work of a blocking task are
parameters. The tests that make a line a heading, a symbol or a slide are an arbitrary predicate on lines.

Some promises turned out not to hold on all inputs; the model keeps the code as it is and says exactly when
they hold:

- The eviction loop of the cache ends if and only if the capacity is at least one (`EvictionEndsIff`); with none, evicting
  leaves the cache as it is and the loop's guard true (`LruCache.Evict`).
- A CSV text written with one delimiter and read with the detected one comes back if and only if its first row has
  more separators than it has of any other candidate in plain cells, or no row has a second cell and no candidate
  misleads (`DetectsIff`, `DetectedRoundTripIff`, and `HeadingLosesRows` for an input that is lost); a last row without
  a line end is lost exactly when it is one empty field (`RoundTripOpenEnd`).
- A batch that shows COMPLETED may have been cancelled, and exactly when: if no `cancel` raised the flag between its
  reset and the last look at it, and none stored its status after COMPLETED was stored (`CompletedIffWindow`,
  `CancelledYetCompletedIff`). So a `cancel` is lost if it comes after that look (`LateCancelHappens`), or if the reset
  clears the flag it has raised (`CancelLostInReset`).
- A batch may still show RUNNING when `process` and every `cancel` have returned: if and only if a `cancel` raised the
  flag during the reset and none stored its status after RUNNING was stored (`StatusAtReturn`, `CancelLeavesRunning`).
- The unsigned subtraction in `get_stats` may wrap if the next `process` resets the counters or the results in the
  middle of the call. `ReportsFitIff` says when it cannot, and `MostIsReached` gives the runs in which it does.
- The comment "Keep this one" on a primary's id at `qornix_rag/deduplication_service.h:31` does not always hold:
  `PrimariesKeptIff` gives the condition, for any ids, and `PrimaryCanBeRemoved` and `RepeatedIdCanBeRemoved` two
  different ways in which it fails.
- The UTF-8 reader is faithful exactly on well-formed text (`FaithfulIffWellFormed`).
- The encoding has the configured length exactly when that is not zero (`EncodeForOnnx`), and the entry just
  logged survives exactly under the condition of `NewestIsKeptIff`.

## Model

| member | source | states |
|---|---|---|
| LruSpec.ReachableShape | qornix_rag/llm_cache.cpp:188-252 | after every run of calls keys are distinct, the size counter is the list's length and at most the capacity, and hits plus misses is the number of `get`s |
| LruSpec.OrderIsRecency | qornix_rag/llm_cache.h:142-156 | the list is always in strict order of last use, so what eviction takes from the back is the least recently used key |
| LruSpec.HoldsLatestPut | qornix_rag/llm_cache.cpp:188-244 | whatever the cache holds for a key was stored by the latest `put` of that key, and nothing since removed it or found it expired |
| LruSpec.GetAnswers | qornix_rag/llm_cache.cpp:188-211 | after any run, `get` answers exactly when the key is held and `now - createdAt <= ttl`, and then with the entry held |
| LruSpec.AnswerIsLatestPut | qornix_rag/llm_cache.cpp:188-211 | an answer is what the latest `put` of the key stored, and nothing since removed it or found it expired, that `get` included |
| LruSpec.CountersMean | qornix_rag/llm_cache.cpp:188-244 | over any run hits count the `get`s that met an entry in time, expired those that met one out of time, misses all `get`s but the hits, and evictions the `put`s of a new key into a full cache |
| LruSpec.LeavesOnlyWhenPushedOut | qornix_rag/llm_cache.cpp:213-233 | a stored entry disappears only by removal, expiry, or being pushed out at a moment when as many keys as fit were all used more recently |
| LruSpec.CountersBalance | qornix_rag/llm_cache.cpp:188-252 | every item ever put in is still there or was counted as evicted, expired or removed |
| LruSpec.Inclusion | qornix_rag/llm_cache.cpp:188-252 | for any two capacities and the same calls at the same times the smaller cache's list is a subsequence of the larger one's, with equal entries |
| LruSpec.HitsAreIncluded | qornix_rag/llm_cache.cpp:188-211 | every hit in the smaller cache is the same hit in the larger one, whose hit count is therefore no lower |
| LruCache.MemoryCache.EvictLru | qornix_rag/llm_cache.h:142-151 | removes exactly the last node from list and index, adjusts both counters, and does nothing on an empty list |
| LruCache.MemoryCache.Touch | qornix_rag/llm_cache.h:154-156 | moves one node to the front and keeps the order of the others |
| LruCache.MemoryCache.Get | qornix_rag/llm_cache.cpp:188-211 | list, index and counters change as the value-level step says, and the answer is the indexed entry if its time has not passed, and none otherwise |
| LruCache.MemoryCache.Put | qornix_rag/llm_cache.cpp:213-233 | with a capacity of at least one, overwrites and moves to the front, or evicts until there is room and inserts at the front; the loop ends |
| LruCache.MemoryCache.Invalidate | qornix_rag/llm_cache.cpp:235-244 | removes the key from list, index and size if it is there |
| LruCache.MemoryCache.Clear | qornix_rag/llm_cache.cpp:246-252 | empties the cache and leaves the other counters |
| LruCache.RunCalls | qornix_rag/llm_cache.cpp:183-252 | any sequence of calls on the linked structure ends in the value-level run, so the theorems on runs are about it |
| LruCache.Evict | qornix_rag/llm_cache.cpp:225-227 | that many evictions bring the size down one by one to zero; with capacity zero they change nothing and the guard of the loop stays true |
| LruCache.EvictionEndsIff | qornix_rag/llm_cache.cpp:225-227 | the guard of the eviction loop fails after some number of those evictions if and only if the cache's capacity is at least one |
| Text.StoullReadsDecimal | qornix_rag/llm_cache.cpp:54-94 | a printed unsigned number is read back exactly when it fits 64 bits |
| Text.StollReadsDecimal | qornix_rag/llm_cache.cpp:384-421 | a printed signed number is read back exactly when it fits 64 bits |
| Text.StoullExactly | qornix_rag/llm_cache.cpp:54-94 | on any text: white space, a sign and digits in front are read, what follows is ignored, a minus sign takes the value modulo 2^64, and no other text is a number |
| Text.StollExactly | qornix_rag/llm_cache.cpp:384-421 | on any text: white space, a sign and digits in front are read if the value fits 64 bits, and no other text is a number |
| Text.DecimalOfValue | qornix_rag/llm_cache.cpp:45-52 | numbers are printed without needless zeros: every such digit text is what its value prints as |
| CacheEntryCodec.RoundTrip | qornix_rag/llm_cache.cpp:45-94 | a stored entry comes back with the same answer, newlines included, and the same token count |
| CacheEntryCodec.DeserializeExactly | qornix_rag/llm_cache.cpp:54-94 | exactly which texts are accepted, and the one entry that each of them means |
| CacheEntryCodec.ExtensionRejected | qornix_rag/llm_cache.cpp:54-94 | a stored entry with anything added behind it is rejected |
| CacheEntryCodec.PrefixRejected | qornix_rag/llm_cache.cpp:54-94 | a stored entry cut short anywhere is rejected |
| RespSpec.LineRoundTrip | qornix_rag/llm_cache.cpp:144-166 | exactly the texts without CRLF are read back as lines |
| RespSpec.RoundTrip | qornix_rag/llm_cache.cpp:359-439 | the reader takes any printed value, nested arrays and embedded CRLF included, off the front of any input and leaves the rest |
| RespGrammar.ReadsExactly | qornix_rag/llm_cache.cpp:359-439 | on any input a value is read exactly when the input begins with one of its forms in the grammar, and what is left is what follows; unknown markers, lines that are no number and bodies without CRLF are refused |
| RespGrammar.RoundTripIff | qornix_rag/llm_cache.cpp:359-439 | a printed value is read back exactly if its lines hold no CRLF and its numbers and lengths fit 64 bits, and no other value can be read off any input |
| RespGrammar.CommandRoundTripIff | qornix_rag/llm_cache.cpp:168-175 | a command is read as its parts exactly if 64 bits can count them and their lengths |
| RespSpec.ReadGrows | qornix_rag/llm_cache.cpp:359-439 | on any input at all, bytes that arrive later never change a value that is already complete |
| RespSpec.SelfDelimiting | qornix_rag/llm_cache.cpp:359-439 | no complete message is a proper prefix of another |
| RespSpec.CommandRoundTrip | qornix_rag/llm_cache.cpp:168-175 | reading a built command yields its parts, whatever bytes they hold and whatever follows |
| RespSpec.CommandsUnambiguous | qornix_rag/llm_cache.cpp:168-175 | different commands never look the same on the wire, even with more bytes behind them |
| RespCodec.Stream.RecvExact | qornix_rag/llm_cache.cpp:122-142 | however `recv` cuts the stream, takes exactly the bytes asked for, or fails when the stream is too short |
| RespCodec.Stream.RecvLine | qornix_rag/llm_cache.cpp:144-166 | takes the text up to the first CRLF and leaves what is behind it, or fails when there is none |
| RespCodec.Stream.ReadValue | qornix_rag/llm_cache.cpp:359-439 | the recursive reader over a stream ends and refines the reader on values: same result, same bytes left |
| RespCodec.BuildRespCommand | qornix_rag/llm_cache.cpp:168-175 | builds the array of bulk strings that the protocol's printer gives for the parts |
| RespCodec.SendAndRead | qornix_rag/llm_cache.cpp:122-175 | a command sent over a stream is read as its parts, and exactly its bytes are consumed |
| Tokens.TokenSpans | qornix_rag/document_chunker.cpp:617-634 | finds exactly the maximal runs of characters that are not white space, in order |
| Tokens.TrimCopy | qornix_rag/document_chunker.cpp:19-29 | removes exactly the white space at both ends, and changes nothing that begins and ends with text |
| Tokens.StretchTokens | qornix_rag/document_chunker.cpp:538-557 | the tokens of the text from one token to another are exactly the tokens between them |
| Windows.Clamped | qornix_rag/document_chunker.cpp:155-166 | the maximum is the least of the configured one, 220 for zero, and the tokenizer's limit if set; the overlap is the configured one if it is below the configured maximum, and otherwise a fifth of that, rounded down |
| Windows.EffectiveMaxTokens | qornix_rag/document_chunker.cpp:636-647 | the budget is the least of the maximum and the limits that are set |
| Windows.WindowLaws | qornix_rag/document_chunker.cpp:525-608 | for any overlap below the budget the windows cover every token, none exceeds the budget, all but the last are full, and neighbours share exactly the overlap |
| Windows.WindowsAdvance | qornix_rag/document_chunker.cpp:528-607 | each window begins and ends after the one before it |
| Sections.SplitSections | qornix_rag/document_chunker.cpp:202-253 | for any heading test: the sections lie end to end at their offsets, leave out only white space at the end, cut no token, begin exactly at heading lines, and carry the label of the last heading |
| Chunker.ChunkSection | qornix_rag/document_chunker.cpp:532-608 | one chunk for each window of a section, and the loop ends |
| Chunker.ChunkSections | qornix_rag/document_chunker.cpp:522-615 | over all sections: each chunk is the stretch of the document its offsets name, in order, within the budget, and every token of the document lies in some chunk |
| Chunker.ChunkDocument | qornix_rag/document_chunker.cpp:168-200 | from a document to its chunks, with any settings, limits and line test: the budget is the least of the settings and limits given, nothing is lost, offsets point at the original text, and the chunks are those of the windows of its sections with the overlap that the settings give |
| Chunker.SectionContributes | qornix_rag/document_chunker.cpp:532-608 | the windows of one section put all its tokens into chunks that lie within the section |
| Semaphore.State.TryAcquire | include/async_runtime.h:259-266 | takes a permit exactly when fewer than the maximum are active |
| Semaphore.State.Release | include/async_runtime.h:221-226 | gives one permit back, and never goes below zero |
| Semaphore.AlwaysSafe | include/async_runtime.h:210-302 | over every interleaving the active count is the number of live permits, the waiter count is the number of tasks inside the guarded wait, and both keep their limits |
| Semaphore.GuardsNeverBite | include/async_runtime.h:221-286 | the tests for a positive count before each decrement never fail |
| Semaphore.RefusedIffFull | include/async_runtime.h:259-278 | a try is refused exactly when all permits are live, and a task is turned away exactly when the waiting places are taken |
| Semaphore.StepsByPermits | include/async_runtime.h:210-302 | in every run each step can be told without the counters: which permits are out and where each call stands after it follows from those that were out and the calls that waited |
| Semaphore.EndsInOneOfThreeWays | include/async_runtime.h:230-302 | a call that no longer waits was given a permit by one of its tries, gave up, or was turned away while all waiting places were taken |
| Semaphore.CallersAreFree | include/async_runtime.h:210-302 | at any time a call may begin, an empty permit object may try, a permit may be passed on, and a waiting call may give up, which leaves the permits alone |
| Semaphore.NothingLeaks | include/async_runtime.h:230-302 | once all calls are over and all permits are gone both counts are zero |
| SemaphoreProgress.CanAlwaysFinish | include/async_runtime.h:210-302 | with at least one permit, from every reachable state some continuation in which nobody gives up ends all calls and leaves both counts at zero; in it each call before its first try or in the wait is given a permit by one of its own tries, and each refused one too if there are waiting places |
| BlockingPool.Pool.Submit | include/async_runtime.h:340-350 | accepts exactly below the limit and publishes both gauges, or counts a rejection |
| BlockingPool.Pool.Start | include/async_runtime.h:354-361 | moves one task from queued to active and publishes both gauges |
| BlockingPool.Pool.Settle | include/async_runtime.h:373-379 | takes one task from active and publishes both gauges |
| BlockingPool.RunRegions | include/async_runtime.h:332-379 | any sequence of calls on the object ends in the counts of those lock regions one after another |
| BlockingPool.RegionsAreCalls | include/async_runtime.h:332-379 | however other steps come between the stores of a lock region, the counts are those of the methods called one after another in the order of locking, up to the stores still to be done |
| BlockingPool.AlwaysSafe | include/async_runtime.h:332-415 | over every interleaving: queued is the number of accepted tasks not yet started and within its limit, active is the number of running tasks and at most the number of threads, the gauges agree whenever the lock is free, `done` implies a stored value or error, and an answer is the task's own |
| BlockingPool.GuardsNeverBite | include/async_runtime.h:354-379 | the tests for a positive count before each decrement never fail |
| BlockingPool.StartsOnce | include/async_runtime.h:353-381 | each task is started at most once, and exactly once if it got past its start, whatever became of its awaiter |
| BlockingPool.OutcomeIsComputed | include/async_runtime.h:363-371 | a stored outcome is what that task's function returned or threw |
| BlockingPool.AnsweredOnce | include/async_runtime.h:383-402 | an awaiter that gets an answer gets the outcome of its own task's one run, when the task is counted nowhere any more |
| BlockingPool.LookAnswers | include/async_runtime.h:386-402 | a look at `done` gives the outcome stored if the task is over, and nothing before |
| BlockingPool.TimedOutGaveUp | include/async_runtime.h:386-392 | no awaiter ends with a time-out but by timing out |
| BlockingPool.CallersAreFree | include/async_runtime.h:332-392 | a task may be submitted whenever the lock is free, and a caller that has not seen its task done may time out, which leaves the task alone |
| BlockingPool.LockHoldsOwner | include/async_runtime.h:340-383 | while the lock is held its owner does nothing but its stores, nobody enters another lock region, and every other thread goes on |
| BlockingPool.TurnedAwayIffFull | include/async_runtime.h:340-347 | a submission is rejected exactly when the queue limit is reached |
| BlockingPool.NothingLeaks | include/async_runtime.h:340-415 | once all tasks are over both counts and both gauges are zero |
| PoolProgress.CanAlwaysFinish | include/async_runtime.h:332-415 | with at least one thread, from every reachable state some continuation without a time-out ends every task, gives everyone who had not timed out the outcome of the task, and leaves counts and gauges at zero |
| WorkSplit.SplitWork | qornix_rag/batch_processor.cpp:110-132 | the threads' ranges follow one another without gap or overlap over all questions, none is empty, and there are as many as allowed or needed |
| WorkSplit.Covered | qornix_rag/batch_processor.cpp:118-132 | every question is in some thread's range |
| WorkSplit.Disjoint | qornix_rag/batch_processor.cpp:118-132 | no question is in two ranges |
| WorkSplit.SharesAreEven | qornix_rag/batch_processor.cpp:118-132 | any two ranges differ in size by at most one |
| Batch.AlwaysSafe | qornix_rag/batch_processor.cpp:25-81 | over every interleaving with `cancel`, stop on error and readers: each worker's progress agrees with its questions, and slots, counters and status agree with what has happened |
| Batch.AttemptedAtMostOnce | qornix_rag/batch_processor.cpp:32-80 | each question is asked at most once, and exactly once if it was begun |
| Batch.FlagStopsAsking | qornix_rag/batch_processor.cpp:32-40 | once the flag is set nothing is asked any more but the questions for which a thread had already looked at it twice |
| Batch.FailureStops | qornix_rag/batch_processor.cpp:66-72 | with stop on error a counted failure has set the flag by the time the threads are joined, the main thread sees it, and the status is FAILED unless a `cancel` stored another |
| Batch.NothingAskedBehindFailure | qornix_rag/batch_processor.cpp:66-72 | with stop on error no question behind a failed one is asked by the same thread |
| BatchProgress.CanAlwaysFinish | qornix_rag/batch_processor.cpp:25-152 | from every reachable state of a batch some continuation with its own steps alone ends it |
| Batch.CountersStayInBounds | qornix_rag/batch_processor.cpp:170-181 | completed plus failed never exceeds the number of questions, nor do the counts of any `get_stats` within one batch, however its loads are spread, so its subtraction does not wrap |
| Batch.ReportAddsUp | qornix_rag/batch_processor.cpp:170-181 | if the status was CANCELLED when `get_stats` loaded it, its three numbers add up to the number of questions, and otherwise none are reported as cancelled |
| Batch.UndisturbedReport | qornix_rag/batch_processor.cpp:170-181 | a `get_stats` that nothing disturbs can be made at any time and reports the counters as they are |
| Batch.CancelAnyTime | qornix_rag/batch_processor.cpp:157-160 | a whole `cancel` can be made at any time and leaves flag and status set |
| Batch.SawCompletedAt | qornix_rag/batch_processor.cpp:173 | the completed count of any `get_stats` is the counter at the moment of its load |
| Batch.SawFailedAt | qornix_rag/batch_processor.cpp:174 | the failed count of any `get_stats` is the counter at the moment of its load |
| BatchStats.AlwaysLifeSafe | qornix_rag/batch_processor.cpp:95-181 | over batch after batch, with the reset store by store and any `cancel` and `get_stats` calls across it, the counters fit the current size of the results and what each call has loaded fits the sizes at the time |
| BatchStats.ResetIsClean | qornix_rag/batch_processor.cpp:95-100 | both counters are zero when a batch begins, whatever overlaps the reset |
| BatchStats.BatchInLife | qornix_rag/batch_processor.cpp:87-152 | each batch of a processor's life goes through a run of `Batch` from its own setup, so every theorem on runs holds of it |
| BatchStats.OneCallAtATime | qornix_rag/batch_processor.cpp:87-152 | all calls of `process` that have begun have returned but the one under way, and the next may begin exactly when there is none |
| BatchStats.UncancelledBatchRunsEverything | qornix_rag/batch_processor.cpp:87-152 | whatever came before, a batch that nobody cancels from the reset of the flag on, and that no failure is to stop, asks every question exactly once |
| BatchStats.ReportsFit | qornix_rag/batch_processor.cpp:170-181 | a report is in bounds if the sizes of the results when its two counts were loaded come to no more than the total it loaded, so always if no reset came between its loads |
| BatchStats.ReportAddsUp | qornix_rag/batch_processor.cpp:176-178 | over a whole life: the three numbers of a report add up to the total it loaded if the status is CANCELLED at its last load, and otherwise none are reported as cancelled |
| BatchStats.UndisturbedReport | qornix_rag/batch_processor.cpp:170-181 | a call that nothing disturbs can be made at any time, the reset included, and reports the size of the results and the counters as they are |
| BatchStats.MostIsReached | qornix_rag/batch_processor.cpp:95-181 | for any batches of any sizes there is a run in which the counts reach their most and the report shows the difference, negative where they exceed the total |
| BatchStats.ReportsFitIff | qornix_rag/batch_processor.cpp:170-181 | exactly when a report is never negative, by the sizes of the results, the moment when they are empty included, at its three loads; when the total and the first count were loaded together, exactly if the second was too or came while the results were empty |
| BatchStats.CancelLostInReset | qornix_rag/batch_processor.cpp:95-160 | a run, for any number of questions, in which the reset clears the flag of a `cancel`, its status store comes in the batch, and the batch still asks everything and shows COMPLETED |
| BatchStats.CancelLeavesRunning | qornix_rag/batch_processor.cpp:95-160 | a run in which a whole `cancel` between two stores of the reset leaves RUNNING after both calls have returned |
| Batch.SlotsAreOwn | qornix_rag/batch_processor.cpp:45-64 | a filled slot holds the result of its own question, and a counted question has a filled slot |
| Batch.FlagHasCause | qornix_rag/batch_processor.cpp:66-72 | the flag is set only by a `cancel` or by a counted failure in a batch that stops on errors |
| Batch.UnstoppedRunsEverything | qornix_rag/batch_processor.cpp:134-150 | without any `cancel`, and without a failure that stops the batch, every question is asked exactly once, its result is in its own slot, and the counters add up |
| Batch.UncancelledRunsEverything | qornix_rag/batch_processor.cpp:134-150 | if the flag is unset after joining, every question was asked exactly once, its result is in its own slot, and the counters add up to the number of questions |
| Batch.StatusMeans | qornix_rag/batch_processor.cpp:68-72 | COMPLETED appears only after the flag was seen unset, FAILED only with stop on error and a counted failure |
| Batch.CompletedIff | qornix_rag/batch_processor.cpp:141-160 | the status is COMPLETED exactly when the last status store was the main thread's |
| Batch.LookedBeforeCancel | qornix_rag/batch_processor.cpp:142 | if the main thread found the flag unset, it looked before any `cancel` had raised it |
| Batch.CompletedIffWindow | qornix_rag/batch_processor.cpp:141-160 | the status is COMPLETED exactly when the flag was looked at before any `cancel` raised it and the last status store is a later one of the main thread |
| Batch.CancelledYetCompletedIff | qornix_rag/batch_processor.cpp:141-160 | a batch in which a `cancel` made either of its stores shows COMPLETED exactly when it raised the flag after that look, or its flag was cleared by the reset, and every status that a `cancel` stored was stored before COMPLETED |
| Batch.CancelInTimeCounts | qornix_rag/batch_processor.cpp:141-160 | a `cancel` that raises the flag in the batch, that is after the reset, and before the look, or that stores its status after the main thread, is never lost |
| Batch.FlagAtStartIdles | qornix_rag/batch_processor.cpp:32-33 | a flag raised during the reset keeps every question from being asked |
| Batch.StatusAtReturn | qornix_rag/batch_processor.cpp:141-160 | once all calls have returned the status is COMPLETED or CANCELLED if the flag was seen unset and never COMPLETED otherwise, and it is RUNNING exactly when the flag was raised during the reset and no `cancel` stored a status after RUNNING was stored |
| Batch.LateCancelIsOverwritten | qornix_rag/batch_processor.cpp:142-160 | a whole `cancel` between the last look at the flag and the last store leaves COMPLETED, from every reachable state at that point |
| Batch.LateCancelHappens | qornix_rag/batch_processor.cpp:141-160 | such a run exists from the start |
| WordPiece.WordpieceTokensFor | qornix_rag/core.h:2299-2332 | the nested loops end and give the pieces of greedy matching, or the token itself where it gets stuck |
| WordPiece.LongestPiece | qornix_rag/core.h:2310-2324 | the inner loop finds the end of the longest entry at a position, or that there is none |
| WordPiece.PiecesAreCorrect | qornix_rag/core.h:2307-2331 | without fallback every piece is in the vocabulary and the longest at its position, and the pieces without their marks are the token |
| WordPiece.FallbackIff | qornix_rag/core.h:2325-2327 | the fallback is taken exactly when greedy matching comes to a position where nothing fits, and not taken exactly when it can come to the end |
| WordPiece.CutIsForced | qornix_rag/core.h:2307-2331 | greedy matching has only one way to go on from any position it can reach |
| WordPiece.FallbackShows | qornix_rag/core.h:2299-2332 | whether the fallback was taken can be read off the result |
| BasicTokenizer.BasicTokenize | qornix_rag/core.h:2254-2281 | the scanning loop gives the tokens that the next two rows characterize |
| BasicTokenizer.WordIsOneToken | qornix_rag/core.h:2266-2272 | a run of word characters is one token, folded if so configured |
| BasicTokenizer.SeparatorSeparates | qornix_rag/core.h:2272-2277 | any other character separates: both sides are tokenized alone, and it is a token itself unless it is white space |
| BasicTokenizer.WordCharsAre | qornix_rag/core.h:2266-2268 | the characters of words, one by one |
| BasicTokenizer.FoldedIffSame | qornix_rag/core.h:2266-2272 | folding makes exactly the texts equal that differ only in capitals, and leaves no capital |
| Encoder.PiecesHaveOwnIds | qornix_rag/core.h:2283-2297 | a piece of a token without fallback gets its own vocabulary id, not that of another spelling |
| Encoder.FirstKnown | qornix_rag/core.h:2290-2296 | there is an id exactly when some spelling is in the vocabulary, and an exact match wins |
| Encoder.LookupExactly | qornix_rag/core.h:2283-2297 | the id of a piece is that of the first known spelling: as it stands behind each mark in turn, then in small letters; an empty piece has none |
| Encoder.IdsInPlace | qornix_rag/core.h:2341-2363 | the ids of a text are those of the pieces that greedy matching cuts from its tokens, or of the tokens themselves, each in its place, and only the very first piece is looked up as the start of a word |
| Encoder.KnownPiecesInText | qornix_rag/core.h:2341-2363 | so each piece of a token that matching does not get stuck on has its own vocabulary id at its place in the text |
| Encoder.ContentTokenIds | qornix_rag/core.h:2341-2363 | with any limit the ids are the first ones of the unlimited tokenization |
| Encoder.EncodeForOnnx | qornix_rag/core.h:2378-2407 | the ids are CLS, as many content ids as fit, SEP and padding, the mask is one exactly before the padding, and both have the configured length exactly when it is not zero |
| Tfidf.TfidfVectorizer.IndexDocument | qornix_rag/core.h:764-791 | updates frequencies, total and document count as the value-level step says, in whatever order the words of the document are visited |
| Tfidf.FrequenciesAgree | qornix_rag/core.h:764-791 | the document frequency of a word is the number of documents that contain it, its term frequency is its weight in all of them, and no other word is listed |
| Tfidf.FrequenciesAddUp | qornix_rag/core.h:773-788 | the term frequencies add up to the total |
| Tfidf.OrderDoesNotMatter | qornix_rag/core.h:764-791 | the same documents in any order give the same index |
| Tfidf.IndexIsSound | qornix_rag/core.h:785-827 | every listed word is in at least one and at most all documents, and then the total is positive, so no division is by zero |
| Tfidf.TfidfVectorizer.ComputeBm25Score | qornix_rag/core.h:793-836 | the score is never negative, and positive exactly when some query word occurs both in an indexed document and in the scored one |
| Tfidf.SaturationGrows | qornix_rag/core.h:809-830 | a word counts for more the more often it occurs, but never for as much as `k1 + 1` |
| Tfidf.SaturationFalls | qornix_rag/core.h:812-830 | a word counts for less in a longer document |
| Tfidf.AverageNorm | qornix_rag/core.h:812-830 | in a document of average length the length has no effect: the denominator is the term frequency plus `k1` |
| Tfidf.IdfFalls | qornix_rag/core.h:826-827 | for an increasing logarithm a word counts for less the more documents contain it |
| Tfidf.ScoreSign | qornix_rag/core.h:818-833 | each query word adds a positive amount if it counts and nothing otherwise |
| Tfidf.WordScoreMeans | qornix_rag/core.h:818-833 | what a scoring word adds is the logarithm of (documents + 1) / (documents with it + 0.5) times the saturation of its weight in the document |
| Tfidf.WordScoreOrder | qornix_rag/core.h:818-833 | a query word adds more the more often it occurs, the shorter the document is and the fewer documents contain it |
| Tfidf.ScoreAddsUp | qornix_rag/core.h:818-836 | query words score independently: queries put together add up |
| Tfidf.NormEnds | qornix_rag/core.h:812-830 | the length's effect at three lengths, which determine `k1` and `b`; a word that occurs once in a document of average length counts as one |
| Utf8.NextCodepoint | qornix_rag/core.h:475-503 | the reader stops exactly at the end of the text, and otherwise takes between one and four bytes and stays within it |
| Utf8.FaithfulIffUnit | qornix_rag/core.h:475-503 | one reading gives a scalar value whose encoding is the bytes read exactly when those bytes are a character by section 4 of RFC 3629 |
| Utf8.ReadsEncoding | qornix_rag/core.h:480-495 | the encoding of any scalar value (section 3 of RFC 3629) is read back, whatever follows |
| Utf8.ReadsAny | qornix_rag/core.h:475-503 | on any bytes: as many are read as the leading byte asks for, or it alone and as itself if there are too few; of each later byte the low six bits count |
| Utf8.ReadsAllBack | qornix_rag/core.h:475-532 | reading the encoding of any sequence of scalar values gives exactly those values |
| Utf8.FaithfulIffWellFormed | qornix_rag/core.h:475-532 | the code points read encode the text exactly when the text is well-formed UTF-8 |
| Utf8.Utf8Fits | qornix_rag/core.h:475-503 | the reader and the encoding meet what the theorems on scanning ask of them, on every text |
| Utf8.MalformedSwallows | qornix_rag/core.h:482-484 | an example of malformed text in which a letter is taken into the reading before it |
| ByteScan.PiecesJoin | qornix_rag/core.h:500-532 | on every byte string the pieces put together are the input |
| ByteScan.DecodesEncoding | qornix_rag/core.h:529-538 | scanning what an encoding wrote gives back what was encoded, for any reader that reads one character back |
| ByteScan.FaithfulIffWellFormed | qornix_rag/core.h:529-538 | scanning is faithful exactly on well-formed text, for any reader that is faithful exactly on characters |
| CjkNgrams.ExtractCjkNgrams | qornix_rag/core.h:513-543 | in ascending order and each once, the windows of the given length in maximal runs of such characters, and the single characters of shorter runs |
| CjkNgrams.ListIsUnique | qornix_rag/core.h:540-542 | that determines the list: the order of byte strings is a strict total order |
| CjkNgrams.TermsAreInText | qornix_rag/core.h:516-538 | every term is a stretch of the text, well-formed or not |
| CjkNgrams.BlockEdges | qornix_rag/core.h:505-511 | the first and last code points of the five blocks, and their neighbours |
| CjkNgrams.ThreeBytesEach | qornix_rag/core.h:505-511 | every such character takes three bytes |
| Ngrams.ExtractNgrams | qornix_rag/core.h:529-543 | the loop over the text finds exactly the terms of the maximal runs and lists them in order, for any reader, any choice of characters and any strict total order |
| Ngrams.Flush | qornix_rag/core.h:516-528 | adds exactly the terms of the run just ended |
| Ngrams.RunEnds | qornix_rag/core.h:516-539 | when a run ends it is the only one that ends after its start |
| Csv.ParseCsvRows | qornix_rag/ingestion_pipeline.cpp:949-994 | the loop computes the parse that the round trips below are about |
| Csv.RoundTrip | qornix_rag/ingestion_pipeline.cpp:949-994 | rows of arbitrary text in any mix of quoted and plain fields and of CRLF and LF ends (section 2 of RFC 4180) are read back, for every delimiter |
| Csv.RoundTripOpenEnd | qornix_rag/ingestion_pipeline.cpp:989-992 | the last row may lack its end, and is then lost exactly when it is one empty field |
| CsvFields.ParsesExactly | qornix_rag/ingestion_pipeline.cpp:949-994 | on any text, well-formed or not: a field ends at the first delimiter, CR or LF with an even number of quotes before it, CRLF is one row end, and each field is freed of its quotes on its own |
| CsvFields.UnquotedParts | qornix_rag/ingestion_pipeline.cpp:962-976 | what stands outside quotes stays, doubled quotes between quotes are one, and the last quotes may lack their end |
| CsvDetection.DetectCsvDelimiter | qornix_rag/ingestion_pipeline.cpp:916-947 | finds the first of the candidates that are most frequent outside quotes in the first row |
| CsvDetection.DetectedUnique | qornix_rag/ingestion_pipeline.cpp:937-946 | that determines the delimiter |
| CsvDetection.HeaderParts | qornix_rag/ingestion_pipeline.cpp:921-935 | on any text the header is what stands outside quotes up to the first CR or LF outside quotes |
| CsvDetection.DetectsIff | qornix_rag/ingestion_pipeline.cpp:916-947 | for rows in any mix of quoted and plain cells: the delimiter they were written with is found exactly when the separators of the first row outnumber every other candidate in its plain cells, strictly those tried before it |
| CsvDetection.WrongDelimiterIff | qornix_rag/ingestion_pipeline.cpp:949-994 | read with another delimiter rows come back exactly when each is one cell that does not show that delimiter |
| CsvDetection.WrongDelimiter | qornix_rag/ingestion_pipeline.cpp:949-994 | read with another delimiter every quoted row comes back as one field |
| CsvDetection.DetectedRoundTripIff | qornix_rag/ingestion_pipeline.cpp:916-994 | detection followed by reading gives rows of quoted and plain cells back exactly when the delimiter is found as above, or no row has a second cell and neither any candidate shows in the first row nor a comma in any |
| CsvDetection.DetectedOpenIff | qornix_rag/ingestion_pipeline.cpp:916-994 | the same when the last row lacks its line end: exactly when that condition holds of all rows and the last is not one empty field |
| CsvDetection.QuotedRoundTripIff | qornix_rag/ingestion_pipeline.cpp:916-994 | for fully quoted rows: exactly when the delimiter is a comma, or the first row has two fields or more, or no row has |
| CsvDetection.HeadingLosesRows | qornix_rag/ingestion_pipeline.cpp:916-994 | an input that does not come back: a heading alone in the first row and two fields in the second, written with a semicolon |
| Columns.ColumnNameFromIndex | qornix_rag/ingestion_pipeline.cpp:528-537 | the loop ends and gives the column's name |
| Columns.NameRoundTrip | qornix_rag/ingestion_pipeline.cpp:528-537 | every column number is read back from its name, so names are distinct |
| Columns.NumberRoundTrip | qornix_rag/ingestion_pipeline.cpp:528-537 | every word of capital letters is the name of some column |
| Columns.CoordinatesDiffer | qornix_rag/ingestion_pipeline.cpp:539-541 | a coordinate names one cell only |
| Columns.CoordinateReads | qornix_rag/ingestion_pipeline.cpp:539-541 | the letters of a coordinate are the column and its digits the row, both counted from one |
| Columns.ColumnType | qornix_rag/ingestion_pipeline.cpp:1064-1075 | merging cell by cell gives the least type that every cell of the column fits in |
| Columns.MergedIsLeast | qornix_rag/ingestion_pipeline.cpp:511-526 | merging one more kind gives the least type for all cells so far |
| Columns.TypeIgnoresOrder | qornix_rag/ingestion_pipeline.cpp:511-526 | a column's type depends only on which kinds occur in it, not on their order or number |
| Dedup.FindDuplicates | qornix_rag/deduplication_service.cpp:92-151 | the nested marking loops report exactly the links to first claimants, in their order |
| Dedup.LinksMean | qornix_rag/deduplication_service.cpp:115-148 | a pair is reported exactly when some earlier eligible pair is similar, once, under the earliest of them, and the report is ordered |
| Dedup.UnmarkedAreDistinct | qornix_rag/deduplication_service.cpp:115-148 | a pair whose id the result does not name as a duplicate reaches the threshold with no earlier eligible pair of another id, so removing what is named leaves no two similar ones |
| Dedup.LinkedToUnmarked | qornix_rag/deduplication_service.cpp:115-148 | from every pair a chain of reported links leads to one that is not reported, and whose id is named as a duplicate exactly if it shares it with another pair that some earlier pair can claim |
| Dedup.PrimariesKeptIff | qornix_rag/deduplication_service.h:30-35 | no id named as a primary is also named as a duplicate exactly when any pair that can be claimed by one with a claimable id can also be claimed by an earlier pair |
| Dedup.ReachesBackByPlace | qornix_rag/deduplication_service.cpp:115-148 | when no id is repeated, that condition is about three pairs of which each can claim the next |
| Dedup.PrimaryCanBeRemoved | qornix_rag/deduplication_service.h:30-35 | three embeddings for which, with the cosine and the default threshold, an id is both a primary to keep and a duplicate to remove |
| Dedup.RepeatedIdCanBeRemoved | qornix_rag/deduplication_service.h:30-35 | four pairs, two with one id, for which no pair is both and yet that id is |
| Dedup.CosineUnique | qornix_rag/deduplication_service.cpp:17-40 | the conditions put on the cosine determine it: zero for vectors of different lengths, of no length or of norm zero, and otherwise the dot product over the product of the norms |
| Dedup.IsDuplicate | qornix_rag/deduplication_service.cpp:153-193 | a new pair is reported exactly when some eligible existing pair reaches the threshold, and then under the first of them and with the similarity to it |
| Dedup.NewPairAgrees | qornix_rag/deduplication_service.cpp:92-193 | asking about one new pair and scanning the collection with it at the end agree, for a positive threshold, an eligible category and a new id |
| Dedup.NewPairAgreesWithCosine | qornix_rag/deduplication_service.cpp:17-40 | in particular with the program's cosine, which is symmetric and zero for an empty vector |
| AnalyticsSpec.CountsAreHistogram | qornix_rag/analytics_service.cpp:29-41 | after any calls the counts are exactly the histogram of the log |
| AnalyticsSpec.CountsMean | qornix_rag/analytics_service.cpp:313-324 | each count is the number of entries with that query, nothing else is listed, and the counts add up to the log's length |
| AnalyticsSpec.LogKeepsOrder | qornix_rag/analytics_service.cpp:29-234 | the log is always a subsequence of everything logged |
| AnalyticsSpec.LogStaysBounded | qornix_rag/analytics_service.cpp:35-40 | right after logging the log is within its limit and is the end of what there was: all of it if there was room, and otherwise half as many entries as allowed |
| AnalyticsSpec.NewestIsKeptIff | qornix_rag/analytics_service.cpp:35-40 | the entry just logged survives exactly when there was room or the limit is at least two |
| AnalyticsSpec.SinceMeans | qornix_rag/analytics_service.cpp:215-225 | pruning keeps exactly the entries not older than the cutoff |
| AnalyticsSpec.EachCallMeans | qornix_rag/analytics_service.cpp:29-234 | in every run: logging adds the entry and, if the log was full, leaves the newest half of the limit; pruning takes out exactly what is too old, in order; setting the limit leaves the log alone |
| AnalyticsSpec.LimitIsLast | qornix_rag/analytics_service.cpp:35-40 | the limit in force is the one set last |
| Analytics.AnalyticsService.LogSearch | qornix_rag/analytics_service.cpp:29-41 | log and counts change together as the value-level step says |
| Analytics.AnalyticsService.PruneLog | qornix_rag/analytics_service.cpp:215-234 | drops the old entries and rebuilds the counts |
| Analytics.AnalyticsService.PruneQueryCounts | qornix_rag/analytics_service.cpp:317-324 | the rebuilt counts are the histogram of the log |
| Analytics.AnalyticsService.ExtractMissingQueries | qornix_rag/analytics_service.cpp:326-357 | one entry for each query without an answer, with its number and last time, most frequent first, and the numbers add up to the unanswered entries |
| Analytics.LastTimeMeans | qornix_rag/analytics_service.cpp:336-338 | the last time is the latest one unless all are before the epoch, and then it is the epoch |
| Analytics.RunCalls | qornix_rag/analytics_service.cpp:29-234 | any sequence of calls on the object ends in the value-level run |

## Left out

- LruCache.MemoryCache.Put: requires a capacity of at least one, because with capacity zero the loop at `qornix_rag/llm_cache.cpp:225` never ends, as `Evict` and `EvictionEndsIff` state; and does not model that an allocation may fail between the list and the index update.
- WorkSplit.SplitWork: requires `max_concurrent` of at least one, because with zero the division at `qornix_rag/batch_processor.cpp:118` is undefined.
- RespCodec.Stream.ReadValue: does not model interrupted or timed-out `recv` calls, the limit on recursion depth set by the stack, or `reserve` throwing for a huge announced array.
- RespCodec.Stream.RecvExact: does not model that `reserve` at `qornix_rag/llm_cache.cpp:124` throws for a huge announced length of a bulk string.
- Batch.AlwaysSafe: the run begins when `process` has reset its state, with the flag set or calls of `cancel` half done if they overlap the reset; `BatchStats` has the reset itself. Resizing the result vector while `get_stats` reads its size is taken as storing the size, an ask function that throws something other than `std::exception`, and exceptions from the progress callback are left out.
- BatchStats.AlwaysLifeSafe: has one call of `process` at a time; two calls on one processor at once share its vector and counters.
- Batch.CountersStayInBounds: is about one batch; over several batches `BatchStats.ReportsFitIff` says when it fails.
- BlockingPool.AlwaysSafe: assumes that a metrics object is attached and that handing a task to the pool does not throw; time is left out, so an awaiter may give up whenever it has seen `done` unset.
- Semaphore.AlwaysSafe: time is left out in the same way; a waiting task may give up at any poll.
- Tfidf.TfidfVectorizer.ComputeBm25Score: computes with real numbers, and of the logarithm uses only that it is positive above one.
- Tfidf.TfidfVectorizer.IndexDocument: starts from the words of a document; the splitting into words, the stop words and the identifier regexes are left out.
- CjkNgrams.ExtractCjkNgrams: the program's `std::sort` is the same sort by insertion; the result is the only ascending list of those terms.
- Analytics.AnalyticsService.ExtractMissingQueries: the program's `std::sort` is a sort by insertion; the contract leaves the order of equal counts open.
- Columns.ColumnType: starts from the kinds of the cells; how a text is taken for a number, a date or a formula is left out.
- Dedup.FindDuplicates: takes similarities as real numbers, and leaves out the reason texts and the embedding cache, and `duplicates_found`, which the program increments without initializing it.
- Sections.SplitSections: one loop for the Markdown, source code, DOCX and PPTX splitters, which differ only in the line test and the label; the symbol scope, the block kind and the slide number's default are left out.
- Chunker.ChunkDocument: leaves out PDF pages, spreadsheets and OCR regions, whose sections are trimmed or rewritten and keep no exact offsets, and the metadata other than offsets, token count and label.
- Counters and offsets are unbounded integers, so wrap-around of `size_t` and overflow of `int` counts are not modelled, except where numbers are read from text.
- Locks are taken to exclude each other and atomics to be sequentially consistent.
- `HttpMetrics` latency window and percentiles, `AsyncDbConnection` and `AsyncDbPool`: gauges stored by the last writer, easy members.
- Redis connections, SCAN and authentication; the HTTP server, sessions, routing, schema and OpenAPI services, and the authentication routes: mostly calls into code that is not part of this model.
- Document extraction, ONNX, Xapian and HNSW: foreign libraries.
- Reports other than unanswered queries, daily trends and feedback in the analytics service: filters and sums that add only easy members.
