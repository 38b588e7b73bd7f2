# Event ingestor: buffer, store and keys

This project models the ingestion pipeline of the event ingestor: the validation and conversion of
incoming events, the bounded in-memory buffer with its batching goroutine and four flush workers,
the ClickHouse table that removes duplicates, and the metrics queries over it. The question behind
it is whether a pipeline that batches events, lets four workers reorder them and repeats writes of
unknown outcome still reports what a naive reader of the accepted events would report.

| file | part of the system |
|---|---|
| `Results.dfy`, `Arithmetic.dfy` | shared option and result types, Go's integer widths |
| `Sorting.dfy`, `Strings.dfy` | sorting in place, byte-order comparison, trimming, joining |
| `Json.dfy`, `CanonicalJson.dfy` | JSON values with a reader of RFC 8259 texts; the JSON printer, proved against that reader |
| `Payload.dfy`, `Event.dfy` | the hashed payload text, timestamps, validation, conversion, the dedup key |
| `Store.dfy` | the `events` table, FINAL, merges, one batch insert |
| `Metrics.dfy` | totals and groups, and the method that reads them |
| `BufferProtocol.dfy`, `BufferRuns.dfy` | the concurrent state machine, its invariants, and theorems over runs |
| `Buffer.dfy` | the buffer's methods on the heap, as steps of that machine |
| `Batching.dfy` | how full batches and the buffer get |
| `Pipeline.dfy`, `Losses.dfy`, `Faults.dfy` | the end-to-end theorems; exactly what a run and a shutdown keep; how many faults it takes to lose a batch |
| `Backoff.dfy`, `Ingest.dfy`, `Limiter.dfy` | the two backoffs, Ingest and the bulk loop, the request limiter |

Concurrency is an interleaving of atomic steps (channel operations, Flush attempts, merges,
shutdown actions) in any order. A Flush attempt follows a script of what the database does; the
only promise made about a script is `Honest`: no foreign rows, and an acknowledged Send lost
nothing. A failed Send may leave any rows of the batch behind, any number of times.

## Where the code differs from its documentation

* `Null byte separators prevent field boundary ambiguity` (internal/domain/event.go:107): the tags
  are closed by the same NUL byte as the fields, so a channel that holds a NUL byte passes for a
  channel, a campaign and a tag. `AmbiguousIff` says exactly which payloads can be mistaken for
  another one; on NUL-free fields the text is exact (`TextSeparatesNulFree`).
* `now-uint64(maxPast…)` wraps around (internal/domain/event.go:84). The bounds are the promised
  window exactly when `maxPast <= now` (`BoundsAreWindowIff`); a longer past bound refuses every
  timestamp (`PastBeyondZeroRefuses`).
* Values under 10^12 count as seconds. The seconds and the milliseconds of one instant are treated
  alike exactly for s < 10^6 and 10^9 <= s < 10^12 (`UnitsAlikeIff`), and normalising twice changes
  nothing exactly from 10^9 on (`NormalizeIdempotentIff`).
* `shutdown` stops the parts `so no data is lost` (internal/app/app.go:88). Nothing accepted is
  missing from the table exactly when a row of every accepted key has landed, by a Send that was
  acknowledged or by one that failed (`NothingLostIff`). A Close that returned nil settles it
  (`CleanCloseKeepsIff`). One that timed out does not, nor does closing the repository, which waits
  for no attempt (`LandsAfterRepositoryClosed`): events still unresolved may land later, and no
  others (`OnlyPendingLands`, `LostForGood`). Three more runs show what can happen: Close returns nil and the event is nowhere
  (`CleanShutdownCanLose`); a batch uses up its attempts and yet its event is stored
  (`AbandonedCanLand`), so counting abandoned batches is not counting losses; and an event is
  admitted after everything has returned, because Publish never looks at `done`
  (`LateEventIsStranded`, with `StrandedIff` for what stays in the channel). Flush runs under the
  context that the signal has already cancelled (internal/app/infrastructure.go:42), which is one
  way for all attempts to fail.
* `Query` never asks why a result stream ended (internal/repository/query.go:46, 112). A cut stream
  is answered as a success: `CutStreamIsAnswered` is a wrong answer of that kind, and `TruthfulIff`
  says exactly when a successful answer is right.
* `retryDelay` is documented as capped (internal/repository/repository.go:112-113), but attempt 0
  returns the base as it is, and a doubling can wrap before it is compared with the cap. The formula
  holds for every attempt exactly when base <= max and no doubling of the base falls between 2^62 ns
  and max (`CappedIff`); exactly then the delays never shrink (`DelaysGrow`).

## Model

| member | source | states |
|---|---|---|
| Pipeline.PipelineReportsTheLog | internal/repository/query.go:28-98 | end to end: for every interleaving, failure pattern and run of merges, once every accepted key has landed, a result is what the two statements return over FINAL iff it is what a naive reader computes from the accepted log keeping one event per key; grouping by channel or campaign needs NUL-free fields and a hash without collisions |
| Pipeline.TotalsRightIff | internal/repository/query.go:29-33 | at any moment of any run, every total over FINAL equals the naive count of the accepted log iff every accepted key has landed |
| Pipeline.MissingKeyShows | internal/repository/query.go:29-33 | an accepted key that has not landed is missing from the total of its own millisecond |
| Pipeline.QueryReportsTheLog | internal/repository/query.go:13-128 | if both statements are answered in full and no row fails to scan, `Query` succeeds, with the naive report of the accepted log |
| Pipeline.SuccessReportsTheLogIff | internal/repository/query.go:13-128 | whenever `Query` succeeds its result is that report iff the totals row arrived (or there is nothing to count) and the group stream was delivered in full |
| Pipeline.KeysSandwiched | internal/buffer/buffer.go:140-170 | under any failures, keys of succeeded batches ⊆ keys of FINAL ⊆ keys of accepted events |
| Pipeline.NeverOvercounts | internal/repository/query.go:29-33 | a reported total never exceeds the number of distinct accepted events in range, in any reachable state |
| Pipeline.NeverUndercounts | internal/repository/query.go:29-33 | nor is it below the number of distinct events in range whose batch succeeded; the same for distinct users |
| Pipeline.UsersNeverOvercounted | internal/repository/query.go:29-33 | every reported user has an accepted event in range |
| Pipeline.IngestIsTheGate | internal/ingest/usecase.go:36-53 | the events the end-to-end theorems speak of are exactly those that Ingest judges accepted, in the form it publishes |
| Pipeline.StoredRowsAreValid | internal/ingest/usecase.go:36-53 | every row ever stored has a non-blank name of at most 100 bytes, a non-blank user and a timestamp inside the window of its acceptance instant |
| Pipeline.KeySeparates | internal/domain/event.go:108-125 | with NUL-free fields and a hash without collisions, accepted events that share a dedup key have the same channel and campaign, so removing duplicates never moves an event between groups |
| Pipeline.WrittenIsLanded | internal/repository/insert.go:42-53 | when nothing is under way and every batch succeeded, every accepted key has landed |
| Pipeline.LandedHolds | internal/repository/insert.go:42-53 | then the table holds exactly the keys of the accepted log, and only accepted events |
| BufferProtocol.InvStep | internal/buffer/buffer.go:65-213 | every step of every goroutine keeps the bounds, the order, the accounting, the stored-data and the shutdown facts |
| BufferProtocol.ReachableInv | internal/buffer/buffer.go:35-213 | those facts hold in every reachable state |
| BufferProtocol.FifoStep | internal/buffer/buffer.go:65-127 | each step keeps: dispatched batches, batch in hand and channel are the accepted log in order |
| BufferProtocol.AccountedStep | internal/buffer/buffer.go:129-170 | each step keeps: events taken by workers = succeeded + abandoned + held |
| BufferProtocol.StoredStep | internal/buffer/buffer.go:140-170 | each step keeps: succeeded batches have all keys in the table, abandoned ones used all attempts, stored rows were accepted |
| BufferProtocol.ShutDownStep | internal/buffer/buffer.go:74-113 | each step keeps: nothing dispatched after the return of the batching goroutine, and no clean Close with a worker still running |
| BufferProtocol.TableGrows | internal/repository/insert.go:42-53 | no step of any kind, background merges included, removes a key from the table |
| BufferProtocol.Configure | internal/buffer/buffer.go:35-53 | each positive setting is kept in its own field; the defaults are 1000, 1000 and one attempt |
| BufferRuns.Conservation | internal/buffer/buffer.go:65-190 | in every reachable state each accepted event is in exactly one place: succeeded, abandoned, in flight, queued, in hand or in the channel |
| BufferRuns.FirstInFirstOut | internal/buffer/buffer.go:65-138 | in every reachable state batches are dispatched and taken in admission order, none twice, each of 1 to FlushBatchSize events |
| BufferRuns.BacklogBound | internal/buffer/buffer.go:35-53 | at most capacity + 9·FlushBatchSize events are accepted and unresolved |
| Batching.BacklogBoundIsReached | internal/buffer/buffer.go:35-53 | for every configuration some run holds exactly capacity + 9·FlushBatchSize unresolved events: no smaller bound is true |
| Batching.ShortBatchesAreCut | internal/buffer/buffer.go:92-112 | in every run there are at most as many short batches as ticks, done signals and drained batches |
| Batching.FullUnlessCut | internal/buffer/buffer.go:94-99 | in a run without ticks and without a shutdown every dispatched batch has exactly FlushBatchSize events |
| BufferRuns.WorkDecreases | internal/buffer/buffer.go:74-170 | every step but a publish keeps or lowers the work left; every step that is not a stutter lowers it |
| BufferRuns.NextWork | internal/buffer/buffer.go:65-72 | after Close began some goroutine can move until all have returned: a blocked dispatch always finds a worker that can make room |
| BufferRuns.NoDeadlock | internal/buffer/buffer.go:74-113 | in every reachable state after Close began: all goroutines have returned, or a working step is enabled |
| BufferRuns.WorkIsBounded | internal/buffer/buffer.go:74-170 | no publish-free interleaving has more working steps than the work left at its start |
| BufferRuns.DrainCanFinish | internal/buffer/buffer.go:100-112 | from every reachable state after Close began some schedule ends with every goroutine gone |
| BufferRuns.SomeWorkFollows | internal/buffer/buffer.go:80-112 | weak fairness per goroutine and select arm suffices for progress: an unfinished drain is always followed by a working step |
| BufferRuns.FairRunsDrain | internal/buffer/buffer.go:74-127 | every weakly fair infinite run from the initial state that is free of publishes from some moment after Close began reaches a state in which all goroutines have returned and no batch is queued |
| BufferRuns.ClosedForGood | internal/buffer/buffer.go:74-76 | the trigger channel is closed once, never sent to afterwards; nothing more is dispatched and the goroutine that closed it stays gone |
| BufferRuns.CleanClose | internal/buffer/buffer.go:195-213 | a nil Close leaves no batch and no busy worker; all events admitted before the end of the drain are persisted, or abandoned after exactly all attempts; no attempt follows the closing of the repository |
| BufferRuns.StrandedIff | internal/buffer/buffer.go:175-190 | at the end the channel holds exactly the events admitted after the drain found it empty; nothing is stranded iff there were none |
| BufferRuns.QuietServerStrandsNothing | internal/app/app.go:92-101 | when the server stopped with no handler left, every accepted event is resolved |
| Losses.TableIsLanded | internal/repository/insert.go:16-53 | after any run the keys of the table are those at its start and those that landed in it |
| Losses.NothingLostIff | internal/app/app.go:88-101 | after any run nothing accepted is missing from the table iff a row of every accepted key landed, whatever Close returned and whoever still publishes |
| Losses.FinishedLandsNothing | internal/buffer/buffer.go:129-138 | once the batching goroutine and all workers have returned nothing lands |
| Losses.OnlyPendingLands | internal/buffer/buffer.go:129-170 | from any moment on, a timed-out Close and a closed repository included, only keys of events then unresolved or published later land |
| Losses.LostForGood | internal/buffer/buffer.go:140-170 | an accepted key that has not landed and belongs to no unresolved event never lands, unless an event with that key is published again |
| Losses.LandsAfterRepositoryClosed | internal/app/app.go:97-99 | a reachable state after a timed-out Close, repository closed, in which a row in flight still lands, and only that makes the table complete |
| Losses.CleanCloseKeepsIff | internal/app/app.go:88-101 | at any time after Close returned nil, late publishers included, nothing accepted is missing iff every accepted key had landed before |
| Losses.GroupsOfLaterMoment | internal/repository/query.go:35-124 | totals read at one moment of a run, groups at a later one: the group totals sum to the total plus the number of keys in range that landed in between |
| Losses.NoneAbandonedNoneLost | internal/app/app.go:88-101 | one way: a clean shutdown of a quiet server in which no batch was abandoned has every accepted key in the table |
| Losses.AbandonedCanLand | internal/buffer/buffer.go:140-170 | the other way fails: a reachable clean shutdown whose only batch was abandoned and whose event is stored |
| Losses.LateEventIsStranded | internal/buffer/buffer.go:175-190 | a reachable state after a nil Close, all goroutines gone, with an event in the channel and none in the table |
| Losses.CleanShutdownCanLose | internal/app/app.go:88-101 | a reachable run with a clean, quiet shutdown whose only event is in no table |
| Faults.SucceedsIff | internal/repository/insert.go:16-53 | an attempt at a batch succeeds iff nothing goes wrong in it |
| Faults.AbandonedCostsFaults | internal/buffer/buffer.go:140-170 | in every run the abandoned batches times the attempts per batch are at most the faulty attempts |
| Faults.FewFaultsAbandonNothing | internal/buffer/buffer.go:140-170 | with fewer faulty attempts than one batch has attempts, every batch is written |
| Faults.FewFaultsLoseNothing | internal/buffer/buffer.go:74-170 | and once all goroutines have returned with the channel empty, every accepted key is in the table |
| Faults.FewFaultsReportTheLog | internal/repository/query.go:28-98 | and then, from clients to report, every answer is right iff it is the naive report of the accepted log |
| Buffers.Buffer.constructor | internal/buffer/buffer.go:35-92 | starts in the initial state of the protocol with the configured capacity and batch size or their defaults, five goroutines in the wait group |
| Buffers.Buffer.Publish | internal/buffer/buffer.go:175-190 | refuses iff the context is over or the channel holds exactly its capacity; otherwise appends the event; one protocol step |
| Buffers.Buffer.Dispatch | internal/buffer/buffer.go:65-71 | goes on at once when there is nothing to send; otherwise waits at the send with the contents of the batch in a freshly allocated array, whether or not the channel has room |
| Buffers.Buffer.Send | internal/buffer/buffer.go:71 | the send once there is room: that very array goes to the end of the queue |
| Buffers.Buffer.Append | internal/buffer/buffer.go:94-95 | appends the received event to the working batch; no array handed over changes |
| Buffers.Buffer.DispatchFull | internal/buffer/buffer.go:96-97 | a full batch waits at the send as a whole |
| Buffers.Buffer.OnEvent | internal/buffer/buffer.go:94-99 | the received event joins the batch, which goes to the send iff that makes it FlushBatchSize long, whole and in order; arrays already handed over keep their contents; the receive step of the protocol |
| Buffers.Buffer.OnTick | internal/buffer/buffer.go:100-102 | a batch that is not empty goes to the send whole; an empty one changes nothing; the tick step |
| Buffers.Buffer.OnDone | internal/buffer/buffer.go:103-104 | a batch that is not empty goes to the send whole, then the drain loop; an empty one goes straight to the drain loop; the done step |
| Buffers.Buffer.DrainBatch | internal/buffer/buffer.go:116-127 | takes the first min(waiting, FlushBatchSize) events of the channel, in order, into a fresh array, and leaves the rest |
| Buffers.Buffer.DrainRound | internal/buffer/buffer.go:105-111 | returns iff the channel is empty, leaving the wait group; otherwise the drained events wait at the send; the drain steps of the protocol |
| Buffers.Buffer.TakeBatch | internal/buffer/buffer.go:135-137 | a worker gets the oldest batch, in an array that is neither the working one nor queued again |
| Buffers.Buffer.WorkerExit | internal/buffer/buffer.go:129-138 | a worker leaves the wait group only when the trigger channel is closed and empty |
| Buffers.Buffer.Close | internal/buffer/buffer.go:195-200 | the first call sets done and goes on to wait; a later call returns nil at once |
| Buffers.Buffer.AwaitClose | internal/buffer/buffer.go:201-212 | the wait ends in nil only when the batching goroutine and all workers have returned, and then nothing is queued; otherwise only by the context |
| Buffers.DrainAllIsARun | internal/buffer/buffer.go:116-127 | one drainBatch call is a legal run of single receive steps |
| Buffers.DrainAllTakes | internal/buffer/buffer.go:116-127 | the receive steps of one drainBatch call move the first min(waiting, room) events, in order |
| Buffers.FlushWithRetry | internal/buffer/buffer.go:140-170 | stops at the first success, otherwise after all attempts; the exact pauses; the table after exactly these attempts; success means every key is in the table |
| Buffers.RetriesAreFlushSteps | internal/buffer/buffer.go:129-170 | one call of flushWithRetry is, in the protocol, its attempts one by one, at any stage of a shutdown: same table, same resolution, worker idle again |
| Stores.PartitionwiseFinalIff | migrations/001_create_events.sql:13-15 | removing duplicates partition by partition is removing them globally, whatever the calendar function |
| Stores.FinalKeys | migrations/001_create_events.sql:13-14 | FINAL has exactly the keys of the stored rows (and, as its definition says, one row for each) |
| Stores.FinalExists | migrations/001_create_events.sql:13-14 | every table has a FINAL view |
| Stores.FinalKeepsNewer | migrations/001_create_events.sql:12-13 | of two rows with one key FINAL shows the one with the larger version |
| Stores.MergeKeepsFinal | migrations/001_create_events.sql:13-15 | after a background merge FINAL shows a view it could have shown before, with the same keys |
| Stores.MergesKeepFinal | migrations/001_create_events.sql:13-15 | the same for any run of merges |
| Stores.ReinsertKeepsKeys | migrations/001_create_events.sql:13-14 | writing rows whose keys are already there, in any parts and order, leaves the keys of FINAL alone |
| Metrics.FinalIsStable | migrations/001_create_events.sql:13-15 | after such writes and any merges, FINAL has the same keys and every query the same count and distinct users; for groups when rows of one key agree on the group |
| Metrics.SameKeysSameAggregates | internal/repository/query.go:29-33 | two views with one row per key and the same keys give the same aggregates |
| Stores.AttemptWrites | internal/repository/insert.go:23-53 | a successful attempt persists every key; any attempt adds only rows of its batch and removes nothing |
| Stores.Repository.Flush | internal/repository/insert.go:11-54 | for a batch that is not empty: nil iff preparing, every append and sending work, else the error of the first that fails; the rows land exactly when Send was reached |
| Metrics.KeepFirstKeepsKeys | migrations/001_create_events.sql:14 | the naive reference keeps every key of the log exactly once |
| Metrics.AggregatesAgree | internal/repository/query.go:29-33 | count() and uniqExact(user_id) over any FINAL view equal the naive aggregates over the log with each key kept once |
| Metrics.GroupTablesAgree | internal/repository/query.go:64-98 | a table is the GROUP BY result over FINAL iff it is the naive one over the log |
| Metrics.GroupTotalsAddUp | internal/repository/query.go:66-98 | group totals add up to total_count for each group_by |
| Metrics.GroupUniquesBound | internal/repository/query.go:66-98 | each group's distinct users ≤ all distinct users ≤ both the total and the sum over groups |
| Metrics.DaysAreSumsOfHours | internal/repository/query.go:83-98 | a day's total is the sum of the totals of its hours |
| Metrics.RangesAdd | internal/repository/query.go:32 | totals of [a,b) and [b,c) add to that of [a,c); distinct users are subadditive |
| Metrics.RowCountsIff | internal/repository/query.go:32 | a stored row counts iff it has the name asked for and lies in the half-open range |
| Metrics.SameGroupIff | internal/repository/query.go:66-98 | two events share a group iff their channels, their campaigns, or the UTC hours or days they lie in agree |
| Metrics.LargestGroupFirst | internal/repository/query.go:73 | no group of a channel or campaign table is larger than the first |
| Metrics.BucketsAscend | internal/repository/query.go:89 | hours and days come strictly in the order of time |
| Metrics.Query | internal/repository/query.go:13-128 | succeeds iff the totals were streamed and scanned and, when a grouping is asked for, it is supported, streamed, and no scan fails among the delivered rows; an iff for each error; the result row by row; on whatever snapshot the streams carry, when a success is right |
| Metrics.TruthfulIff | internal/repository/query.go:46-124 | a successful answer is what the statements mean iff both streams delivered every row that counts |
| Metrics.CutStreamIsAnswered | internal/repository/query.go:112-124 | for every event, on a table that holds just it: a query whose group stream breaks off is answered with success and is wrong |
| Payloads.ComputePayloadHash | internal/domain/event.go:108-125 | hashes channel, campaign, sorted tags, priority and metadata with their separators, in this order; the caller's tags array is not modified |
| Payloads.TextSeparatesNulFree | internal/domain/event.go:104-125 | on NUL-free fields two payload texts are equal iff channel, campaign, tags up to order, priority and metadata are |
| Payloads.TagOrderIrrelevant | internal/domain/event.go:115-121 | permuting the tags never changes the text, NUL bytes or not |
| Payloads.SeparatorsAreNotEnough | internal/domain/event.go:107-125 | a payload whose text is also that of another payload with the same metadata |
| Payloads.AmbiguousIff | internal/domain/event.go:107-125 | a payload can be mistaken for another one iff it has a tag, or a NUL byte in channel, campaign or priority |
| Payloads.JoinInjective | internal/domain/event.go:110-123 | NUL-free pieces can be read back from their joined text |
| CanonicalJson.CanonicalJSON | internal/domain/hash.go:11-47 | prints the canonical text of any value, which a reader of JSON reads back as that value; fails iff a part of it cannot be printed |
| CanonicalJson.ParseOfText | internal/domain/hash.go:11-47 | an RFC 8259 reader with its own literals and table of escapes reads every printed value back (sections 2 to 7 of RFC 8259, no insignificant white space) |
| CanonicalJson.UnescapeOfEscape | internal/domain/hash.go:29 | every string is read back from its escaped form |
| CanonicalJson.PlainIff | internal/domain/hash.go:29 | exactly the controls, the quote, the backslash, `<`, `>`, `&`, U+2028 and U+2029 are escaped |
| CanonicalJson.EscapeForms | internal/domain/hash.go:29 | which seven have two-character escapes; the others have six characters and lower-case digits |
| CanonicalJson.TextEqualIffEqual | internal/domain/hash.go:9-47 | two values print alike iff they are equal, over nested maps, arrays and escaped strings |
| CanonicalJson.TextPrefix | internal/domain/hash.go:11-47 | a printed value can be read back from the front of a longer text |
| CanonicalJson.QuotePrefix | internal/domain/hash.go:29 | a quoted string is read back exactly, escapes included |
| CanonicalJson.TextPrintable | internal/domain/hash.go:44-45 | printed values hold no control characters, so no NUL byte |
| CanonicalJson.SortedKeys | internal/domain/hash.go:17-21 | gathers the keys in any order and sorts them in place to the one ascending order |
| Strings.GatheringOrderIsIrrelevant | internal/domain/hash.go:17-21 | whatever order a map hands out its keys, sorting gives the same sequence |
| Strings.SortedEqualIffPermuted | internal/domain/event.go:115-117 | two tag lists sort to the same list iff they are permutations of each other |
| Strings.SortStrings | internal/domain/event.go:117 | sorts the array in place to the sorted rearrangement of its contents |
| Strings.TrimSpaceEmptyIffBlank | internal/domain/event.go:70-75 | TrimSpace leaves nothing iff the string is white space only |
| Strings.SpacesAre | internal/domain/event.go:70-75 | the 25 code points that count as white space |
| Strings.Utf8LengthIsBytes | internal/domain/event.go:53 | the length of a name is the number of bytes of its UTF-8 encoding (section 3 of RFC 3629) |
| Strings.LeqIsByteOrder | internal/domain/event.go:117 | comparing code points is comparing the bytes of the encodings lexicographically |
| Events.Validate | internal/domain/event.go:52-92 | each error iff its rule is broken: name over 100 bytes, name or user all white space, timestamp not positive, beyond now + maxFuture, before now − maxPast (for maxPast ≤ now); in this order; no error iff the event is acceptable |
| Events.ToEvent | internal/domain/event.go:128-158 | converts iff the metadata can be printed; every stored field, an absent priority kept absent, metadata that reads back as the value sent, the exact text hashed |
| Events.BoundsAreWindowIff | internal/domain/event.go:79-86 | the unsigned comparisons are the promised window for every timestamp iff maxPast ≤ now |
| Events.PastBeyondZeroRefuses | internal/domain/event.go:84-86 | when maxPast > now the wrapped past bound refuses every timestamp |
| Events.NormalizeIdempotentIff | internal/domain/event.go:96-102 | normalising never overflows for positive timestamps, and is idempotent iff ts ≥ 10^9 |
| Events.SameInstantIff | internal/domain/event.go:94-102 | seconds and milliseconds of an instant normalise alike iff 10^9 ≤ s < 10^12 |
| Events.UnitsNotAlwaysAlike | internal/domain/event.go:94-102 | an instant refused in seconds and accepted in milliseconds |
| Events.UnitsAlikeIff | internal/domain/event.go:76-102 | both units are accepted or rejected alike under every modern window iff s < 10^6 or 10^9 ≤ s < 10^12 |
| Events.SecondsFormSameKey | internal/domain/event.go:94-158 | if the seconds form is accepted, so is the milliseconds form, under the same dedup key |
| Events.KeyIdentifies | internal/domain/event.go:128-158 | on NUL-free fields and where the hash does not collide, two events share a dedup key iff name, user, instant, channel, campaign, tags up to order, priority (absent = empty) and metadata value agree |
| Events.MetadataTextEqualIff | internal/domain/event.go:129-136 | metadata texts are equal iff the metadata are, absent metadata included |
| Events.AcceptedIsValid | internal/domain/event.go:61-92 | an accepted event has its name, user and timestamp inside the window, over the integers |
| Ingestion.UseCase.Ingest | internal/ingest/usecase.go:36-53 | an iff for success and for each error, in terms of validity, printability and admission; nothing is published on failure, exactly the converted event on success |
| Ingestion.UseCase.HandleBulk | internal/handler/bulk.go:61-122 | 413 iff the list exceeds the limit (1000 by default); 202 iff some item was accepted, 503 iff none was and the publisher refused one, else 400; the published events in index order |
| Ingestion.UseCase.IngestEach | internal/handler/bulk.go:74-103 | the loop publishes the accepted items in order and returns both counts and the errors |
| Ingestion.UseCase.BulkAccounting | internal/handler/bulk.go:74-103 | accepted + rejected = n, errors in strictly increasing index order naming exactly the items not accepted, each with its code |
| Ingestion.UseCase.FailureMeansNothingAdmitted | internal/handler/bulk.go:79-120 | no item was admitted iff every item was rejected; each of the three codes is listed iff some item had its kind of verdict |
| Limiter.RateLimiter.Admit | internal/handler/middleware.go:81-88 | admits and counts iff the counter is below the limit |
| Limiter.Registry.constructor | internal/handler/handler.go:73-79 | four routes with their own limits, distinct limiters, counters at zero |
| Limiter.Registry.Pass | internal/handler/middleware.go:73-92 | a route without a limiter passes; another route's counter is untouched |
| Limiter.Registry.ResetAll | internal/handler/handler.go:85-90 | whatever order the map gives, every counter is zero after a reset |
| Limiter.WindowBound | internal/handler/middleware.go:81-88 | a stretch with k resets admits at most (k + 1)·limit requests, from any counter in range |
| Limiter.CountInRange | internal/handler/middleware.go:81-88 | the counter stays between 0 and the limit |
| Limiter.CountIsAdmitted | internal/handler/handler.go:85-90 | the counter is the number of requests admitted since the last reset |
| Limiter.RefusedIff | internal/handler/middleware.go:82-86 | a request is refused iff exactly limit requests were admitted since the last reset |
| Backoff.PauseClosedForm | internal/buffer/buffer.go:141-164 | the i-th pause is min(10·2^i, 1000) ms |
| Backoff.PauseTotalClosedForm | internal/buffer/buffer.go:141-164 | the exact sum of the pauses of n failures |
| Backoff.PauseTotalBound | internal/buffer/buffer.go:141-164 | ten failures pause at most 4270 ms |
| Backoff.RetryDelay | internal/repository/repository.go:114-123 | for every 64-bit base and cap: the cap if some doubling up to the last leaves more than it in 64 bits, otherwise base·2^attempt wrapped to 64 bits |
| Backoff.CappedIff | internal/repository/repository.go:112-123 | the documented formula holds for every attempt iff base ≤ max and no doubling of the base lies between 2^62 and max |
| Backoff.DelaysGrow | internal/repository/repository.go:112-123 | for positive 64-bit base and cap, the delays returned never shrink from one attempt to a later one iff base ≤ max and no doubling of the base lies between 2^62 and max; then they are positive and within the cap |
| Backoff.Connect | internal/repository/repository.go:66-110 | at most maxRetries + 1 pings (4 by default), all of them before it gives up; which ping ends it and with what error; the exact pauses; the connection is left open iff it is returned |
| Backoff.LastPing | internal/repository/repository.go:86-103 | the loop makes at most maxRetries + 1 pings and ends at the first that is answered or followed by a cancelled pause |
| Backoff.ConnectsIff | internal/repository/repository.go:86-109 | Connect succeeds iff one of the maxRetries + 1 pings is answered before the context ends |

## Left out

- FinishedLandsNothing: a server that goes on writing rows of an attempt after the attempt was reported failed is not modelled; what an attempt lands, it lands while the worker makes it.
- ParseOfText: escaped surrogate pairs are not read; the printer never writes one.
- Query: which rows a statement returns is a premise (`Carries`); parsing and executing SQL is ClickHouse's part.
- HandleBulk: starts from the decoded list; the clock and the publisher's answer to each item are parameters, because other goroutines decide them.
- Publish: refuses and admits as the code does; its depth gauge is not modelled.
- Close: concurrent calls of the buffer's Close are not modelled; the process makes one. A call is split at its wait, so that the other goroutines can go on.
- SortStrings: the algorithm inside Go's `sort.Strings` is not modelled; an insertion sort stands for it.
- Validate: error texts are not modelled; the over-long and the missing name are told apart although both wrap one sentinel.
- Shutdown of the application is a fixed order of protocol steps (server, buffer, repository), interleaved with all goroutines, not a method of its own: the interleaving is what matters.
- The publisher inside `UseCase` is a separate class that keeps what it admits, because a Go interface has no counterpart used here; the buffer's own Publish is in `Buffers`.
- xxHash64 is a parameter; only theorems that say `CollisionFree` assume anything of it.
- Numbers in metadata are the tokens `encoding/json` prints for them; float formatting is not modelled. Strings are sequences of code points, so repair of invalid UTF-8 is not either.
- `canonicalJSON` has no caller outside its tests; `ToEvent` calls `json.Marshal`, which prints decoded maps as the same text, and both are the one printer here.
- FINAL may keep any row of a key among those with the largest version; the theorems hold for every choice. The laws that mention totals and groups together are about one snapshot; for the two moments at which the two statements run, only the sum of totals is related (`GroupsOfLaterMoment`).
- Hour and day keys are numbers of UTC hours and days; their ISO 8601 text, other server time zones and the 32-bit range of DateTime are not modelled.
- Tags of an incoming event are values, not slices that another goroutine could change.
- Ticker periods, flush timeouts and Close's deadline are steps that may come at any time; no claim is about elapsed time.
- HTTP parsing, headers, response writing, panics, logging, Prometheus, health and request ids: no property beyond input and output.
- Environment and `.env` loading, the migration runner, connection pool settings, the unused `get` and `lookupDimension`, and `Start` with a nil flusher.
