# Aggregator service: a verified model of the measurement pipeline

The service generates packets of measurements, lets a pool of workers compute each packet's maximum,
and stores the maxima in `public.packet_max` through a batching repository. This project models that
pipeline and proves what it guarantees in every run: that no interleaving of generator, workers, `Add`
callers, consumer loop, timer, clock and `Close` callers can lose, repeat or reorder an accepted record
before an orderly shutdown is complete, that the table only ever holds true packet maxima, and that the
service does not deadlock and can always shut down.

`dafny verify dfyconfig.toml` checks everything.

## How the model is built

* **Values.** A Go string is a Dafny string of byte-valued characters. Measured values are `real`,
  timestamps are `int` nanoseconds. Random bytes, random numbers, the clock and database failures are
  parameters of the steps that use them.
* **Protocols.** `Batcher`, `WorkerPool`, `HandleCache` and `Pipeline` are state machines. One step is
  one atomic action of one goroutine; a `select` is a free choice between the steps that are ready; all
  theorems quantify over every run. `Pipeline` is the synchronous product of the generator, the pool, the
  repository and `main`: each of its steps is a step of one or two components, so the component
  invariants carry over to it.
* **Code.** `Repository` is the repository as a class with the source's fields (batch slice over an array,
  timer, first-item time, closed flag) and closures. Its ghost field `model` holds the protocol state of
  the same moment and `trace` the protocol run that led there, so every behaviour of the code is a run of
  the protocol. `PacketTable.WritePacketMax`, the codecs, the generator's packet, the UUID buffer, the
  maximum loop and `SqlRunner` are methods proved against functions.
* **Database.** The table is a map keyed by (packet id, source id), since that pair is the primary key.
  Every statement of every write may fail before or after taking effect (`Fault`), with any error, also
  one that `isUniqueViolation` takes for a key violation; a fault without such an error is *honest*. The
  results about the service hold for all faults.

The files, bottom up: `Domain`, `Text`, `Codec`, `Uuid`, `MaxMeasurement`, `Generator`, `PacketTable`,
`HandleCache`, `Batcher`, `Reader`, `BatcherProgress`, `BatcherTheorems`, `Repository`, `WorkerPool`, `Pipeline`,
`PipelineTheorems`, `Shutdown`.

## Where the code does not do what one might expect

* A row's timestamp is that of the *last* write to its key, not of the greatest value
  (`PacketTable.UpsertClosedForm`).
* An `Add` that overlaps `Close` can return nil after the drain has ended: `BatcherTheorems.LossBound`
  bounds what is lost that way, `BatcherTheorems.StopLosesExactly` says what each stop can lose, and
  `BatcherTheorems.NothingLostIffNoAddWaits` when that is nothing.
* A Close that finds the repository already closed returns without waiting for the consumer, unless that
  has returned (`BatcherTheorems.CloseWaitsIffFirst`), and a write can then follow the closing of the
  runner if work is left (`BatcherTheorems.WriteCanFollowCloseIff`);
  `BatcherTheorems.OverlappingCloseDoesNotWait` is such a run.
* `SQLRunner.Close` with a call under way does not release everything: the call can cache a handle
  afterwards (`HandleCache.CloseReleasesEverythingIff`). A closed runner that is used again opens a handle
  again (`HandleCache.UseAfterCloseReopens`).
* `PacketMaxByID` has no order: whatever row is picked, it returns the maximum written for the packet
  exactly when every source of the packet has written as great a value
  (`Reader.LookupIsMaximumIffSourcesMatch`, and `Reader.LookupCanMissMaximum` for two sources). The
  pipeline keeps one row per packet.
* The update by packet id runs exactly when the insert of an absent key fails without effect with an
  error that reads as a unique violation (`PacketTable.FallbackCondition`). A write is an upsert or
  nothing exactly when that update changes no row (`PacketTable.WriteIsUpsert`); in the pipeline it never
  does (`PipelineTheorems.RowsAreTrueMaxima`).
* With no workers the pool drops every packet even before cancellation
  (`PipelineTheorems.NothingDroppedBeforeCancel`).

## Model

| member | source | states |
|---|---|---|
| `MaxMeasurement.EarliestGreatestDetermines` | app/src/core/worker_pool.go:71-88 | the result is the one element such that no value is greater, of equal values no timestamp is later, and no equal pair comes before |
| `MaxMeasurement.MaxOfIsHomomorphism` | app/src/core/worker_pool.go:71-88 | the maximum of a concatenation is the left-biased combination of the maxima of its parts |
| `MaxMeasurement.FindMaxMeasurement` | app/src/core/worker_pool.go:71-88 | the loop returns that element, or nothing when the context ends during the scan |
| `MaxMeasurement.ProcessPacket` | app/src/core/worker_pool.go:58-96 | an item goes to Add exactly for a non-empty packet whose scan is not cancelled; field by field it is the packet's greatest measurement |
| `Generator.GeneratePacket` | app/src/core/generator.go:70-86 | the slice filled in place has the packet's size, one id and one time, and the drawn source and value at each position |
| `Generator.GeneratedIdsAreValid` | app/src/core/generator.go:71-82 | every identifier of a generated packet parses to itself; values are integral and below 1000 |
| `Uuid.GenerateUuid` | app/src/shared/constants/uuid.go:14-28 | bytes 6 and 8 of the buffer are overwritten in place and the text is that of the new buffer |
| `Uuid.StampMasks` | app/src/shared/constants/uuid.go:18-19 | the arithmetic used for the version and variant bytes is the source's bit masks, on all bytes |
| `Uuid.GeneratedIsAccepted` | app/src/shared/constants/uuid.go:14-49 | ParseUUID accepts every generated text and returns it unchanged |
| `Uuid.GeneratedVersionAndVariant` | app/src/shared/constants/uuid.go:18-19 | generated text carries version 4 and the variant of section 5.4 of RFC 9562 |
| `Uuid.GeneratedDenotesBytes` | app/src/shared/constants/uuid.go:14-28 | the text shows the random bytes as two lower-case hexadecimal digits each, in order, but for the version digit and the variant bits |
| `Uuid.GeneratedInjectiveOnFreeBits` | app/src/shared/constants/uuid.go:14-28 | two buffers give one text exactly when they agree on the 122 free bits |
| `Uuid.ParseAcceptsHexFormOnly` | app/src/shared/constants/uuid.go:30-62 | although the scan steps by rune, exactly the 36-byte 8-4-4-4-12 hexadecimal forms are accepted; the result only lowers capital letters |
| `Uuid.ParseIsIdempotent` | app/src/shared/constants/uuid.go:30-49 | a parsed identifier parses to itself, and letter case does not decide acceptance |
| `Uuid.DecodeRune` | app/src/shared/constants/uuid.go:35 | the rune read at an offset is the byte itself below 0x80 and otherwise never an ASCII character |
| `Text.FormatIntRoundTrip` | app/src/database/postgres.go:387-400 | printing and parsing a count gives it back when it fits in 64 bits and is an error otherwise |
| `Text.ItoaDigits` | app/src/database/migrate.go:218 | the printed count is decimal: the k-th character from the right is the digit of weight 10^k, and no zero leads |
| `Codec.TagRoundTrip` | app/src/database/migrate.go:209-224 | a command tag yields its count exactly for INSERT, UPDATE and DELETE in any letter case; every other tag is an error |
| `Codec.RowsAffectedOfWords` | app/src/database/postgres.go:376-404 | which word of any tag is its count, which tags are too short, and that other verbs are errors |
| `Codec.WriteCsv` | app/src/database/migrate.go:139-172 | the builder loop writes one line per row, in row order, and nothing for no rows |
| `Codec.ParsePacketMaxList` | app/src/database/postgres.go:475-517 | the reader loop returns the rows of all records or the first error |
| `Codec.ListParsesIff` | app/src/database/postgres.go:475-517 | a list parses exactly when each record has the first one's number of columns, at least four, and its value and timestamp parse; then there is one row for each record, in order |
| `Codec.CsvRoundTrip` | app/src/database/postgres.go:475-517 | reading the written text of any list of rows gives the same list, in order |
| `Codec.DecimalReadsBack` | app/src/database/migrate.go:192-207 | decimal columns carry every integral value and every 64-bit timestamp through CSV |
| `PacketTable.UpdateByPacketRowByRow` | app/src/database/postgres.go:71-77 | the update by packet gives each row of the packet the greater value, the source of that value and the new timestamp, touches no other row, counts the packet's rows, and fails exactly when two rows would get one key |
| `PacketTable.TagReports` | app/src/database/postgres.go:376-404 | the tag of each of the three statements parses to the number of rows it affected |
| `PacketTable.Affected` | app/src/database/postgres.go:363-404 | executing a statement and parsing its tag text reports the rows it affected |
| `PacketTable.WritePacketMax` | app/src/database/postgres.go:287-345 | the write path has the outcome, the table and the executed statements of its specification, for every fault of every statement |
| `PacketTable.InsertErrorDecides` | app/src/database/postgres.go:302-307 | a failed insert goes on to the update exactly for SQLSTATE 23505 or, without a SQLSTATE, for one of two phrases in the message in any letter case; otherwise the write ends with an error |
| `PacketTable.InsertAnswerDecides` | app/src/database/postgres.go:290-300 | an answered insert puts a new key in and ends; an existing key leads to the update of the pair and no further |
| `PacketTable.FallbackSucceedsIff` | app/src/database/postgres.go:325-345 | when the update by packet makes a write return nil: it is answered, no two rows collide, and the packet has a row |
| `PacketTable.WriteIsUpsert` | app/src/database/postgres.go:287-345 | with no other writer, for every fault, a write is an upsert or nothing exactly when its update by packet changes no row; and which of the two |
| `PacketTable.WriteSucceedsIff` | app/src/database/postgres.go:287-345 | when a write that does not fall back returns nil; success means the upsert took place, and with honest faults that no statement it needs failed |
| `PacketTable.FallbackCondition` | app/src/database/postgres.go:302-325 | exactly when the update by packet id is executed; never with an honest database |
| `PacketTable.UpsertClosedForm` | app/src/database/postgres.go:59-78 | after any writes no key is lost, each key holds the greatest of its values and the timestamp of its last write |
| `PacketTable.PermutedWritesKeepValues` | app/src/database/postgres.go:64-70 | reordering or repeating writes changes no key and no value |
| `PacketTable.KeyOrderDeterminesTable` | app/src/database/postgres.go:64-70 | reordering that keeps each key's own order changes nothing |
| `PacketTable.ReplayIsNoOp` | app/src/database/postgres.go:64-70 | replaying a complete sequence of writes is a no-op |
| `PacketTable.ReplayIsFold` | app/src/database/postgres.go:271-285 | attempted writes leave the table of the writes that took effect, as long as no update by packet changed a row |
| `PacketTable.DistinctPacketsGiveExactRows` | app/src/database/postgres.go:271-345 | attempts of pairwise different packets, under any faults, leave exact rows, one per packet; a row is missing exactly when its insert failed without effect |
| `Reader.LookupReturnsSelected` | app/src/database/postgres.go:425-449 | through the CSV text, the lookup returns the selected row, or not-found for none |
| `Reader.LookupOutcomes` | app/src/database/postgres.go:425-449 | an invalid id, a failed query, a malformed result and an empty one are told apart; otherwise the first row is returned |
| `Reader.LookupIsMaximumIffSourcesMatch` | app/src/database/postgres.go:430-433 | LIMIT 1 without order returns the maximum of what was written for the packet exactly when each source that wrote for it wrote as great a value |
| `Reader.LookupCanMissMaximum` | app/src/database/postgres.go:430-433 | two items Add accepts, of one packet, after which the smaller one may be returned |
| `Batcher.Normalise` | app/src/database/postgres.go:98-111 | positive settings are kept; the batch size defaults to 1, the buffer to the batch size, the timeout to none |
| `Batcher.ValidationRejects` | app/src/database/postgres.go:347-361 | Add accepts exactly items whose two ids have the 8-4-4-4-12 form, and names the first field that is missing or malformed |
| `Batcher.StepInv` | app/src/database/postgres.go:131-285 | every step of any caller, the consumer, the timer or the clock keeps the invariant of flow, batch, timer, stop and close |
| `Batcher.RunInv` | app/src/database/postgres.go:131-285 | that invariant holds after every run |
| `BatcherTheorems.BatchingRefinesDirectWriting` | app/src/database/postgres.go:152-285 | accepted items in send order are those attempted, the rest of the batch, the buffer; the table is the one-at-a-time fold of the attempted prefix, without the attempts that had no effect unless an update by packet changed a row |
| `BatcherTheorems.LossBound` | app/src/database/postgres.go:152-262 | in any run that goes on from the stop to the consumer's return, what was accepted and never attempted is the buffer: a suffix, all accepted after the stop, bounded by the capacity and by the number of Adds past their check at the stop |
| `BatcherTheorems.StopLosesExactly` | app/src/database/postgres.go:131-179 | from every stop, the numbers of items that some run loses are exactly those up to both bounds |
| `BatcherTheorems.NothingLostIffNoAddWaits` | app/src/database/postgres.go:252-262 | every run from a stop attempts everything accepted exactly when no Add is past its check there |
| `BatcherTheorems.LossBoundIsTight` | app/src/database/postgres.go:161-178 | for every configuration and number of such Adds there is a stop and a run that loses exactly the smaller of the two bounds |
| `BatcherTheorems.OrderlyShutdownLosesNothing` | app/src/database/postgres.go:252-262 | with no Add past its check at the stop, everything accepted is attempted and the buffer ends empty |
| `BatcherTheorems.FlushesPartitionReceived` | app/src/database/postgres.go:219-268 | flushes and pending batch are what was received, in order; size flushes are full, the others partial and non-empty |
| `BatcherTheorems.FlushWithinReceives` | app/src/database/postgres.go:235-266 | batchSize - len(batch) more receives bring a flush, whatever the select prefers |
| `BatcherTheorems.TimeoutsAreHonest` | app/src/database/postgres.go:188-268 | a timer exists exactly with a positive timeout and a pending item; a tick flushes a non-empty batch whose first item has waited at least the timeout |
| `BatcherTheorems.TimeoutsAreDue` | app/src/database/postgres.go:188-206 | a running timer is due within batchTimeout; after that time it can fire and the pending batch can be flushed |
| `BatcherTheorems.CloseProtocol` | app/src/database/postgres.go:131-149 | stopCh and the runner are closed at most once, and once when a Close has returned; without overlap no write follows |
| `BatcherTheorems.CloseWaitsIffFirst` | app/src/database/postgres.go:132-142 | a Close has waited for the consumer in every run to its end exactly when it found the repository open or the consumer had returned |
| `BatcherTheorems.WriteCanFollowCloseIff` | app/src/database/postgres.go:140-149 | a write can follow the end of a Close exactly when it found the repository closed while something was unwritten or an Add could still send |
| `BatcherTheorems.OverlappingCloseDoesNotWait` | app/src/database/postgres.go:140-147 | a run in which a second Close returns while an accepted item waits, and the item is then written |
| `Repository.New` | app/src/database/postgres.go:81-128 | New rejects a missing or malformed DSN, normalises its settings and starts in the protocol's initial state |
| `Repository.Repository.AddUntilSelect` | app/src/database/postgres.go:152-169 | which error Add returns before its select, in the order of its checks, or that it reaches the select |
| `Repository.Repository.AddSelect` | app/src/database/postgres.go:171-178 | each case of the select is taken only when ready; the send appends to the buffer and is the only nil return |
| `Repository.Repository.CloseLocked` | app/src/database/postgres.go:132-138 | the locked section closes once and tells whether it was the first |
| `Repository.Repository.AppendToBatch` | app/src/database/postgres.go:235-240 | the item is appended in place; only the first item of a batch sets the first-item time and the timer |
| `Repository.Repository.Receive` | app/src/database/postgres.go:235-243 | the head of the buffer joins the batch, and a batch that is then full is written as one flush |
| `Repository.Repository.ProcessBatch` | app/src/database/postgres.go:271-285 | every item of the batch is attempted once, in order, whatever fails and whatever other goroutines do between the writes |
| `Repository.Repository.Flush` | app/src/database/postgres.go:219-233 | the batch is attempted, then batch, timer and first-item time are cleared; an empty batch does nothing |
| `Repository.Repository.TimeOut` | app/src/database/postgres.go:265-266 | a tick flushes exactly the pending batch |
| `Repository.Repository.Select` | app/src/database/postgres.go:252-266 | the chosen case is taken if it is ready: a stop starts the drain, an item is received, a tick flushes the batch; nothing else changes |
| `Repository.Repository.Run` | app/src/database/postgres.go:246-268 | every turn of the schedule is taken, in order, with only other goroutines acting in between, and after a stop the rest drains; when the loop returns, accepted is attempted then buffer, the rest is bounded by the Adds waiting at the stop, and the table is the replay of the attempts |
| `Repository.Repository.DrainBuffer` | app/src/database/postgres.go:253-262 | each turn receives an item while there is one; the first that finds none flushes and returns, with everything received attempted |
| `WorkerPool.RunInv` | app/src/core/worker_pool.go:23-116 | in every run each packet taken is in exactly one place, and every item of an Add is its packet's maximum |
| `WorkerPool.AddsAreSubMultiset` | app/src/core/worker_pool.go:43-103 | the Adds are a sub-multiset of the maxima of the non-empty packets sent; none without workers |
| `WorkerPool.PoolIsComplete` | app/src/core/worker_pool.go:23-69 | without cancellation and with a worker, Add is called exactly once per non-empty packet, with its maximum |
| `WorkerPool.CancelledPoolScansNoMore` | app/src/core/worker_pool.go:71-80 | after cancellation only packets that were in Add, or whose scan was complete, get through Add |
| `WorkerPool.ClosedPoolTerminates` | app/src/core/worker_pool.go:43-116 | once the channel is closed every schedule of the workers is bounded and rests only at the end |
| `HandleCache.HandlesAreConserved` | app/src/database/migrate.go:49-107 | with no call under way every handle ever opened is cached under one DSN or closed, never both |
| `HandleCache.SuccessfulCallsAgree` | app/src/database/migrate.go:60-83 | without Close all successful calls for a DSN return one handle, still open |
| `HandleCache.CachedDsnOpensNothing` | app/src/database/migrate.go:60-66 | until a Close, a call for a cached DSN opens no handle and returns the cached one |
| `HandleCache.CloseReleasesEverythingIff` | app/src/database/migrate.go:49-83 | a Close leaves every handle closed in every run that no later call enters exactly when no call is under way |
| `HandleCache.UseAfterCloseReopens` | app/src/database/migrate.go:60-83 | a call after Close opens and keeps a new handle |
| `HandleCache.SqlRunner.Install` | app/src/database/migrate.go:73-82 | the second section caches the new handle, or closes it and returns the cached one |
| `HandleCache.SqlRunner.Close` | app/src/database/migrate.go:49-58 | the loop closes and forgets every cached handle, in any order of the map |
| `Pipeline.ItemIsValid` | app/src/database/postgres.go:347-361 | Add never rejects the item of a generated packet, and the item carries its packet's id |
| `Pipeline.Normalise` | app/src/cmd/start/main.go:43-47 | the service's settings after all defaults |
| `Pipeline.StepInv` | app/src/cmd/start/main.go:50-127 | every step of the service keeps the invariant that ties generator, pool, repository and main together |
| `Pipeline.RunInv` | app/src/cmd/start/main.go:23-134 | that invariant holds after every run of the service |
| `PipelineTheorems.PacketsAreConserved` | app/src/core/worker_pool.go:43-103 | every generated packet is in exactly one place, once; no packet reaches Add twice |
| `PipelineTheorems.NothingDroppedBeforeCancel` | app/src/core/generator.go:46-96 | before cancellation nothing is dropped with a worker, and nothing is stored without one |
| `PipelineTheorems.RowsAreTrueMaxima` | app/src/core/worker_pool.go:58-103 | in every reachable state, under any faults, each row holds, column by column, the greatest measurement of one generated packet, and no packet has two rows; the table is the upserts that took effect |
| `PipelineTheorems.LookupReturnsTrueMaximum` | app/src/database/postgres.go:425-449 | a lookup by id, in any letter case, returns the greatest measurement of the generated packet with that id, or not-found exactly when there is no row of it |
| `PipelineTheorems.DecimalColumnsReadBack` | app/src/database/migrate.go:192-207 | decimal columns meet what the lookup needs, for timestamps of 64 bits |
| `PipelineTheorems.OrderlyShutdown` | app/src/cmd/start/main.go:116-127 | when main returns everything accepted was attempted before the runner was closed once; a stored packet lacks its row exactly when its insert failed without effect |
| `Shutdown.NeverDeadlocked` | app/src/core/generator.go:88-96 | before cancellation, with work to do, some process can step however full the queues are |
| `Shutdown.ShutdownTerminates` | app/src/cmd/start/main.go:116-127 | once the generator has stopped every schedule is bounded and rests only where main has returned |
| `Shutdown.ShutdownIsReachable` | app/src/cmd/start/main.go:116-134 | from every reachable state the service can reach the end of main |

## Left out

- HTTP, gRPC, wiring, configuration files, migrations, logging and metrics (including `Histogram`): thin or easy code around the pipeline.
- `PacketMaxInRange`: the same reader on another selection; the order by timestamp is the database's.
- Real Postgres: the three statements and the by-id selection are modelled; microsecond rounding of timestamps, other writers of the table and deletes are not.
- Floating point: values are exact reals; NaN and the text of non-integral floats are not modelled. CSV column texts are a parameter that must read back; the decimal columns are one instance.
- Codec.DecimalReadsBack: has decimal nanoseconds in place of the RFC 3339 text of the `time` package, which is part of that parameter.
- PipelineTheorems.DecimalColumnsReadBack: is stated for those decimal columns.
- Codec.WriteCsv: does not model quoting, nor scan and flush errors; no identifier, number or timestamp needs quotes.
- Codec.ParsePacketMaxList: reports a quoted field as an error, where `encoding/csv` accepts it.
- ASCII only: upper and lower case and white space of non-ASCII text are not modelled.
- Time and fairness: the clock is logical and a select may choose any ready case; a cancelled generator may keep choosing its tick, so no bound is given before it stops.
- Servers: `serverGroup.Wait` is taken to return; `main` goes on to its cleanup once the workers have returned.
- Random ids: that generated packet ids differ is a hypothesis of the generator's step.
- `logger.Fatalf` exits during start-up: they skip the cleanup.
- `WorkerPool` and `main` loops: goroutines are protocol steps, not loop code; the loops of one packet's scan and of the repository's consumer are code.
- Repository.New: takes from the caller whether the DSN parses as a URL; password and runner are not part of the model.
- `closeOnce`: the call of the runner's Close is one step; the class models the locked section of `Close` only.
- HandleCache.SqlRunner.Install: opening a handle and its ping are a step of the protocol and a parameter of the class.
