# A verified model of EventfoldDB's storage and subscription core

EventfoldDB is an event store: clients append batches of events to streams, read them back, and subscribe to
them. This project models its core in Dafny and proves what it promises.

- `Bytes.dfy`, `Crc32.dfy`, `Types.dfy`: bytes and little-endian numbers; CRC-32 as a fold of one step per byte over a
  32-bit word, proved to be the remainder of the message divided by the generator polynomial; UTF-8, proved against
  the encoding of scalar values; events, requests and errors.
- `Codec.dfy`: records, batch headers and footers and the file header of format version 3; printer and parser, and the
  format byte by byte.
- `Recovery.dfy`: batch envelopes, and the recovery loop of `open` as a function of the bytes still to scan.
- `Index.dfy`, `Appending.dfy`, `Reader.dfy`: the in-memory log and its per-stream index, the decision part of
  `append`, and reads.
- `Store.dfy`: the file, the shared log, `open` and `append` in place.
- `Dedup.dfy`: the bounded LRU that answers retries.
- `Broker.dfy`, `Subscription.dfy`: the lossy broadcast ring, and subscriptions that catch up and then go live.
- `Writer.dfy`, `Retries.dfy`, `Draining.dfy`: the single writer, one request at a time and in drained groups; what
  retries are answered; why the grouping cannot be observed.
- `System.dfy`: everything together as a state machine. Labels are the steps that can interleave: submit, sync,
  index, publish one event, respond, read, subscribe, poll a subscriber, close, kill the process, lose power at
  any byte the disk allows, restart. A run is any sequence of enabled labels. `Preservation.dfy` proves the invariant
  of every step.
- `Durability.dfy`, `Losses.dfy`, `Guarantees.dfy`: what follows for every run of a new server. Which events survive, the
  exact condition on which that depends, and runs that lose events when it fails; layers, concurrency control,
  subscriptions, and retries over a restart.
- `Progress.dfy`: no step a server should be able to take is ever missing, subscribers who poll are served, and nothing
  shown to a client goes unnoticed by the durability theorems.

What is updated in place in the source is a class or a method with loops here; each is proved equal to a function,
and the theorems are about those functions.

Three promises turned out to be false of the code as it stands. Each has a lemma with a failing input and one with the
exact condition.

- An event a client has seen, or an append that was acknowledged, can be lost. `open` syncs the file only when it cuts
  it, so a batch that was written but not synced when the process was killed is back in memory after a restart and
  can still disappear in a power loss: after a client has read it (`Losses.KillInWindowLosesEvents`), and even after a
  retry of the append was acknowledged from the cache (`Losses.AcknowledgedRetryIsLost`). The exact condition is the
  branch at the end of `open`: after a restart everything in memory is durable if and only if the file was cut or
  was already fully synced (`Durability.RestartCoveredExactly`, `Durability.GuardExact`), and over a whole run if and
  only if the last restart met that condition or a batch was synced since; call such a moment sheltered
  (`Durability.CoveredExactly`). At every moment of every run, nothing that can be shown to a client now can be lost
  if and only if the moment is sheltered (`Durability.ShowsDurableExactly`), whatever was lost before
  (`Durability.ShownSurvives`). What was shown at other moments is durable at the next sheltered one, unless
  power was lost in between (`Durability.ShieldedRunKeeps`). The answer to the request that wrote and synced a batch is
  always durable (`Durability.WitnessedSurvives`).
- A retry answered after a restart does not always get the original events back: the cache is reseeded event by event, so
  a batch is answered with its first event alone (`Guarantees.RestartShortensAnswer`). It gets them back if and only if
  the batch had one event and fewer than capacity other ids were touched since (`Retries.RetryAfterRestart`).
- A subscription does not always start at the requested position: from beyond the head it starts at the head
  (`Subscription.FutureStartIsIgnored`). It starts where asked if and only if that was published when it registered or
  indexed at its first read (`Subscription.StartDecidedByFirstRead`, and in every run `Guarantees.SubscribersSeeNoGap`).

The comment on `open` says that corruption followed by valid records is an error. The code reports an error only for a wrong
header magic with a later one behind it (`Recovery.RefusedExactly`); a damaged record silently cuts off its batch and
everything after it (`Recovery.DamagedRecordTruncates`). The model follows the code.

A crash model is part of the theorems: the file header is durable, a power loss leaves a prefix of the file no
shorter than the synced part, and a failed write or sync is followed by a restart.

## Model

| member | source | states |
|---|---|---|
| Bytes.LittleEndianRoundTrip | src/codec.rs:160-172 | a narrowing cast followed by `to_le_bytes` decodes to the number exactly when the cast was lossless |
| Bytes.FromLittleEndianInjective | src/codec.rs:233-238 | byte strings of one length that decode to the same number are equal |
| Bytes.LittleEndianDigit | src/codec.rs:160-172 | byte i of an encoding is the digit of weight 256^i |
| Utf8.ValidExactly | src/codec.rs:296-303 | the bytes accepted as text are exactly the encodings of sequences of Unicode scalar values |
| Crc32.UpdateConcat | src/store.rs:545-550 | hashing header and records in two updates equals hashing their concatenation at once |
| Crc32.StepInjective | src/codec.rs:176-178 | one CRC-32 step is injective in the state and in the byte |
| Crc32.HashDetectsByteChange | src/codec.rs:239-241 | changing any single byte of a buffer changes its checksum |
| Crc32.HashIsRemainder | src/codec.rs:239 | the checksum of any buffer is the inverted remainder of its bits and 32 zeros, the first 32 inverted, divided by the CRC-32 generator polynomial |
| Codec.RecordSize | src/codec.rs:153-155 | the encoding has exactly the computed total length |
| Codec.ParsePrinted | src/codec.rs:250-328 | parsing the printed fields, whatever follows the payload, returns the event |
| Codec.ParsedIsPrinted | src/codec.rs:250-328 | whatever parses is the printed form of the result followed by ignored bytes |
| Codec.DecodeRecordExact | src/codec.rs:207-334 | the decoder returns an event and a length if and only if the buffer starts with a frame of that event of that length |
| Codec.RecordRoundTrip | src/codec.rs:152-334 | every event that passes the checks of `append` decodes from its encoding followed by any bytes, consuming exactly its length |
| Codec.RecordPrefixIncomplete | src/codec.rs:207-219 | every strict prefix of an encoded record is incomplete, never corrupt |
| Codec.DecodeRecordLocal | src/codec.rs:213-222 | a decoded record depends only on the bytes it consumes |
| Codec.ByteChangeIsCorrupt | src/codec.rs:222-248 | any one-byte change of the body or checksum of any accepted record is reported as corruption |
| Codec.BatchHeaderRoundTrip | src/codec.rs:355-400 | a batch header decodes to its count and first position, whatever follows |
| Codec.BatchFooterRoundTrip | src/codec.rs:414-452 | a batch footer decodes to its checksum, whatever follows |
| Codec.FileHeaderRoundTrip | src/codec.rs:92-129 | the written file header is accepted with version 3 |
| Codec.FixedLayout | src/codec.rs:130-181 | the offsets and widths of the length prefix, the fixed fields and the checksum of a record |
| Codec.VariableLayout | src/codec.rs:152-181 | the offsets of type, metadata and payload, each behind its length |
| Codec.RecordOutcomeExact | src/codec.rs:207-248 | a buffer is incomplete exactly when shorter than its length prefix says, complete exactly when it starts with a record frame, corrupt otherwise |
| Codec.BatchHeaderExact | src/codec.rs:379-400 | a batch header is incomplete, corrupt or accepted exactly by its sixteen bytes |
| Codec.BatchFooterExact | src/codec.rs:435-452 | a batch footer is incomplete, corrupt or accepted exactly by its eight bytes |
| Codec.FileHeaderExact | src/codec.rs:92-129 | exactly one file header is written and accepted: EFDB and version 3 |
| Codec.EncodeRecord | src/codec.rs:152-181 | filling the buffer field by field and hashing it gives the record layout |
| Codec.ReadAt | src/codec.rs:257-269 | the cursor read takes the next bytes of the region or fails without moving |
| Codec.ReadFields | src/codec.rs:250-334 | the cursor version of field parsing computes the same event or failure as the parser the round-trip laws are about |
| Recovery.ParseRecordsWritten | src/store.rs:236-256 | the record loop reads back any written records, whatever follows |
| Recovery.ParseRecordsCut | src/store.rs:236-253 | records cut anywhere are incomplete |
| Recovery.ParseBatchWritten | src/store.rs:195-298 | a written batch is accepted whole, whatever follows |
| Recovery.ParseBatchCut | src/store.rs:197-285 | every strict prefix of a batch is incomplete at its header, at a record or at its footer, and which one is decided by the length |
| Recovery.ParseRecordsExact | src/store.rs:236-256 | the record loop yields these events if and only if the bytes are that many record frames of them, one behind the other |
| Recovery.ParseBatchExact | src/store.rs:195-298 | a batch is accepted if and only if its bytes are header magic, count, as many record frames, footer magic and the checksum of everything before the footer |
| Recovery.ParseBatchLocal | src/store.rs:195-298 | an accepted batch depends only on its own bytes |
| Recovery.ScanExtended | src/store.rs:189-307 | bytes behind a clean file are scanned as if alone, so they never cost an earlier batch |
| Recovery.ScanIdempotent | src/store.rs:189-307 | on arbitrary bytes, what the scan keeps scans to the same batches with nothing cut |
| Recovery.CrashAtomicity | src/store.rs:541-565 | from any file `open` accepts uncut, losing any part of an appended batch recovers all old batches and the new one if and only if all its bytes survived |
| Recovery.OpenIdempotent | src/store.rs:59-73 | reopening the file a successful `open` leaves gives the same batches and cuts nothing, for arbitrary bytes |
| Recovery.OpenWritten | src/store.rs:183-316 | a file made of written batches is recovered whole |
| Recovery.OpenCut | src/store.rs:189-307 | a written file cut anywhere behind its header opens, with exactly the whole batches, truncated to their end |
| Recovery.WholeExact | src/store.rs:189-307 | a number of leading batches counts as whole exactly when their encoding fits |
| Recovery.RefusedExactly | src/store.rs:213-231 | `open` reports corruption at position p if and only if, behind clean bytes holding p events, sixteen bytes do not start with the header magic and that magic occurs later; its only other error is about the file header |
| Recovery.InvalidHeaderExactly | src/store.rs:168-181 | `open` rejects the file header if and only if the file does not start with EFDB and version 3 |
| Recovery.DamagedRecordTruncates | src/store.rs:243-253 | a one-byte change in the body or checksum of any record of any batch makes `open` recover exactly the batches before it, without an error |
| Recovery.DamagedEnvelopeTruncates | src/store.rs:258-298 | a one-byte change of the first position, the footer magic or the batch checksum of any batch makes `open` recover exactly the batches before it |
| Recovery.DamagedCountTruncates | src/store.rs:235-285 | so does another record count, a smaller one always and a larger one in any file of less than a gigabyte behind it |
| Index.ProjectAtVersion | src/store.rs:86-88 | each event is in its stream's filtered log at its version |
| Index.IndexIsProjection | src/store.rs:300-306 | for any events, a stream's list is the positions of the filtered log, and exists exactly when that is not empty |
| Index.BulkIndexIsRebuilt | src/store.rs:567-575 | the bulk index update of `append` gives the index `open` rebuilds event by event |
| Index.StreamsPartitionPositions | src/store.rs:82-89 | position i is entry k of a stream's list if and only if the stream is that of event i and k its version |
| Index.ReadStreamIsWindow | src/reader.rs:127-147 | `read_stream` equals the saturating window of the log filtered to the stream, and errs exactly when that is empty |
| Index.ReadAllIsWindow | src/reader.rs:163-169 | `read_all` equals the saturating window of the log |
| Reader.ReadIndex.StreamVersion | src/reader.rs:55-60 | the version is one less than the number of the stream's events, and absent when there are none |
| Reader.ReadIndex.ReadStream | src/reader.rs:127-147 | the loop over positions returns the window of the filtered log, or StreamNotFound |
| Reader.ReadIndex.ReadAll | src/reader.rs:163-169 | the slice returned is the window of the log |
| Appending.BuildBatchExact | src/store.rs:499-539 | a batch is built if and only if every event has a type of 1 to 256 bytes and a record of at most 64 KiB; event i then carries the id, type, metadata and payload proposed, the time, and the next position and version |
| Appending.FirstOffenderDecides | src/store.rs:493-533 | the first unacceptable event decides the error, by its type before its size, and the reported size is that of its record |
| Appending.VersionExact | src/store.rs:457-485 | the version check passes if and only if the number of the stream's events is any, zero or one more than the exact version, as expected |
| Appending.AppendExact | src/store.rs:443-578 | an append fails for its version exactly then, and else succeeds exactly when all events are acceptable; the stream then reads on with exactly the proposed contents, and no other stream changes |
| Appending.AppendKeepsConsistent | src/store.rs:453-575 | a successful append yields a writable batch and a log that is again well positioned and indexed |
| Store.HasValidBatchAfter | src/store.rs:30-37 | the probe loop finds a later header if and only if there is one |
| Store.DecodeRecords | src/store.rs:235-256 | the record loop with its offset computes the specified result |
| Store.ReadBatch | src/store.rs:195-298 | one iteration of the recovery loop accepts, flags or rejects a batch as specified |
| Store.Commit | src/store.rs:300-306 | pushing events one by one keeps the index equal to the index of the events |
| Store.ScanFile | src/store.rs:183-307 | the recovery loop returns the flattened batches of the scan, their index and the end offset, or the corruption error at the right position |
| Store.Open | src/store.rs:137-316 | a missing file is created with a synced header; otherwise result, kept bytes and synced length are those of the specification, and the store represents the recovered batches |
| Store.CheckVersion | src/store.rs:457-485 | the version check passes exactly when the expectation holds for the length of the stream's list |
| Store.BuildRecords | src/store.rs:493-539 | the validation loop returns the first error, or the positioned events and their concatenated encoding |
| Store.Envelope | src/store.rs:541-559 | header, records and incrementally hashed footer form the specified batch encoding |
| Store.WholeBatchAdded | src/store.rs:561-575 | a file and log that represent some batches represent one more after an append |
| Store.Store.Append | src/store.rs:443-578 | a version error comes exactly when the stream has not the expected number of events; a rejected append changes nothing; an accepted one records what was proposed, field by field, appends its envelope, syncs, extends the log, and the store then represents the old batches and the new one |
| Dedup.HoldsMostRecent | src/dedup.rs:58-79 | after any history an id is cached if and only if it was touched and fewer than capacity distinct ids were touched since, and it then maps to its latest batch |
| Dedup.SeededExact | src/dedup.rs:94-102 | after seeding, the last capacity distinct ids of the log are cached, each with its latest event alone |
| Dedup.RecordedExact | src/dedup.rs:74-79 | after recording a batch on any history, each of its ids is cached exactly when fewer than capacity distinct ids were touched since, with the whole batch, and all are when the batch fits |
| Dedup.AccessesKeepAgreement | src/dedup.rs:74-102 | if every put is a contiguous slice of the log with that id, every entry stays one as the log grows |
| Dedup.RecordedAreSlices | src/dedup.rs:74-79 | the entries of a newly appended batch are slices of the extended log |
| Dedup.SeededAreSlices | src/dedup.rs:94-102 | the entries seeded from a log are slices of it |
| Dedup.DedupIndex.constructor | src/dedup.rs:38-42 | a new index is empty |
| Dedup.DedupIndex.Check | src/dedup.rs:58-62 | answers the batch under the first proposed id; a hit becomes the most recently used id, nothing is dropped, and a miss changes nothing |
| Dedup.DedupIndex.Record | src/dedup.rs:74-79 | every id of the batch now maps to the whole batch, as far as the capacity reaches, in recency order |
| Dedup.DedupIndex.SeedFromLog | src/dedup.rs:94-102 | the cache is that of putting each event alone, oldest first |
| Broker.SendCarries | src/broker.rs:60-67 | after a send the ring again holds the last capacity messages |
| Broker.ReceiveExact | src/broker.rs:147-167 | a receiver gets exactly the next message, or a lag report exactly when more than capacity messages are ahead |
| Broker.NewReceiver | src/broker.rs:78-80 | the same for any ring and any events sent after the registration |
| Broker.Broker.constructor | src/broker.rs:42-47 | a new broker has sent nothing |
| Broker.Broker.Publish | src/broker.rs:60-67 | the ring carries the earlier messages followed by the published events in order |
| Broker.Broker.Subscribe | src/broker.rs:78-80 | a new receiver gets nothing of what was sent before, and exactly the events published from now on, in order, unless more than capacity are ahead of it |
| Subscription.ReadBatchIsWindow | src/broker.rs:126-127 | a catch-up read returns the next 500 events of the log or of the stream's filtered log |
| Subscription.RegisterOk | src/broker.rs:118-123 | a new subscription satisfies the invariant, counts from the messages published so far and has delivered nothing |
| Subscription.PollOk | src/broker.rs:120-170 | every step of a subscription keeps the invariant |
| Subscription.GrowOk | src/store.rs:567-575 | indexing more events keeps it |
| Subscription.PublishOk | src/broker.rs:60-67 | publishing the next indexed event keeps it |
| Subscription.DeliveryExact | src/broker.rs:112-171 | delivered events are consecutive events of the log or stream, keys rising by one with none foreign, starting at the requested key if and only if it was published at registration or indexed at the first read |
| Subscription.StartDecidedByFirstRead | src/broker.rs:120-156 | polled through any states of the server, a subscription starts at the requested key if and only if that was published at registration or in the log its first poll read |
| Subscription.FutureStartIsIgnored | src/broker.rs:146-155 | a subscription from a position that does not exist yet delivers earlier positions |
| Subscription.DrainedIsComplete | src/broker.rs:145-156 | a live subscription that has drained the ring has delivered the whole rest of its log or stream |
| Subscription.TraceShape | src/broker.rs:209-277 | messages are events, then CaughtUp, then events, then at most one error that ends the subscription |
| Subscription.OverrunEnds | src/broker.rs:157-163 | the next poll ends with the lag error if and only if more than capacity messages are ahead of the receiver |
| Subscription.LivePollExact | src/broker.rs:145-170 | a live subscription ends exactly when overrun or at the end of a closed ring; otherwise it takes a waiting message or stays as it is; an ended one is final |
| Subscription.DrainsRing | src/broker.rs:145-156 | a live subscription that is not overrun drains the ring in one poll per message, is still live, and has then delivered everything published |
| Subscription.CatchUpEnds | src/broker.rs:120-143 | on a quiescent log a catch-up ends after one poll per event, one per read and one more, live, with the whole rest delivered and the seam marked |
| Subscription.FetchesExact | src/broker.rs:120-143 | polled in any way on a quiescent log, a subscription goes live after exactly those reads and never makes more |
| Subscription.YieldBatch | src/broker.rs:126-133 | yielding one batch appends exactly the next window and moves the cursor behind it |
| Subscription.CatchUpLoop | src/broker.rs:120-143 | on a quiescent log the loop yields the rest and makes exactly (N - from) / 500 + 1 reads |
| Subscription.Subscriber.Next | src/broker.rs:200-279 | the in-place step is the specified one, whose safety and progress are proved, and keeps the invariant |
| Writer.ValidateBatchUniqueIds | src/writer.rs:129-143 | true exactly when no two events share an id |
| Writer.SpawnOk | src/writer.rs:301-310 | a recovered log with a freshly seeded cache satisfies the writer's invariant |
| Writer.TestsBeforeAppend | src/writer.rs:196-220 | repeated ids are refused with InvalidArgument before anything else and leave no trace; a cached id gets the cached events, becomes the most recently used, and writes nothing |
| Writer.NewRequestExact | src/writer.rs:222-265 | a new request fails for its version exactly when the stream has not the expected number of events, else with the complaint about its first bad event, and else is stored as proposed |
| Writer.ProcessKeepsOk | src/writer.rs:196-266 | every request keeps log, index, file and cache in agreement, and the log only grows |
| Writer.RunKeepsOk | src/writer.rs:180-267 | over any queue the invariant holds at the end |
| Writer.RunPublishes | src/writer.rs:228-257 | over any queue the published sequence is exactly what the log gained, in order |
| Retries.RetryExact | src/writer.rs:208-220 | a later request with any id of a written batch is answered as the original was, changing neither file, log nor published sequence, if and only if fewer than capacity distinct other ids were touched since |
| Retries.AnswersAfterRestart | src/writer.rs:208-220 | after a restart and any requests that do not write the id, a request is answered from the cache if and only if the log had the id and it is inside the window, with the latest event of that id alone and no other effect |
| Retries.RetryAfterRestart | src/dedup.rs:94-102 | for a batch a request wrote, any further events of the log over any number of restarts, a restart, and any requests again: a retry with any of its ids is answered as the original was if and only if the batch had one event and fewer than capacity distinct other ids were touched since; inside that window it gets that one event alone and file, log and published sequence stay |
| Draining.SameBatch | src/store.rs:493-539 | the timestamp influences neither acceptance nor positions nor sizes |
| Draining.DrainingUnobservable | src/writer.rs:180-192 | any two groupings of one queue, with any clocks, give equal answers, logs, indexes, caches and publications up to timestamps |
| Writer.WriterTask.constructor | src/writer.rs:291-310 | the task starts from the store's log with a seeded cache |
| Writer.WriterTask.Handle | src/writer.rs:196-266 | one request has the specified answer, state and publications |
| Writer.WriterTask.RunWriter | src/writer.rs:173-269 | draining and handling equals processing the stamped requests one at a time |
| Preservation.StepOk | src/writer.rs:173-269 | every step of writer, readers, subscribers, crashes and restarts keeps the system invariant |
| Preservation.ReachableOk | src/writer.rs:173-269 | the invariant holds in every state a new server can get into |
| Guarantees.Layers | src/store.rs:561-577 | in every reachable state of a running server, reopening the file gives exactly the written batches and cuts nothing, durable and indexed events are prefixes of the written ones, the ring carries exactly the published ones, the index is the rebuilt one, every cached answer is a slice of the log |
| Preservation.DurableGrows | src/store.rs:561-565 | in every step, crashes and restarts included, what is durable stays durable at the same positions |
| Durability.DurableForever | src/store.rs:183-307 | the same over every run |
| Preservation.RestartRecovers | src/store.rs:183-316 | opening the file of any reachable state succeeds with exactly its whole batches |
| Preservation.RestartOk | src/store.rs:137-316 | a restart always succeeds and restores the invariant |
| Preservation.RestartRebuilds | src/store.rs:137-316 | a restart keeps exactly the batches the file holds in full, with the index rebuilt, the cache reseeded from them and an empty channel |
| Durability.RestartCoveredExactly | src/store.rs:309-315 | after a restart everything in memory is durable if and only if the file was cut or was already fully synced |
| Durability.CoveredStep | src/store.rs:561-577 | in every step but a power loss, exactly when memory goes on to hold only durable events: a restart decides anew, a sync always does, nothing else changes it |
| Durability.CoveredExactly | src/store.rs:309-315 | over every run of a new server, memory holds only durable events if and only if the last restart met that condition or a batch was synced since |
| Durability.GuardExact | src/store.rs:309-315 | from any crashed state, everything clients are shown in every careful continuation is durable if and only if the restart meets that condition |
| Durability.SeenStep | src/reader.rs:127-169 | in every step, clients are shown only events of the log in memory |
| Durability.CarefulRunKeeps | src/store.rs:309-315 | over every run whose restarts all meet the condition, everything shown to clients is durable |
| Durability.IntactStep | src/store.rs:561-565 | what clients were shown stays in the file in every step, except a power loss while some of it is not durable |
| Durability.SyncKeeps | src/store.rs:561-565 | the next sync makes everything durable that was shown and is still in the file |
| Durability.RestartKeeps | src/store.rs:309-315 | so does a restart that cuts the file or finds it synced |
| Durability.ShieldedRunKeeps | src/store.rs:309-315 | over every run with power losses only at sheltered moments, everything shown to clients is in the file, and durable at every sheltered moment |
| Durability.CarefulIsShielded | src/store.rs:309-315 | if every restart met the condition, every moment is sheltered |
| Durability.ShowsDurableExactly | src/store.rs:309-315 | at every moment of every run of a running server, everything any step can show is durable when shown, if and only if the moment is sheltered |
| Durability.WitnessedIsDurable | src/writer.rs:208-265 | in every run of a new server, the answer to the request that wrote a batch is durable; at every sheltered moment so is everything ever read, delivered or answered from the cache, if power was only lost at sheltered moments |
| Durability.SurvivesExactly | src/store.rs:309-315 | an event survives every possible power loss if and only if it is in the synced part of the file |
| Durability.WitnessedSurvives | src/store.rs:561-577 | after any further run, sheltered or not, and any power loss, `open` succeeds and recovers such an event at the same global position and stream version |
| Durability.ShownSurvives | src/store.rs:561-577 | the same for an event shown by a step at a sheltered moment, whatever restarts and losses came before |
| Losses.KillInWindowLosesEvents | src/store.rs:309-315 | for any capacities and any first request: after a kill between write and sync, a restart, a read and a power loss, the event read is gone |
| Losses.AcknowledgedRetryIsLost | src/writer.rs:208-220 | after a kill between write and sync and a restart, the retry of the append is acknowledged, and a power loss takes the acknowledged event away |
| Losses.ExposedReadIsLost | src/store.rs:309-315 | in every state where memory holds more than is durable, a client can read an event that a power loss then takes away |
| Losses.ExposedRetryIsLost | src/writer.rs:208-220 | a retry answered from the cache with events that are not durable is acknowledged and can then be lost |
| Losses.SomeRequestWrites | src/store.rs:443-578 | for any stream and event id there is a request that starts these runs |
| Guarantees.OptimisticConcurrency | src/store.rs:457-485 | over any run, no two acknowledged requests that wrote to a stream carried the same exact version, and no two carried NoStream |
| Guarantees.StreamCreatedTwice | src/writer.rs:208-220 | a run in which two clients are told that they created the same stream: the first by a retry that is acknowledged from the cache and then lost |
| Guarantees.SubscribersSeeNoGap | src/broker.rs:112-279 | in every run every subscriber's deliveries are gap-free and duplicate-free, start where asked exactly under that condition, and its messages have the promised shape |
| Guarantees.UninterruptedWrite | src/writer.rs:222-265 | the steps of a write, left alone, amount to one turn of the writer loop |
| Guarantees.CleanRestart | src/store.rs:183-316 | a server stopped between requests comes back with the same file and log, and the writer starts from them |
| Guarantees.RestartShortensAnswer | src/dedup.rs:94-102 | a run in which a request is answered with its whole batch, and after a restart with the first event alone, for any batch of two or more that fits the cache |
| Guarantees.SomePairWrites | src/store.rs:443-578 | there is a request that starts that run |
| Progress.NeverStuck | src/writer.rs:173-269 | in every reachable state a crashed server can restart, a running one serves every read, subscription and poll, an idle open one takes every request that fits, and a busy one can take the writer's next step |
| Progress.RunsShowEverything | src/writer.rs:208-265 | in every run, every event of an answer or sent to a subscriber counts as shown in the durability theorems |
| Progress.ReadsShowWindows | src/reader.rs:127-169 | a read shows exactly the window of the log, or of the log filtered to the stream, that was asked for |
| Progress.SubscriberCatchesUp | src/broker.rs:112-143 | in every reachable running state, a client that subscribes and polls goes live after the stated number of polls, having been sent exactly the events from where it asked |
| Progress.SubscriberDrains | src/broker.rs:145-156 | in every reachable idle state, a live subscriber that is not overrun and polls once per waiting message is still live and has been sent everything |
| Progress.ClosedServerEnds | src/broker.rs:164-167 | after a shutdown no request is taken and a drained live subscriber ends at its next poll |

## Left out

- `src/service.rs`, `src/auth.rs`, `src/main.rs`, `src/metrics.rs`, `build.rs`: gRPC, tokens, configuration and counters; only the non-empty guard on requests is used.
- `eventfold-console/`: the terminal client.
- `list_streams`: a summary of the stream lists sorted by id; `Index.IndexIsProjection` and `Reader.ReadIndex.StreamVersion` cover its numbers.
- Store.Store.Append: requires a non-empty batch of fewer than 2^32 events, which the service guarantees, and room in memory (a `Vec` holds at most `isize::MAX` items).
- Store.Open: does not model I/O errors, the parent-directory sync, or a crash during the creation of the file.
- Durability.WitnessedSurvives: does not cover events read, delivered or answered from the cache at a moment that was not sheltered and followed by a power loss before the next one that is, because they can be lost; `Durability.ShowsDurableExactly` is the exact statement.
- Guarantees.OptimisticConcurrency: speaks of requests that wrote, not of acknowledgements from the retry cache, for which it is false; `Guarantees.StreamCreatedTwice` is a run.
- Retries.RetryExact: covers retries without a restart in between; `Retries.RetryAfterRestart` covers those over any number of restarts. Both speak of an id that was not written again in between.
- Reader.ReadIndex.ReadStream: requires the log of a file this code wrote; on foreign bytes with wrong positions the source may index out of bounds.
- Broker.ReceiveExact: the capacity is the effective one (the channel rounds it up to a power of two), and a send without receivers is kept in the ring, which no receiver can notice.
- The mpsc and oneshot channels of the writer, dropped response receivers, lock poisoning and the clock: a queue is a sequence of drained groups with one time stamp each.
- Recovery.DamagedCountTruncates: does not cover a larger count with a gigabyte or more behind it, where the footer can be taken for the length of a record and the outcome depends on checksums of arbitrary bytes; the same holds for damaged length prefixes of records.
- Error texts: only the error variants and the position of the corruption error are kept.
