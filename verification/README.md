# Bottled Water, modelled in Dafny

Bottled Water copies a Postgres database into Kafka. A plugin inside Postgres turns
row changes into frames of messages; a client reads the frames from a replication
slot, produces one Kafka record per row change, and reports back to Postgres how far
it has got. This project models the parts of it that have to be right for no update
to be lost, and proves what they guarantee.

`dafny verify dfyconfig.toml` checks everything.

## How it is organised

| file | what it models |
|---|---|
| `Ring.dfy` | the circular buffer of in-flight transactions and the checkpoint loop, as values |
| `Producer.dfy` | the producer's callbacks, updating that buffer in place |
| `Protocol.dfy` | the slot, the client process and Kafka as one state machine with crashes and restarts |
| `Invariant.dfy`, `Preservation.dfy` | its invariant, and the proof that every step keeps it |
| `Guarantees.dfy`, `SnapshotGuarantees.dfy` | what follows for every run |
| `Progress.dfy` | when a running process can still get everything acknowledged |
| `Convergence.dfy` | log-compacted topics after crashes and replays |
| `Wire.dfy`, `Translation.dfy` | row changes, messages, records; compaction gives the table back |
| `EndToEnd.dfy` | the two together: table, crashes and replays, compacted topic |
| `AvroName.dfy`, `Columns.dfy` | identifier escaping; columns, dropped columns and Avro fields |
| `SchemaCache.dfy`, `ProtocolServer.dfy` | the plugin's schema cache and the frames it builds |
| `FrameReader.dfy`, `SchemaAgreement.dfy` | the client's schema list; both ends agree on schemas |
| `Topics.dfy`, `TableMapper.dfy` | from a table to its topic; the producer's table of topics and schemas |
| `Export.dfy`, `Writer.dfy` | the resumable snapshot export; the growing-buffer writer |
| `Witnesses.dfy` | inputs at which the code does not do what is promised of it |

A process of the protocol model runs the same operations on `Ring.Ctx` that the
methods of the `Producer` class are proved to compute. Callbacks that run while a
callback is blocked are separate steps, so a delivery report or a status update may
come in the middle of a frame.

## What is assumed of the environment

These are the enabling conditions in `Protocol.dfy`.

- Transactions arrive one at a time, as begin, rows and commit, with strictly
  increasing commit positions; no position inside a transaction exceeds its commit.
- A keepalive position is at least the slot's start position and below the commit of
  every transaction not yet sent in full.
- After a restart the server resends exactly the transactions that commit above the
  position it holds. A status update may be lost, and between two processes the
  server may fall back to an older position.
- Kafka stores the messages of one key in the order they were enqueued, each at most
  once per process, and reports success only for a stored message. What was not
  stored when the process ended is lost.
- A row's bytes decode with the schemas they were encoded with; what other bytes do
  is left open (`SchemaAgreement.DecodesItsOwn`).
- The position recorded for a commit is the one in the header of the stream message;
  the position inside the commit frame is never read by the client.

## Where the code and its description differ

Each comes with the exact condition, and, where that condition could look vacuous,
with an input that fails it.

- The README says a snapshot of the database is exported. The table list that decides
  which rows are sent is read only on the streaming branch, so no row of the snapshot
  is ever sent (`SnapshotRowsNeverSent`; a run in `SnapshotsAreSkipped`).
- The README says that under the log policy an update that fails is dropped and
  acknowledged. A send that fails before Kafka has taken the message stays charged to
  its transaction: the process never acknowledges that transaction or any later one,
  and blocks for good within a thousand transactions (`FailedSendNeverAcknowledged`,
  `FailedSendStalls`). `CanFlushIff`, `QuietRingEmpty` and `QuietKeepaliveAcknowledges`
  give the exact condition, `SendsCanFail` a run.
- The slot is meant to be dropped so that an unfinished snapshot is retried. A shutdown
  by signal exits with status zero and keeps it (`ExitOrphans`, `KillOrphans`,
  `OrphanedForever`; a run in `SnapshotsCanBeOrphaned`).
- The comment in `ext/protocol_server.c:115-116` says when an update carries the old
  tuple with the condition on the key reversed; `TopicIsTable` says what is needed.
- The topics are meant to keep the latest version of each row. A change of the key's
  encoding makes later changes miss the record of a row written before it
  (`ChangeAgrees`, `FindOldIff`; an example in `KeySchemaChangeLeavesRecord`).
- The namespace mode of the escaping is described as giving a sequence of names. It
  passes a digit, or another dot, through after a dot (`NamespaceValidIff`,
  `NamespaceCanBeInvalid`).
- The comment on the escaping's buffer of four bytes per byte says that at least three
  are always left over. When every byte is escaped none is, and the terminating byte
  has no room (`RoomForTerminator`, `NameCanFillBuffer`).
- The README's example of a topic name shows a schema `point-of-sale` as it is. Its
  hyphens are escaped (`SchemaShownIff`). Each table is said to have its own topic;
  names that are escaped alike, or agree on the first 127 bytes, share one
  (`SameTopicIff`, `TopicsDistinct`, `LongNamesShareTopic`).
- The placeholder field is described as being for tables whose columns were all
  dropped. Such tables still have descriptor entries and get no field
  (`SchemaForTableRow`, `DroppedTableHasNoField`).
- A schema build that fails leaves its entry in the cache, and the next lookup reports
  it as unchanged (`FailedBuildSticks`). Whether a lookup has schemas depends on one
  build alone (`SchemasIff`).
- Under the log policy a row that does not decode is reported and then handed to the
  callback like any other (`ProcessMessage`).

## Model

| member | source | states |
|---|---|---|
| Ring.CheckpointStops | kafka/bottledwater.c:699-736 | from any head, tail and slot contents the checkpoint loop takes at most one lap of the buffer |
| Ring.CheckpointPopsReadyPrefix | kafka/bottledwater.c:699-736 | seen as a FIFO queue, the loop pops exactly the maximal prefix of finished transactions, sets the flush position to the last one popped, clears the snapshot flag exactly if the snapshot was among them |
| Ring.BeginAppends | kafka/bottledwater.c:466-471 | beginning a transaction on a buffer that is not full appends it to the queue |
| Ring.Capacity | kafka/bottledwater.c:103-111 | seen as a queue, the buffer is full with exactly a thousand transactions and empty with none |
| Ring.NewestChanges | kafka/bottledwater.c:491-493 | charging an event and recording a commit change the newest transaction of the queue alone |
| Ring.ReportedChanges | kafka/bottledwater.c:688 | a report changes the transaction it is about alone |
| Ring.WalkUnusedSlots | kafka/bottledwater.c:700-735 | entered past the snapshot, the loop runs round all unused slots and arrives at slot 0 with flush position 0 |
| Ring.CheckpointDuringSnapshot | kafka/bottledwater.c:699-736 | while only the snapshot has begun: tail on slot 0 exactly if events are pending, else 1; flush position zero or the snapshot's; flag cleared only if committed with nothing pending |
| Ring.CheckpointIgnoresReceived | kafka/bottledwater.c:699-736 | the loop neither reads nor changes the received position |
| Producer.Producer.constructor | kafka/bottledwater.c:786-803 | the buffer starts out empty, all slots zero |
| Producer.Producer.MaybeCheckpoint | kafka/bottledwater.c:699-736 | the in-place loop computes the checkpoint operation |
| Producer.Producer.OnDeliverMsg | kafka/bottledwater.c:669-692 | a report takes one event off the slot the envelope points at and checkpoints, or ends the process under the exit policy, changing nothing |
| Producer.Producer.Backpressure | kafka/bottledwater.c:744-758 | the next reports are handled in order, up to the first that ends the process; then a shutdown signal ends it with status zero; otherwise a due status update carries the two positions, and failing to send it is fatal |
| Producer.Producer.OnBeginTxn | kafka/bottledwater.c:444-474 | blocks exactly while a thousand transactions are in flight; with fewer it succeeds at once; whatever the outcome, exactly the reports of the rounds made were handled, in order; the process ends only on a failed report under the exit policy, a shutdown signal or a status update that cannot be sent, and on a snapshot anywhere but first |
| Producer.Producer.OnCommitTxn | kafka/bottledwater.c:476-494 | records the commit and checkpoints, or is fatal with nothing changed if the transaction ids differ |
| Producer.Producer.SendKafkaMsg | kafka/bottledwater.c:580-664 | charges the event before anything can fail and never undoes it; the envelope points at the slot charged; the call is repeated exactly while the queue is full and the message not taken; it succeeds as soon as the message is taken and fails only if it is refused otherwise; the process ends only for the same reasons; exactly the reports polled were handled, in order |
| Producer.Producer.ParseKeepalive | client/replication.c:253-297 | received position rises; flush position follows it exactly on an empty buffer; a reply, if asked for, carries both |
| Invariant.Drain | kafka/bottledwater.c:699-736 | seen from the transactions, the tail moves over exactly the leading committed ones with nothing outstanding |
| Preservation.StepKeeps | kafka/bottledwater.c:444-736 | every step of the protocol keeps the invariant |
| Preservation.RunInv | kafka/bottledwater.c:444-736 | every state of every run satisfies it |
| Guarantees.AtLeastOnce | kafka/bottledwater.c:694-736 | every row of a stream transaction at or below the position held by the server was acknowledged or deliberately skipped; under the log policy it may be logged as dropped |
| Guarantees.NothingLost | README.md:229-238 | exit policy, table always active, not a keyless delete: the row was acknowledged by Kafka before the server could forget it, over any number of crashes |
| Guarantees.ActiveNotSkipped | client/protocol_client.c:29-40 | over a whole run, rows of a table that stays active are skipped only if they are deletes without a key |
| Guarantees.CheckpointSafety | kafka/bottledwater.c:564-572 | whatever set the flush position, it never covers a transaction not fully received, with an event outstanding or with an unhandled row |
| Guarantees.FlushMonotone | kafka/bottledwater.c:710-723 | the flush position of a process never decreases, so commits are always checkpointed in WAL order |
| Guarantees.StatusWithinReceived | client/replication.c:344-369 | no status update, even from inside a frame, reports more than was received; only the process that took the snapshot may report the slot's start before receiving anything |
| Guarantees.ReceivedIsLargest | client/replication.c:276-331 | as long as a process runs, its received position is the largest it has been sent |
| Guarantees.EnvelopeOwnership | kafka/bottledwater.c:588-593 | every outstanding envelope points at the slot of the transaction that created it, and the next slot to be used is referenced by none |
| Guarantees.PendingConserved | kafka/bottledwater.c:584-586 | each pending count is the outstanding envelopes plus local failures plus the event being sent |
| Guarantees.FatalChecksNeverFire | kafka/bottledwater.c:485-489 | the mismatch and misplaced-snapshot checks never end a process |
| Guarantees.QuietRingEmpty | kafka/bottledwater.c:564-572 | with nothing outstanding between transactions the buffer is empty if and only if no send failed locally |
| Guarantees.QuietKeepaliveAcknowledges | client/replication.c:276-291 | then a keepalive acknowledges everything received if and only if no send failed locally |
| Guarantees.FailedSendNeverAcknowledged | kafka/bottledwater.c:650-657 | after a local failure the process never acknowledges that transaction or a later one |
| Guarantees.FailedSendStalls | kafka/bottledwater.c:457-464 | and takes in fewer than a thousand further transactions |
| Progress.CanAlwaysFlush | kafka/bottledwater.c:694-736 | from every reachable state of a process without local failures some continuation, the process running throughout, has every commit acknowledged |
| Progress.CanFlushIff | kafka/bottledwater.c:584-601 | such a continuation exists if and only if no send of the process failed locally |
| SnapshotGuarantees.SnapshotWrapAround | kafka/bottledwater.c:699-736 | for any traffic during the snapshot: tail 0 or 1, flush position 0, flag set; at the commit the flag is cleared exactly if nothing is pending |
| SnapshotGuarantees.SnapshotFlagCleared | kafka/bottledwater.c:725-735 | whatever transactions follow the commit, the flag is set exactly until the last event pending at the commit is reported, with the tail on slot 0 and flush position 0 until then |
| SnapshotGuarantees.SnapshotRowsNeverSent | client/connect.c:132-142 | on every run no snapshot row is charged, stored, acknowledged or dropped |
| SnapshotGuarantees.SnapshotHandled | kafka/bottledwater.c:725-728 | unless some process left the slot behind, a snapshot that is over had all its rows handled |
| SnapshotGuarantees.ExitOrphans | kafka/bottledwater.c:862-870 | an exit during an unfinished snapshot leaves an unfinished slot if and only if the status is zero or the drop fails |
| SnapshotGuarantees.KillOrphans | client/connect.c:83-100 | a kill during an unfinished snapshot always leaves one |
| SnapshotGuarantees.OrphanedForever | client/connect.c:83-100 | such a slot stays unfinished, and each snapshot row not yet handled is never handled, on any continuation |
| Convergence.UninterruptedIsNewest | kafka/bottledwater.c:538-562 | one pass over the log leaves each key with its newest event |
| Convergence.ReplayConverges | kafka/bottledwater.c:704-723 | under either policy, after any crashes, replays and failures, a process that got through the log leaves each key whose newest event was kept with the message an uninterrupted run leaves |
| Convergence.ConvergedIffStored | kafka/bottledwater.c:580-664 | for a key this process has stored something for, the topic has the newest event if and only if the process stored it; a local failure of that event leaves the key out of date |
| Convergence.ExitPolicyKeeps | README.md:229-238 | under the exit policy the newest event of every key of a table that stays active is kept |
| EndToEnd.TopicsConverge | kafka/bottledwater.c:704-723 | the whole compacted topic of a table whose newest events were kept equals that of an uninterrupted run |
| EndToEnd.TopicIsTheTable | README.md:268-273 | and holds exactly the rows of a table that was empty at slot creation, each under its key and with its value as encoded when it was last written, however the schemas changed on the way |
| EndToEnd.ExitPolicyTopicIsTheTable | README.md:229-238 | under the exit policy that holds of every table that stays active |
| Translation.ChangeAgrees | ext/protocol_server.c:103-171 | one change keeps topic and table in agreement if and only if it carries the old tuple wherever an old key disappears and encodes the row's key as the row's last write did |
| Translation.TopicIsTable | ext/protocol_server.c:78-171 | for every valid sequence of changes, under schemas that may change in between, topic and table agree throughout if and only if all of them do |
| Translation.FindOldIff | ext/protocol_server.c:103-171 | for a table that starts empty, that condition read off the sequence of changes |
| Translation.SameKeyEncoding | ext/protocol_server.c:103-171 | as long as the key's encoding stays the same, only the old tuples matter |
| Translation.ImageIsLastWrite | ext/protocol_server.c:78-143 | each row is kept as the last change that wrote it encoded it |
| Translation.CompactedIsTable | README.md:268-273 | compacting all records from an empty table gives the table's rows, each as encoded when it was last written |
| Wire.AllRowsSent | kafka/bottledwater.c:538-562 | of any frame, exactly the new rows are sent, in order, with or without a key, and exactly the deletes with a key |
| Wire.UpdateSent | ext/protocol_server.c:126-139 | an update stores its new row, and removes the old key exactly if the key changed |
| EndToEnd.SentAsRecorded | kafka/bottledwater.c:538-562 | the protocol hands a row to Kafka exactly when the row callbacks make a record of it |
| AvroName.MakeAvroSafe | ext/oid2avro.c:823-852 | the loop computes the escaping |
| AvroName.EscapeSize | ext/oid2avro.c:826-832 | at most four bytes per byte, at least one |
| AvroName.RoomForTerminator | ext/oid2avro.c:831-850 | four bytes per byte leave room for the terminating byte if and only if some byte is not escaped |
| AvroName.EscapeIsValid | ext/oid2avro.c:797-803 | every non-empty identifier becomes a valid Avro name |
| AvroName.UnchangedIffValid | ext/oid2avro.c:836-849 | an identifier is unchanged if and only if it is a valid Avro name |
| AvroName.EscapeCollides | ext/oid2avro.c:811-817 | every identifier that is changed collides with a name that is not |
| AvroName.UnescapeInverts | ext/oid2avro.c:797-800 | identifiers without underscores can be read back, in both modes |
| AvroName.EscapeInjective | ext/oid2avro.c:811-817 | and are never mapped to the same name |
| AvroName.NamespaceValidIff | ext/oid2avro.c:805-807 | a namespace comes out valid if and only if no inner dot is followed by a digit or an inner dot |
| AvroName.ValidNamespaceKept | ext/oid2avro.c:836-849 | a valid namespace is left unchanged, alone or in front of a schema's name |
| Columns.SchemaForTableRow | ext/oid2avro.c:122-182 | one field per live column, in order, always a valid name; no field and no placeholder if and only if there are columns and all are dropped |
| Columns.OwnDescriptor | ext/protocol_server.c:70-77 | the relation's own descriptor is one that leaves out no column |
| Columns.SnapshotDescriptor | ext/protocol_server.c:70-77 | a result set's descriptor is one that leaves out all dropped columns |
| Columns.SameLiveColumns | ext/protocol_server.c:74-77 | leaving out dropped columns does not change the live ones |
| Columns.FieldColumn | ext/oid2avro.c:165-178 | the field written from a live column is the one its schema entry was made from, at the position the tuple's own descriptor gives it |
| Columns.TupleToAvroRow | ext/oid2avro.c:187-213 | live columns go to consecutive fields, exactly filling the schema, each of the Postgres type its field was made for, for any descriptor that leaves out dropped columns |
| Columns.FindKeyColumn | ext/oid2avro.c:235-247 | the search stays in bounds and ends on exactly the indexed column, for any such descriptor |
| Columns.TupleToAvroKey | ext/oid2avro.c:221-260 | the key has the indexed columns' values in index order, exactly filling the key schema, each of the Postgres type its field was made for |
| SchemaCache.EntryChanged | ext/schema_cache.c:137-163 | reports a change if and only if some input of the schemas differs |
| SchemaCache.FreshNames | ext/oid2avro.c:131-141 | schemas are named after the table or the index, in the namespace of the prefix, a dot and its Postgres schema |
| SchemaCache.Cache.EntryUpdate | ext/schema_cache.c:83-130 | stores the description and the schemas a fresh build gives, or the description alone |
| SchemaCache.Cache.Lookup | ext/schema_cache.c:46-80 | code and schemas as determined by the history of lookups |
| SchemaCache.CacheTransparent | ext/schema_cache.c:42-46 | over any lookups: 2 on first sight, 0 if and only if nothing changed since the last, else 1, negated on failure; the schemas are fresh ones if no build of this relation failed |
| SchemaCache.SchemasIff | ext/schema_cache.c:46-80 | over any lookups, whichever builds fail, a lookup has schemas if and only if the build succeeded where the relation took on the description it has |
| SchemaCache.FailedBuildSticks | ext/schema_cache.c:70-76 | after a failed build every later lookup says unchanged, without schemas |
| ProtocolServer.Plugin.UpdateFrameWithInsert | ext/protocol_server.c:78-99 | the schemas if new or changed, then the insert, encoded with them from the right columns; the schemas alone if the tuple cannot be converted |
| ProtocolServer.Plugin.UpdateFrameWithUpdate | ext/protocol_server.c:103-143 | the same for an update, as a delete and an insert if the key changed |
| ProtocolServer.Plugin.UpdateFrameWithDelete | ext/protocol_server.c:147-171 | the same for a delete, with the key only if there is an old tuple |
| ProtocolServer.SchemasSentIff | ext/protocol_server.c:173-176 | over any lookups, the schemas go out with a change if and only if the relation is new or has changed since its last lookup |
| ProtocolServer.SentOnce | ext/protocol_server.c:173-176 | a relation that does not change has its schemas sent exactly once |
| FrameReader.Reader.SchemaListLookup | client/protocol_client.c:337-343 | finds a table's schemas if and only if they are recorded |
| FrameReader.Reader.ProcessTableSchema | client/protocol_client.c:138-181 | the list behaves as a map from relid to schemas |
| FrameReader.Reader.IsActive | client/protocol_client.c:29-40 | true if and only if the table is in the active list |
| FrameReader.Reader.ProcessMessage | client/protocol_client.c:138-317 | what becomes of each kind of message; rows outside the active list are skipped before the schemas are looked up; an unknown table, a row that does not decode or a refusing callback, for a row or a schema, is an error if and only if the policy is to exit |
| FrameReader.Reader.ProcessFrame | client/protocol_client.c:68-106 | a frame's messages are handled in order: all of them under the log policy, up to the first error under the exit policy |
| SchemaAgreement.PluginEncodesWith | ext/protocol_server.c:173-176 | whatever the plugin appends for a change is encoded with the schemas sent for the table |
| SchemaAgreement.DecodedAsEncoded | client/protocol_client.c:138-222 | after any run of changes, DDL, switch to streaming, reconnects and reloads, rows of active tables are decoded with the schemas they were encoded with, given a library that decodes what it encoded |
| Topics.TopicFromSchema | kafka/bottledwater.c:391-421 | strips the generated prefix off the namespace and puts what is left, unless it is "public", before the table's name, cut to the buffer |
| Topics.TopicOfTable | kafka/bottledwater.c:391-421 | of the schemas the plugin builds, the producer recovers the schema's and the table's names as escaped |
| Topics.DocumentedTopic | README.md:309-317 | for valid names the topic is the one documented |
| Topics.SchemaShownIff | README.md:333-335 | the schema's name appears as it is if and only if it has only letters, digits, underscores and inner dots |
| Topics.SameTopicIff | README.md:268-269 | two tables share a topic if and only if their schemas and names are escaped alike |
| Topics.TopicsDistinct | README.md:268-269 | without underscores, and as long as it fits the buffer, every table has a topic of its own |
| Topics.LongNamesShareTopic | kafka/bottledwater.c:410-416 | names that agree on all the buffer has room for share a topic |
| TableMapper.TopicNameParts | kafka/table_mapper.c:199-222 | the configured prefix and a dot come first, the name after them, so different names give different topics |
| TableMapper.Mapper.Lookup | kafka/table_mapper.c:58-64 | finds the one live entry of a relid, if there is one |
| TableMapper.Mapper.UpdateTopic | kafka/table_mapper.c:185-242 | ends with the topic for the name, opening it only if the name changed |
| TableMapper.Mapper.UpdateSchema | kafka/table_mapper.c:245-296 | keeps the requested schema whether it was parsed or its id recognised |
| TableMapper.Mapper.Update | kafka/table_mapper.c:76-147 | the array behaves as a map: a successful update replaces the entry, a failed one removes it |
| TableMapper.LastUpdateDecides | kafka/table_mapper.c:56-64 | after any mix of updates a table is registered if and only if its last update succeeded, with that update's topic, ids and schemas, field by field |
| TableMapper.NeverUpdatedNotFound | kafka/table_mapper.c:56-64 | a table never updated is not registered |
| Export.Generator.Call | ext/snapshot.c:150-189 | a call returns the first of the remaining frames, or ends with every row fetched and every lock released; under the exit policy it raises on the first row that cannot be converted or written |
| Export.ExportAll | ext/snapshot.c:97-189 | repeated calls give the frames of the nested loop over tables and rows, each once, minus unwritable rows; an error is raised if and only if the policy is to exit and some row cannot be converted or written, after the frames of the rows before it |
| Export.FramesPerTable | ext/snapshot.c:328-357 | one frame per row if and only if every frame can be written |
| Export.FrameAt | ext/snapshot.c:150-180 | the frames come in the order of tables and rows: a row's frame is preceded by exactly the frames of the rows before it |
| Export.TablesDistinct | ext/snapshot.c:276-281 | the list is accepted if and only if no table occurs twice |
| Writer.TryWriting | ext/io_util.c:13-35 | succeeds exactly up to 1048571 bytes, with the payload and an uncounted zero byte; at most four buffers |
| Witnesses.SendsCanFail | kafka/bottledwater.c:584-601 | a run in which a send fails locally, after which the process can never get everything acknowledged |
| Witnesses.SnapshotsAreSkipped | client/connect.c:132-142 | a run in which the snapshot ends with its row skipped |
| Witnesses.SnapshotsCanBeOrphaned | kafka/bottledwater.c:862-870 | a run in which an exit with status zero leaves a snapshot row unhandled for good |
| Witnesses.NamespaceCanBeInvalid | ext/oid2avro.c:842-843 | the namespace a.1 comes out invalid |
| Witnesses.NameCanFillBuffer | ext/oid2avro.c:834-850 | a name of one space fills its four bytes |
| Witnesses.DroppedTableHasNoField | ext/oid2avro.c:150-178 | a table whose only column was dropped gets neither a field nor the placeholder |
| Witnesses.KeySchemaChangeLeavesRecord | ext/protocol_server.c:147-171 | a row inserted under one key schema and deleted under another leaves its record in the topic |

## Left out

- Decoding and encoding of Avro and JSON: done by libraries; encoded rows are opaque, or stand for a schema and values.
- The schema registry client: only that an id identifies a schema is kept.
- Type-by-type conversion of values: case tables over Postgres internals; a field's Avro type is represented by the Postgres type.
- Byte layout of status updates and keepalives: fixed offsets only.
- Wall-clock pacing of status updates: sending one is a free choice of the environment.
- Loading of the active table list over SQL: any list may be loaded at any time while streaming.
- Memory management, reference counts, fixed-size text buffers, integer widths of counters: positions and counts are unbounded.
- Kafka retries that store a message twice, or store it after the process has ended.
- The client's own configuration tables, whose schemas the producer leaves unregistered on purpose.
- Command line, logging, pid file, signals.
- Choice of the key index among a table's indexes: the index is part of the relation's description.
- Topics.TopicFromSchema: a schema name that fills the topic buffer by itself, and the variant for avro-c before 1.8, which leaves the schema out.
- SchemaCache.Cache.EntryUpdate: a failed build is modelled as leaving no schemas; in the code what was built before the failure stays in the entry, and a later lookup hands it out.
- Columns.TupleToAvroRow: that the value written for a Postgres type fits the Avro type made for it is not modelled; for `timestamptz` the two differ (ext/oid2avro.c:312-317 and 384).
- Columns.TupleToAvroKey: the same; and that an index column has its table column's type is taken from the catalog.
