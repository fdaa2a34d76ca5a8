# A verified model of the Micro800 to SQL Server gateway

The gateway moves data from a PLC into a database. A PLC raises a trigger tag;
the gateway captures the mapped tags, queues the event, acknowledges the
trigger, builds an SQL statement from the event and has it executed over TDS.
This project models that path in Dafny and proves what it keeps, through failing
tag accesses, damaged memory, power cuts, lost connections and any cut of the
byte stream into packets.

Verify everything with `dafny verify dfyconfig.toml`.

## How it is laid out

Each module follows one part of the program. Where the program works step by
step - an object updating its fields, a loop over a buffer - the model is a
class or a method with the same branches and constants, proved against a
specification function; what the program promises is then proved of those
functions, or is an invariant that every method keeps.

- `Handshake`, `HandshakeRuntime`, `Scheduler` - the trigger/ACK state machine of one mapping
  against a PLC that moves on its own, and the round-robin poll. Every tag
  access is a step of its own, so the two sides interleave freely. A
  specification of the PLC is part of it: it raises its trigger only when both
  tags are low and lowers it only when both are high.
- `PlcRead`, `Capture`, `CaptureToSql` - from a tag's bytes to the captured
  event, and on to the literal in the parsed statement.
- `Crc`, `Serializer` - the binary image of an event and its checksum.
- `RamQueue` - the slot ring that the gateway runs on. It keeps no order; it
  keeps a finite map from id to event.
- `EffsLog`, `EffsState`, `EffsDisk`, `EffsFacts`, `EffsStore`, `EffsLimit` - the
  segmented append log on flash that is in the tree but not selected: flags
  rewritten in place, segments deleted when nothing in them is live, and a
  recovery scan. The reference is the list of live records in append order.
- `SqlText`, `SqlParse`, `SqlUpdate`, `SqlBuild` - the SQL text of an event, a
  parser that reads it back, and the code that writes it into a fixed buffer.
- `DrainLedger`, `Drain` - peek, build, stage, execute, then commit, back off or quarantine,
  over the real `RamQueue` and `SqlBuild`, with a ledger of what became of
  every event.
- `Delivery` - handshake, queue, drain and worker as one transition system, in
  which the handshake's append is the queue's: from the trigger to the database.
- `JobGate` - busy flag, job kind, lock and semaphore between the requesting
  tasks and the SQL worker, as a transition system whose steps are the single
  reads and writes.
- `TdsTokens`, `TdsLayout`, `TdsStream`, `TdsEmit`, `TdsLoss`, `TdsPackets` - the
  TDS layer: tokens from whatever bytes have arrived, how the protocol lays out
  a field of each column type, the shared receive buffer, token streams as a
  server writes them, which packets the buffer survives, and messages as packets (MS-TDS, sections 2.2.3.1 and 2.2.7.9).
- `CipPath`, `CipPrint` - CIP tag paths (CIP Volume 1, Appendix C), encoded and
  as they are written.
- `Scanf`, `ConfigBlob`, `ConfigLines`, `ConfigRoundTrip`, `ConfigCodec`,
  `ConfigStore` - the configuration blob, its lines as texts, its validation, the flash entries beside it, and what a
  save and a load keep.
- `Calendar` - day counts since 1900 as Gregorian dates.
- `Arithmetic`, `Bytes`, `Decimals`, `Strings`, `GatewayTypes` - shared records
  and small facts.

The world outside is a parameter or a nondeterministic choice: whether a tag
access succeeds and whether a failed write took effect, what a tag read returns,
the outcome of a query, the current tick, when web requests arrive, and the
bytes on the wire. The flash disk is a map from segment number to bytes.

## What the proofs turned up

Properties that one might expect of the program and that do not hold are stated
with the exact condition under which they do.

- A receive buffer that consumed nothing is cleared. `span::shift_left` by zero
  copies each byte onto itself and then overwrites it with zero, so a token that
  a packet leaves unfinished at the front of the buffer is lost
  (`TdsStream.SplitDoneIsLost`). Packet boundaries do not matter exactly if each
  packet contains the byte that completes a token, or leaves only zeros unread
  (`TdsLoss.LostByPosition`). Where every token has a callback and no column has
  text pointers, the callbacks differ exactly if that fails
  (`TdsLoss.CallbacksExactly`). A token without a callback may be lost unnoticed,
  and then positions alone do not tell (`TdsLoss.PositionsDoNotDecide`).
- A refused append can push the active segment to 256, and a run gets there
  (`EffsLimit.ReachLimit`). Later events are acknowledged, but each one takes the
  place of the one before in file 256, which recovery never reads
  (`EffsStore.Store.Append`, `EffsLimit.QueueBeyondAndRestart`).
- The type under which a value was read is not stored with the event; the
  mapping's type takes its place. The adapter prefers the live type so that the
  SQL conversion sees the real value, and the queue undoes that.
  `PlcRead.NumberWritten`, `BitWritten`, `FloatWritten` and `RealWritten` give the
  exact conditions by tag, column and configured type, `SqlParse.TypeLost` an
  example.
- An UPDATE mapping whose fields are all keys passes validation, and its
  statements have nothing between SET and WHERE (`SqlUpdate.UpdateReparses`).
- A configuration with an empty PLC or mapping name, database or schema, or a
  zero PLC interval, passes validation and is not read back as it was saved
  (`ConfigRoundTrip.RoundTripExactly`).
- The event id mode and column are saved and restored, and then reset: the
  decoder that `ConfigLoad` calls sets the defaults first, and only the enabled
  flag is put back. After a restart no statement carries an event id. The web
  pages never set the two, but `ConfigSave` accepts them and the flash entries can
  be edited. Retry limits, scaling and text lengths are not stored at all
  (`ConfigStore.LoadedAsSaved`, `ConfigStore.EventIdLost`).
- The gateway settles nothing any more once a web request takes the worker
  between the drain's busy check and its own request, or once a login fails: the
  event in flight is never reported on (`Drain.Gateway.DrainOnePending`,
  `Drain.Gateway.SqlRuntimePoll`, `Drain.RunGateway`).
- With trigger and ACK both high at start-up a pulse can complete without an
  event (`Handshake.AckSafety`, `Handshake.BothHigh`).
- An array index of 2^32 or more in a tag path wraps, and is encoded if what is
  left is small enough: `A[4294967296]` is sent as `A[0]`
  (`CipPrint.EncodedAsWritten`, `CipPrint.WrapsAround`).
- A NULL in a DECIMAL or NUMERIC column is handed over as an empty value that is
  not null: unlike the other types with a one-byte count, these two do not say
  that zero stands for NULL (`TdsLayout.NullDecimal`).
- The comment on the worker's cleanup says that the gate is never busy without a
  job; it is, for a moment after every job (`JobGate.CleanupVisible`). The order
  of the two assignments is nevertheless the right one.
- The serializer asks for six bytes and then writes seven. With exactly six bytes
  left it has written one byte past the buffer before the next test, for twelve
  bytes, refuses the event. The result is the same as of a test for seven; the
  model has that test, and not the byte.
- The decoder admits a blob one byte shorter than its header. That changes no
  result: the string that follows asks for its own byte and finds none.

## Model

| member | source | states |
|---|---|---|
| Handshake.AckSafety | examples/NetBurner_MSSQL_Client/src/gateway/gateway_runtime.cpp:112-251 | in every run of PLC and gateway, with any tag access failing, any failed write possibly taking effect and a reload at any moment, each completed trigger pulse had an event queued and at most one more than its failed ACK-high writes - if and only if the two tags do not both start high |
| Handshake.BothHigh | examples/NetBurner_MSSQL_Client/src/gateway/gateway_runtime.cpp:134-140 | the counterexample for the other case: with both tags high at the start the PLC completes a pulse that nobody served |
| Handshake.ExactlyOnce | examples/NetBurner_MSSQL_Client/src/gateway/gateway_runtime.cpp:160-198 | a completed pulse without a failed ACK-high write has exactly one event |
| Handshake.AckMeansQueued | examples/NetBurner_MSSQL_Client/src/gateway/gateway_runtime.cpp:187-197 | whenever trigger and ACK are both high the running pulse already has its event |
| Handshake.NeverEntered | examples/NetBurner_MSSQL_Client/src/gateway/gateway_runtime.cpp:117-250 | Persisting, AssertAck, VerifyAckLow and Faulted are entered in no run |
| Handshake.InitOutcome | examples/NetBurner_MSSQL_Client/src/gateway/gateway_runtime.cpp:118-142 | from Initializing: a failed read of either tag backs off, and the two tags decide among the four other states |
| Handshake.IdleOutcome | examples/NetBurner_MSSQL_Client/src/gateway/gateway_runtime.cpp:143-156 | from Idle: a failed read backs off, a high trigger starts a capture, a low one changes nothing |
| Handshake.CaptureFailure | examples/NetBurner_MSSQL_Client/src/gateway/gateway_runtime.cpp:162-171 | a failed capture stays in Capturing with one more counted, unless that reaches the limit: then it backs off with the count cleared |
| Handshake.RetryLimit | examples/NetBurner_MSSQL_Client/src/gateway/gateway_runtime.cpp:162-171 | after any number of failed captures in a row the handshake is still capturing with each of them counted, until they reach the limit; that one backs off |
| Handshake.AppendRefused | examples/NetBurner_MSSQL_Client/src/gateway/gateway_runtime.cpp:173-186 | an event that is not queued is not acknowledged, and backs off |
| Handshake.AckOutcome | examples/NetBurner_MSSQL_Client/src/gateway/gateway_runtime.cpp:187-198 | an event that is queued is acknowledged at once; a write reported as failed backs off and may have raised the ACK all the same |
| Handshake.WaitOutcome | examples/NetBurner_MSSQL_Client/src/gateway/gateway_runtime.cpp:214-227 | while waiting: a failed read backs off, a low trigger is answered by clearing the ACK |
| Handshake.ClearOutcome | examples/NetBurner_MSSQL_Client/src/gateway/gateway_runtime.cpp:228-238 | the ACK is cleared and the mapping idle, or it backs off |
| Handshake.SilentOutcome | examples/NetBurner_MSSQL_Client/src/gateway/gateway_runtime.cpp:157-159 | a pending capture begins; a back-off ends in a fresh look at both tags |
| Handshake.CyclesDone | examples/NetBurner_MSSQL_Client/src/gateway/gateway_runtime.cpp:112-251 | any number of pulses without failures: each is completed with exactly its own event, in order |
| Handshake.InvRun | examples/NetBurner_MSSQL_Client/src/gateway/gateway_runtime.cpp:112-251 | the handshake invariant survives every run: what each state and each half-done step may rely on |
| Handshake.FailFreeStep | examples/NetBurner_MSSQL_Client/src/gateway/gateway_runtime.cpp:112-251 | what one step without failures makes of any world is a legal run of the model |
| Handshake.FourSteps | examples/NetBurner_MSSQL_Client/src/gateway/gateway_runtime.cpp:242-247 | four failure-free steps settle the handshake from any reachable world at rest |
| Handshake.Settles | examples/NetBurner_MSSQL_Client/src/gateway/gateway_runtime.cpp:112-251 | after any run, four or more failure-free steps leave trigger, ACK and state in agreement |
| Handshake.StaysSettled | examples/NetBurner_MSSQL_Client/src/gateway/gateway_runtime.cpp:143-156 | once settled, further failure-free steps keep it so |
| HandshakeRuntime.MappingRuntime.constructor | examples/NetBurner_MSSQL_Client/src/gateway/gateway_runtime.cpp:255-265 | a mapping starts in Initializing with the PLC in any condition |
| HandshakeRuntime.MappingRuntime.Interfere | examples/NetBurner_MSSQL_Client/src/gateway/gateway_runtime.cpp:255-265 | between any two tag accesses the PLC may move or the configuration be reloaded, and nothing else |
| HandshakeRuntime.MappingRuntime.ReadTriggerTag | examples/NetBurner_MSSQL_Client/src/gateway/gateway_plc_adapter.cpp:80-96 | a tag read yields the tag, or fails; the PLC may have moved before it |
| HandshakeRuntime.MappingRuntime.ReadAckTag | examples/NetBurner_MSSQL_Client/src/gateway/gateway_plc_adapter.cpp:80-96 | the same for the ACK tag |
| HandshakeRuntime.MappingRuntime.WriteAckTag | examples/NetBurner_MSSQL_Client/src/gateway/gateway_plc_adapter.cpp:98-107 | a write that reports success took effect; one that reports failure may have |
| HandshakeRuntime.MappingRuntime.StepInitializing | examples/NetBurner_MSSQL_Client/src/gateway/gateway_runtime.cpp:118-142 | the handler completes exactly one step of the model |
| HandshakeRuntime.MappingRuntime.DecideInitial | examples/NetBurner_MSSQL_Client/src/gateway/gateway_runtime.cpp:123-141 | what the two reads decide, state by state |
| HandshakeRuntime.MappingRuntime.StepIdle | examples/NetBurner_MSSQL_Client/src/gateway/gateway_runtime.cpp:143-156 | the handler completes exactly one step of the model |
| HandshakeRuntime.MappingRuntime.CaptureEvent | examples/NetBurner_MSSQL_Client/src/gateway/gateway_runtime.cpp:160-172 | the capture succeeds, clearing the retry count, or fails |
| HandshakeRuntime.MappingRuntime.AppendEvent | examples/NetBurner_MSSQL_Client/src/gateway/gateway_runtime.cpp:173-186 | the event is queued or it is not |
| HandshakeRuntime.MappingRuntime.StepCapturing | examples/NetBurner_MSSQL_Client/src/gateway/gateway_runtime.cpp:160-199 | the handler completes exactly one step of the model, with the mapping's own retry limit |
| HandshakeRuntime.MappingRuntime.KeepAndAcknowledge | examples/NetBurner_MSSQL_Client/src/gateway/gateway_runtime.cpp:173-198 | a refused event backs off without an ACK; else the ACK write decides |
| HandshakeRuntime.MappingRuntime.CaptureFailed | examples/NetBurner_MSSQL_Client/src/gateway/gateway_runtime.cpp:162-171 | a failed capture backs off at the retry limit and is counted below it |
| HandshakeRuntime.MappingRuntime.StepAssertAck | examples/NetBurner_MSSQL_Client/src/gateway/gateway_runtime.cpp:203-213 | the handler completes exactly one step of the model |
| HandshakeRuntime.MappingRuntime.StepWaitForTriggerLow | examples/NetBurner_MSSQL_Client/src/gateway/gateway_runtime.cpp:214-227 | the handler completes exactly one step of the model |
| HandshakeRuntime.MappingRuntime.StepClearAck | examples/NetBurner_MSSQL_Client/src/gateway/gateway_runtime.cpp:228-238 | the handler completes exactly one step of the model |
| HandshakeRuntime.MappingRuntime.StepSilent | examples/NetBurner_MSSQL_Client/src/gateway/gateway_runtime.cpp:157-159 | the states without tag access complete exactly one step of the model |
| HandshakeRuntime.MappingRuntime.StepMapping | examples/NetBurner_MSSQL_Client/src/gateway/gateway_runtime.cpp:112-251 | one call extends the run by exactly one completed step under the given retry limit, and leaves no completed pulse unserved |
| Scheduler.BoundedWaiting | examples/NetBurner_MSSQL_Client/src/gateway/gateway_runtime.cpp:318-360 | a mapping that is enabled and urgent or due is stepped within as many polls as there are places before it, whatever the others do |
| Scheduler.PickNearest | examples/NetBurner_MSSQL_Client/src/gateway/gateway_runtime.cpp:323-353 | a poll picks something if anything is eligible, and nothing behind the nearest |
| Scheduler.DistanceDrops | examples/NetBurner_MSSQL_Client/src/gateway/gateway_runtime.cpp:358-358 | after another mapping was picked a waiting one is strictly nearer to the cursor |
| Scheduler.DistanceAt | examples/NetBurner_MSSQL_Client/src/gateway/gateway_runtime.cpp:324-324 | place and cyclic distance are inverse to each other |
| Scheduler.LatenessGrows | examples/NetBurner_MSSQL_Client/src/gateway/gateway_runtime.cpp:351-351 | the signed difference of 32-bit ticks keeps counting for half the counter range |
| Scheduler.StillEligible | examples/NetBurner_MSSQL_Client/src/gateway/gateway_runtime.cpp:349-353 | an eligible mapping stays eligible until it is stepped |
| Scheduler.EligibleExactly | examples/NetBurner_MSSQL_Client/src/gateway/gateway_runtime.cpp:329-351 | eligible means: both enable flags, and a state other than Idle, Backoff and Faulted or a due tick by the signed 32-bit difference |
| Scheduler.PickExactly | examples/NetBurner_MSSQL_Client/src/gateway/gateway_runtime.cpp:323-353 | a poll picks nothing exactly if nothing is eligible, and only what is |
| Scheduler.Runtime.RuntimePoll | examples/NetBurner_MSSQL_Client/src/gateway/gateway_runtime.cpp:312-360 | the loop steps exactly the nearest eligible mapping and moves the cursor behind it |
| PlcRead.NumberWritten | examples/NetBurner_MSSQL_Client/src/gateway/gateway_plc_adapter.cpp:109-247 | an integer tag read whole, once through the queue, is written as the number its bytes mean if and only if the configured type reads it alike; under the live type it always would be |
| PlcRead.TextWritten | examples/NetBurner_MSSQL_Client/src/gateway/gateway_plc_adapter.cpp:145-208 | a text column receives the tag's number whatever type is configured |
| PlcRead.SlotExact | examples/NetBurner_MSSQL_Client/src/gateway/gateway_plc_adapter.cpp:145-205 | the 64-bit slot holds the little-endian two's complement integer; only the largest ULINTs wrap |
| PlcRead.NumberByCode | examples/NetBurner_MSSQL_Client/src/gateway/gateway_plc_adapter.cpp:38-73 | the type inferred from a CIP code reads the integer that the code prescribes: two's complement of 1, 2, 4 or 8 bytes for C2 to C5, unsigned for C6 to C9 and D1 to D4 |
| PlcRead.LiveTypeByCode | examples/NetBurner_MSSQL_Client/src/gateway/gateway_plc_adapter.cpp:38-73 | the gateway's number for every CIP type code |
| PlcRead.OtherTagsRead | examples/NetBurner_MSSQL_Client/src/gateway/gateway_plc_adapter.cpp:141-232 | what a BOOL, REAL, LREAL or string tag reads as; a tag of an unknown code is read as the configured type says |
| PlcRead.ShortTagRead | examples/NetBurner_MSSQL_Client/src/gateway/gateway_plc_adapter.cpp:145-208 | an integer tag of too few bytes reads as zero, and as valid |
| PlcRead.Scaled | examples/NetBurner_MSSQL_Client/src/gateway/gateway_plc_adapter.cpp:234-243 | floats are rescaled as floats, integers as integers, texts and BOOLs not at all |
| PlcRead.SlotText | examples/NetBurner_MSSQL_Client/src/gateway/gateway_plc_adapter.cpp:145-208 | the text made of the slot is the decimal of that integer |
| PlcRead.IntegerRead | examples/NetBurner_MSSQL_Client/src/gateway/gateway_plc_adapter.cpp:109-247 | an integer tag without scaling reads as valid, under its live type, with that slot and text |
| PlcRead.PlcReadField | examples/NetBurner_MSSQL_Client/src/gateway/gateway_plc_adapter.cpp:109-247 | a value is valid exactly if its tag was read; else it is empty, under the configured type |
| PlcRead.BitWritten | examples/NetBurner_MSSQL_Client/src/gateway/gateway_plc_adapter.cpp:109-247 | an integer tag in a BIT column survives the queue if and only if it is not configured as REAL, or is zero |
| PlcRead.FloatWritten | examples/NetBurner_MSSQL_Client/src/gateway/gateway_plc_adapter.cpp:109-247 | an integer tag in a REAL or FLOAT column does if and only if it is zero where configured as REAL, and zero or one where configured as BOOL; configured as text up to 2^53 |
| PlcRead.RealWritten | examples/NetBurner_MSSQL_Client/src/gateway/gateway_plc_adapter.cpp:109-247 | a REAL tag in any column: the exact condition on its number for each configured type |
| PlcRead.TypesDiffer | examples/NetBurner_MSSQL_Client/src/gateway/gateway_serializer.cpp:206-210 | under any formats that print and parse small integers properly, no value tells two types apart if and only if the column reads them alike |
| Capture.CapturePayload | examples/NetBurner_MSSQL_Client/src/gateway/gateway_runtime.cpp:42-110 | the loops capture what the reference says of the same tag reads |
| Capture.FindColumn | examples/NetBurner_MSSQL_Client/src/gateway/gateway_runtime.cpp:62-68 | the duplicate test is membership among the fields taken so far |
| Capture.CaptureExact | examples/NetBurner_MSSQL_Client/src/gateway/gateway_runtime.cpp:42-110 | a capture fails exactly if a required first field of its column cannot be read or there is nothing to capture; else it holds the first field of each column, with its own tag's value, then the PLC's name |
| Capture.ChosenExactly | examples/NetBurner_MSSQL_Client/src/gateway/gateway_runtime.cpp:56-72 | the captured fields are exactly the named first ones of their columns |
| Capture.ChosenInOrder | examples/NetBurner_MSSQL_Client/src/gateway/gateway_runtime.cpp:56-72 | and they stay in the mapping's order |
| Capture.FieldsFail | examples/NetBurner_MSSQL_Client/src/gateway/gateway_runtime.cpp:75-81 | only a required field that counts can fail the capture |
| Capture.FieldsTidy | examples/NetBurner_MSSQL_Client/src/gateway/gateway_runtime.cpp:56-83 | no captured column repeats or is empty, and every value is valid or not required |
| Capture.PlcNameCaptured | examples/NetBurner_MSSQL_Client/src/gateway/gateway_runtime.cpp:83-109 | the PLC's name is added exactly if asked for, named, not there yet and with room: as text, never required, never a key, and PLC for none |
| CaptureToSql.AcceptedCapture | examples/NetBurner_MSSQL_Client/src/gateway/gateway_config.cpp:309-382 | a mapping that passed validation skips nothing: every field in order with its own tag, then the PLC's name; it fails exactly if a required tag cannot be read |
| CaptureToSql.CapturedFits | examples/NetBurner_MSSQL_Client/src/gateway/gateway_runtime.cpp:42-110 | every event of an accepted mapping fits the record |
| CaptureToSql.CapturedStatement | examples/NetBurner_MSSQL_Client/src/gateway/gateway_sql.cpp:131-142 | what the queue returns of a captured event has a statement exactly if it names a table and, for an update, a key |
| CaptureToSql.AcceptedWritable | examples/NetBurner_MSSQL_Client/src/gateway/gateway_sql.cpp:461-464 | an accepted mapping's event is refused by the statement builder only for its length |
| CaptureToSql.QueuedInsert | examples/NetBurner_MSSQL_Client/src/gateway/gateway_sql.cpp:208-283 | with distinct columns nothing is left out: the parsed INSERT has each column once, in order, with its stored value's literal |
| CaptureToSql.TagsReachStatement | examples/NetBurner_MSSQL_Client/src/gateway/gateway_runtime.cpp:42-110 | end to end for an accepted INSERT mapping: the event survives the queue, its statement parses to target and columns, and each integer tag's number stands at its place exactly if the types agree on it |
| Crc.Crc32 | examples/NetBurner_MSSQL_Client/src/gateway/gateway_serializer.cpp:38-49 | the nested loops compute the checksum function |
| Crc.BurstDetected | examples/NetBurner_MSSQL_Client/src/gateway/gateway_serializer.cpp:38-49 | two blobs of one length that differ at most within four consecutive bytes have equal checksums if and only if they are equal |
| Crc.PolynomialAbsorbed | examples/NetBurner_MSSQL_Client/src/gateway/gateway_serializer.cpp:38-49 | the polynomial is that of IEEE 802.3, reflected |
| Crc.CheckValues | examples/NetBurner_MSSQL_Client/src/gateway/gateway_serializer.cpp:38-49 | known checksums: of nothing, of four bytes of ones, and of those with the highest bit behind them |
| Crc.FeedDifference | examples/NetBurner_MSSQL_Client/src/gateway/gateway_serializer.cpp:41-47 | the difference of two runs' registers is what the difference of the inputs feeds |
| Serializer.DecodeEncode | examples/NetBurner_MSSQL_Client/src/gateway/gateway_serializer.cpp:51-216 | decoding an encoded event gives back its persisted projection |
| Serializer.DecodeTruncated | examples/NetBurner_MSSQL_Client/src/gateway/gateway_serializer.cpp:171-215 | no image that lost a byte or more at its end decodes |
| Serializer.HeaderLayout | examples/NetBurner_MSSQL_Client/src/gateway/gateway_serializer.cpp:68-99 | the header byte by byte |
| Serializer.FieldLayout | examples/NetBurner_MSSQL_Client/src/gateway/gateway_serializer.cpp:114-127 | a field's types, flags and numbers byte by byte |
| Serializer.TextLayout | examples/NetBurner_MSSQL_Client/src/gateway/gateway_serializer.cpp:85-98 | a text as its length and its characters |
| Serializer.SerializeEvent | examples/NetBurner_MSSQL_Client/src/gateway/gateway_serializer.cpp:51-136 | succeeds exactly if the image fits the buffer, and then writes it and returns its checksum |
| Serializer.PutNames | examples/NetBurner_MSSQL_Client/src/gateway/gateway_serializer.cpp:89-103 | three strings go to the cursor, exactly if they fit |
| Serializer.PutField | examples/NetBurner_MSSQL_Client/src/gateway/gateway_serializer.cpp:108-130 | one field goes to the cursor, exactly if it fits |
| Serializer.PutFields | examples/NetBurner_MSSQL_Client/src/gateway/gateway_serializer.cpp:105-131 | all fields go to the cursor, exactly if they fit |
| Serializer.TakeStr | examples/NetBurner_MSSQL_Client/src/gateway/gateway_serializer.cpp:171-183 | a string is read off the cursor exactly if the bytes hold one that fits |
| Serializer.TakeField | examples/NetBurner_MSSQL_Client/src/gateway/gateway_serializer.cpp:191-213 | a field is read off the cursor exactly if the bytes hold one |
| Serializer.TakeNames | examples/NetBurner_MSSQL_Client/src/gateway/gateway_serializer.cpp:185-188 | the three names are read off the cursor exactly if they are there |
| Serializer.DeserializeEvent | examples/NetBurner_MSSQL_Client/src/gateway/gateway_serializer.cpp:138-216 | the loop returns what the decoding function says of the blob, for every blob |
| RamQueue.Queue.constructor | examples/NetBurner_MSSQL_Client/src/gateway/gateway_queue.cpp:560-577 | the queue starts empty with next id 1 |
| RamQueue.Queue.AllocateEventId | examples/NetBurner_MSSQL_Client/src/gateway/gateway_queue.cpp:584-597 | ids are handed out in order and never pending yet |
| RamQueue.Queue.Append | examples/NetBurner_MSSQL_Client/src/gateway/gateway_queue.cpp:495-526 | accepted exactly if a slot is free and the image fits; then the map of pending events gains exactly this one |
| RamQueue.Queue.PeekPending | examples/NetBurner_MSSQL_Client/src/gateway/gateway_queue.cpp:528-556 | in every reachable state nothing is quarantined on the way, and an event is found exactly if one is pending |
| RamQueue.Queue.PeekSlots | examples/NetBurner_MSSQL_Client/src/gateway/gateway_queue.cpp:528-556 | the scan over slots in any condition does what the reference scan says |
| RamQueue.Queue.MarkCommitted | examples/NetBurner_MSSQL_Client/src/gateway/gateway_queue.cpp:629-650 | exactly the id's entry leaves the map, if it is there |
| RamQueue.Queue.Quarantine | examples/NetBurner_MSSQL_Client/src/gateway/gateway_queue.cpp:652-684 | exactly the id's entry leaves the map, if it is there, and is counted |
| RamQueue.Queue.Release | examples/NetBurner_MSSQL_Client/src/gateway/gateway_queue.cpp:642-648 | the first used slot of that id is freed |
| RamQueue.Queue.GetStats | examples/NetBurner_MSSQL_Client/src/gateway/gateway_queue.cpp:706-742 | the count is the number of pending events, and pressure is Full exactly if the next append finds no slot |
| RamQueue.PeekSound | examples/NetBurner_MSSQL_Client/src/gateway/gateway_queue.cpp:528-556 | over sound slots peek changes nothing and finds an event unless there is none |
| RamQueue.PeekDamaged | examples/NetBurner_MSSQL_Client/src/gateway/gateway_queue.cpp:533-549 | over damaged slots peek frees only unreadable ones and hands out only readable ones, the first there is |
| RamQueue.ContentsFill | examples/NetBurner_MSSQL_Client/src/gateway/gateway_queue.cpp:518-525 | filling a free slot adds one entry to the map |
| RamQueue.ContentsFree | examples/NetBurner_MSSQL_Client/src/gateway/gateway_queue.cpp:642-648 | freeing a used slot removes one entry from the map |
| RamQueue.ContentsSize | examples/NetBurner_MSSQL_Client/src/gateway/gateway_queue.cpp:711-720 | as many entries as used slots |
| RamQueue.FullMeansNoneFree | examples/NetBurner_MSSQL_Client/src/gateway/gateway_queue.cpp:497-509 | all slots counted as used means that no free one is found |
| EffsLog.ScanEncoded | examples/NetBurner_MSSQL_Client/src/gateway/gateway_queue.cpp:200-277 | an undamaged segment scans to exactly its live records and its whole length |
| EffsLog.RecordLayout | examples/NetBurner_MSSQL_Client/src/gateway/gateway_queue.cpp:388-394 | a record's header byte by byte |
| EffsLog.TornSegment | examples/NetBurner_MSSQL_Client/src/gateway/gateway_queue.cpp:213-237 | a segment cut at any byte yields exactly the live records that lie wholly before the cut |
| EffsLog.WholeIsLargest | examples/NetBurner_MSSQL_Client/src/gateway/gateway_queue.cpp:213-237 | those are the longest prefix of the log that fits the cut |
| EffsLog.DamagedPayload | examples/NetBurner_MSSQL_Client/src/gateway/gateway_queue.cpp:240-244 | payload bytes changed within four consecutive positions cost that record alone |
| EffsLog.WalkAppend | examples/NetBurner_MSSQL_Client/src/gateway/gateway_queue.cpp:213-265 | scanning a log followed by anything finds the log's live records and goes on behind it |
| EffsLog.NextRecWritten | examples/NetBurner_MSSQL_Client/src/gateway/gateway_queue.cpp:214-238 | a written header is read back, with the payload intact exactly if the checksums agree |
| EffsState.RewriteFlag | examples/NetBurner_MSSQL_Client/src/gateway/gateway_queue.cpp:306-322 | overwriting the one byte at offset plus 4 is setting that record's flag in the log |
| EffsState.LiveSetFlag | examples/NetBurner_MSSQL_Client/src/gateway/gateway_queue.cpp:306-322 | setting a record's flag relabels or drops it among the segment's live records |
| EffsState.AllLiveSetFlag | examples/NetBurner_MSSQL_Client/src/gateway/gateway_queue.cpp:306-322 | and among those of all segments |
| EffsState.AllLiveAppend | examples/NetBurner_MSSQL_Client/src/gateway/gateway_queue.cpp:388-405 | a record appended to the last segment in use becomes the last live record |
| EffsState.IndexMark | examples/NetBurner_MSSQL_Client/src/gateway/gateway_queue.cpp:464-472 | dropping or relabelling the slot keeps the index a bag of the marked live list |
| EffsState.IndexAppend | examples/NetBurner_MSSQL_Client/src/gateway/gateway_queue.cpp:408-415 | filling a free slot keeps the index a bag of the longer live list |
| EffsDisk.RecoverExact | examples/NetBurner_MSSQL_Client/src/gateway/gateway_queue.cpp:279-304 | recovery reads back exactly the live records of the scanned segments, in append order |
| EffsDisk.RecoverLive | examples/NetBurner_MSSQL_Client/src/gateway/gateway_queue.cpp:287-293 | scanning two segments beyond the active one misses nothing |
| EffsDisk.BeyondIgnored | examples/NetBurner_MSSQL_Client/src/gateway/gateway_queue.cpp:289-289 | files numbered 256 and above do not change what is recovered |
| EffsDisk.CrashDuringAppend | examples/NetBurner_MSSQL_Client/src/gateway/gateway_queue.cpp:379-403 | with only the first bytes of an appended record on the disk, recovery finds what was live before, plus the record exactly if it is complete |
| EffsDisk.BudgetFits | examples/NetBurner_MSSQL_Client/src/gateway/gateway_queue.cpp:356-360 | with fewer than 64 records the 512 KiB budget is never exceeded |
| EffsDisk.FlagRewritten | examples/NetBurner_MSSQL_Client/src/gateway/gateway_queue.cpp:306-322 | one flag byte overwritten on the disk marks exactly one live record |
| EffsDisk.MarkedIndex | examples/NetBurner_MSSQL_Client/src/gateway/gateway_queue.cpp:457-491 | the index after a mark fits the live list after it, and shows whether the segment is still in use |
| EffsDisk.MarkedFiles | examples/NetBurner_MSSQL_Client/src/gateway/gateway_queue.cpp:324-336 | the disk stays in order if a segment is deleted exactly when nothing in it is live |
| EffsDisk.NothingReclaimed | examples/NetBurner_MSSQL_Client/src/gateway/gateway_queue.cpp:269-272 | recovery of a disk in order deletes nothing |
| EffsStore.Store.constructor | examples/NetBurner_MSSQL_Client/src/gateway/gateway_queue.cpp:560-577 | an empty store |
| EffsStore.Store.AllocateEventId | examples/NetBurner_MSSQL_Client/src/gateway/gateway_queue.cpp:584-597 | a fresh id, with the META file kept up to date |
| EffsStore.Store.FindFreeIndex | examples/NetBurner_MSSQL_Client/src/gateway/gateway_queue.cpp:165-173 | the first free slot, if any |
| EffsStore.Store.FindIndexByEventId | examples/NetBurner_MSSQL_Client/src/gateway/gateway_queue.cpp:175-183 | the first slot of that id, if any |
| EffsStore.Store.Append | examples/NetBurner_MSSQL_Client/src/gateway/gateway_queue.cpp:338-419 | the exact condition of acceptance; accepted, the event becomes the last live record - unless the active segment is 256: then it is acknowledged but becomes the whole of a file that recovery never reads, whatever that file held |
| EffsStore.Store.WriteRecord | examples/NetBurner_MSSQL_Client/src/gateway/gateway_queue.cpp:374-417 | what reaches the file, the index, the counters and the META file |
| EffsStore.Store.AddRecord | examples/NetBurner_MSSQL_Client/src/gateway/gateway_queue.cpp:374-417 | the record is added to disk, index and live list together |
| EffsStore.Store.Serialize | examples/NetBurner_MSSQL_Client/src/gateway/gateway_queue.cpp:347-353 | exactly if the image fits the payload limit |
| EffsStore.Store.MaybeDeleteSegment | examples/NetBurner_MSSQL_Client/src/gateway/gateway_queue.cpp:324-336 | the file goes exactly if no index entry refers to it |
| EffsStore.Store.MarkCommitted | examples/NetBurner_MSSQL_Client/src/gateway/gateway_queue.cpp:457-476 | the id's record leaves the live list, and nothing else changes there |
| EffsStore.Store.Quarantine | examples/NetBurner_MSSQL_Client/src/gateway/gateway_queue.cpp:478-491 | the id's record stays live under the quarantined flag |
| EffsStore.Store.PeekPending | examples/NetBurner_MSSQL_Client/src/gateway/gateway_queue.cpp:421-455 | the event of the first pending slot, and none exactly if no live record is pending; the damage branches are unreachable |
| EffsStore.Store.ScanSegment | examples/NetBurner_MSSQL_Client/src/gateway/gateway_queue.cpp:200-277 | over any file bytes: the entries found go behind those in the index, dead segments are deleted, and it fails exactly if the index is too small |
| EffsStore.Store.ScanSegments | examples/NetBurner_MSSQL_Client/src/gateway/gateway_queue.cpp:289-293 | the same for all segments in turn |
| EffsStore.Store.SumIndex | examples/NetBurner_MSSQL_Client/src/gateway/gateway_queue.cpp:296-301 | the bytes of the indexed records |
| EffsStore.Store.Recover | examples/NetBurner_MSSQL_Client/src/gateway/gateway_queue.cpp:279-304 | over any disk: what is rebuilt from it; over the disk of a valid store: exactly the live records in append order, their bytes, and ids below the next one |
| EffsFacts.RebuiltState | examples/NetBurner_MSSQL_Client/src/gateway/gateway_queue.cpp:279-304 | the rebuilt index, sizes and byte count fit the disk they were rebuilt from |
| EffsStore.Serve | examples/NetBurner_MSSQL_Client/src/gateway/gateway_queue.cpp:584-664 | one request does to the live records what it does to the reference list, and is granted exactly if the reference permits it or the last segment is used up |
| EffsStore.RunThenRecover | examples/NetBurner_MSSQL_Client/src/gateway/gateway_queue.cpp:200-491 | after any run of captures, commits and quarantines a restart finds exactly the reference's live records, in order, and each request was granted exactly if the reference permits it |
| EffsLimit.ReachLimit | examples/NetBurner_MSSQL_Client/src/gateway/gateway_queue.cpp:361-368 | a run of captures and commits, with at most two live records at any time, takes an empty store to active segment 256, whatever the event |
| EffsLimit.KeepOneMore | examples/NetBurner_MSSQL_Client/src/gateway/gateway_queue.cpp:338-476 | one more capture and commit either fills the active segment further or begins the next one, and leaves one record |
| EffsLimit.QueueBeyond | examples/NetBurner_MSSQL_Client/src/gateway/gateway_queue.cpp:338-419 | events queued from then on change file 256 alone, and only the last one accepted is in it |
| EffsLimit.QueueBeyondAndRestart | examples/NetBurner_MSSQL_Client/src/gateway/gateway_queue.cpp:279-419 | and a restart finds exactly the records that were live before them |
| EffsLimit.FilesAfterRecovered | examples/NetBurner_MSSQL_Client/src/gateway/gateway_queue.cpp:289-293 | whatever is accepted from then on, recovery reads the disk as before |
| SqlParse.InsertReparses | examples/NetBurner_MSSQL_Client/src/gateway/gateway_sql.cpp:208-283 | a small parser reads a generated INSERT back as its target, its distinct columns in order of first occurrence, and one literal for each |
| SqlParse.KeptInOrder | examples/NetBurner_MSSQL_Client/src/gateway/gateway_sql.cpp:235-248 | the columns kept are in order |
| SqlParse.KeptExactly | examples/NetBurner_MSSQL_Client/src/gateway/gateway_sql.cpp:178-186 | and exactly the first occurrences |
| SqlParse.KeptDistinct | examples/NetBurner_MSSQL_Client/src/gateway/gateway_sql.cpp:178-186 | so no column occurs twice |
| SqlParse.ListsFollowKept | examples/NetBurner_MSSQL_Client/src/gateway/gateway_sql.cpp:235-279 | column and literal at one position are those of the same field |
| SqlParse.QuotedRead | examples/NetBurner_MSSQL_Client/src/gateway/gateway_sql.cpp:50-66 | an escaped string literal reads back as the text |
| SqlText.MissingMeans | examples/NetBurner_MSSQL_Client/src/gateway/gateway_sql.cpp:131-141 | a value that is missing or null is NULL, or refused where it may not be missing |
| SqlText.BitMeans | examples/NetBurner_MSSQL_Client/src/gateway/gateway_sql.cpp:68-83 | what counts as true in a BIT column, by type |
| SqlText.IntegerMeans | examples/NetBurner_MSSQL_Client/src/gateway/gateway_sql.cpp:147-160 | the number in an integer column, by type, without a sign for the unsigned ones |
| SqlText.FloatMeans | examples/NetBurner_MSSQL_Client/src/gateway/gateway_sql.cpp:96-108 | the float in a REAL or FLOAT column, by type |
| SqlText.TextMeans | examples/NetBurner_MSSQL_Client/src/gateway/gateway_sql.cpp:110-129 | the text in any other column: the tag's own, or one made of the value by type |
| SqlText.Trimmed | examples/NetBurner_MSSQL_Client/src/gateway/gateway_sql.cpp:38-48 | all blanks and tabs at both ends are taken off, and nothing else |
| SqlParse.ValueRead | examples/NetBurner_MSSQL_Client/src/gateway/gateway_sql.cpp:131-174 | a literal reads back, whatever follows it |
| SqlParse.StatementPersists | examples/NetBurner_MSSQL_Client/src/gateway/gateway_serializer.cpp:199-213 | what the queue stores of an event is enough to write the same statement, if each value's type and its field's are written alike |
| SqlParse.StatementSurvivesQueue | examples/NetBurner_MSSQL_Client/src/gateway/gateway_serializer.cpp:51-216 | so the statement survives encoding and decoding unchanged |
| SqlParse.TypeLost | examples/NetBurner_MSSQL_Client/src/gateway/gateway_serializer.cpp:206-210 | a value whose live type is not the mapping's can be written differently after the queue: 2^64-1 becomes -1 |
| SqlUpdate.UpdateReparses | examples/NetBurner_MSSQL_Client/src/gateway/gateway_sql.cpp:284-345 | a generated UPDATE reads back as target, settings and keys if and only if it has a field to set; without one it is built all the same and is no statement |
| SqlUpdate.ChosenExactly | examples/NetBurner_MSSQL_Client/src/gateway/gateway_sql.cpp:302-335 | each list has exactly the fields of its kind that are first of their columns |
| SqlUpdate.ChosenInOrder | examples/NetBurner_MSSQL_Client/src/gateway/gateway_sql.cpp:302-335 | in order |
| SqlUpdate.PairsFollow | examples/NetBurner_MSSQL_Client/src/gateway/gateway_sql.cpp:302-335 | each with its own column and value |
| SqlBuild.SqlBuffer.Append | examples/NetBurner_MSSQL_Client/src/gateway/gateway_sql.cpp:18-28 | an append succeeds exactly if the text and its NUL fit |
| SqlBuild.SqlBuffer.AppendIdent | examples/NetBurner_MSSQL_Client/src/gateway/gateway_sql.cpp:30-36 | a bracketed name, exactly if it fits |
| SqlBuild.SqlBuffer.AppendStringLiteral | examples/NetBurner_MSSQL_Client/src/gateway/gateway_sql.cpp:38-66 | the trimmed text in quotes, quotes doubled, exactly if it fits |
| SqlBuild.SqlBuffer.AppendValue | examples/NetBurner_MSSQL_Client/src/gateway/gateway_sql.cpp:131-174 | the literal that the value means, exactly if it has one and it fits |
| SqlBuild.SqlBuffer.AppendTarget | examples/NetBurner_MSSQL_Client/src/gateway/gateway_sql.cpp:203-223 | database, schema and table |
| SqlBuild.SqlBuffer.AppendColumns | examples/NetBurner_MSSQL_Client/src/gateway/gateway_sql.cpp:234-248 | the columns of first occurrence, separated by commas |
| SqlBuild.SqlBuffer.AppendValues | examples/NetBurner_MSSQL_Client/src/gateway/gateway_sql.cpp:265-279 | their values, separated by commas |
| SqlBuild.SqlBuffer.AppendPairs | examples/NetBurner_MSSQL_Client/src/gateway/gateway_sql.cpp:301-336 | the SET list or the WHERE list |
| SqlBuild.ColumnUsedEarlier | examples/NetBurner_MSSQL_Client/src/gateway/gateway_sql.cpp:178-186 | the loop finds whether an earlier field has the same column |
| SqlBuild.BuildInsert | examples/NetBurner_MSSQL_Client/src/gateway/gateway_sql.cpp:208-283 | the INSERT text, exactly if every value has a literal and it fits |
| SqlBuild.BuildUpdate | examples/NetBurner_MSSQL_Client/src/gateway/gateway_sql.cpp:284-345 | the UPDATE text, exactly if every value has a literal, there is a key and it fits |
| SqlBuild.BuildSqlFromEvent | examples/NetBurner_MSSQL_Client/src/gateway/gateway_sql.cpp:188-356 | succeeds exactly if the event has a statement that fits the buffer, and then returns it |
| SqlBuild.WriteSqlStringLiteral | examples/NetBurner_MSSQL_Client/src/sql_runtime.cpp:181-201 | the quoted text within the buffer; refused exactly if the quotes, the NUL and, unless the last character is a quote, one byte more do not fit |
| Drain.Gateway.constructor | examples/NetBurner_MSSQL_Client/src/gateway/gateway_runtime.cpp:20-25 | an idle gateway with an empty queue |
| Drain.Gateway.Capture | examples/NetBurner_MSSQL_Client/src/gateway/gateway_runtime.cpp:173-187 | the id is used up either way; the event is queued exactly if there is a slot and it fits one |
| Drain.Gateway.DrainOnePending | examples/NetBurner_MSSQL_Client/src/gateway/gateway_sql.cpp:446-480 | only when idle and due: some pending event is staged with its own statement, or dropped for want of one; the gateway stalls exactly if a web request takes the worker after the busy check |
| Drain.Gateway.SqlRuntimePoll | examples/NetBurner_MSSQL_Client/src/sql_runtime.cpp:662-753 | what each outcome of the job does to every part of the state; without a connection nobody is told and the gateway stalls |
| Drain.Gateway.NotifyCommitted | examples/NetBurner_MSSQL_Client/src/gateway/gateway_runtime.cpp:369-376 | the event in flight is committed and all counters cleared |
| Drain.Gateway.NotifyWriteFailed | examples/NetBurner_MSSQL_Client/src/gateway/gateway_runtime.cpp:378-402 | the failure is counted for its event, with back-off; the fifth in a row gives the event up |
| DrainLedger.CaptureKeeps | examples/NetBurner_MSSQL_Client/src/gateway/gateway_runtime.cpp:173-187 | a capture keeps the ledger in order |
| DrainLedger.ExecutionKeeps | examples/NetBurner_MSSQL_Client/src/sql_runtime.cpp:707-731 | an execution of the event's own statement keeps the ledger in order |
| DrainLedger.QuarantineKeeps | examples/NetBurner_MSSQL_Client/src/gateway/gateway_runtime.cpp:395-401 | so does giving up an event that has no statement or failed five times in a row |
| DrainLedger.WriteKeeps | examples/NetBurner_MSSQL_Client/src/sql_runtime.cpp:718-752 | a write that reached the server keeps the ledger and the failure count in order |
| DrainLedger.CaptureStepped | examples/NetBurner_MSSQL_Client/src/gateway/gateway_runtime.cpp:173-187 | a capture uses up an id; the event is queued as it is stored if fewer than 128 are pending and its image fits 1024 bytes |
| DrainLedger.FailedWrite | examples/NetBurner_MSSQL_Client/src/gateway/gateway_runtime.cpp:378-402 | a write that failed: 100 ticks of back-off, one more failure counted for its event, and the fifth sets the event aside |
| DrainLedger.SucceededWrite | examples/NetBurner_MSSQL_Client/src/gateway/gateway_runtime.cpp:369-376 | a write that succeeded: its event committed, all counters cleared |
| DrainLedger.OtherWork | examples/NetBurner_MSSQL_Client/src/sql_runtime.cpp:662-753 | any other job, or none for want of a connection, only opens the gate |
| DrainLedger.FifthFailure | examples/NetBurner_MSSQL_Client/src/gateway/gateway_runtime.cpp:385-401 | failing again and again, an event is set aside by its fifth failure in a row and no earlier |
| Drain.TakeStep | examples/NetBurner_MSSQL_Client/src/gateway/gateway_runtime.cpp:363-402 | one step does exactly what its relation says, unsettles nothing, and in a stalled gateway settles nothing |
| Drain.RunGateway | examples/NetBurner_MSSQL_Client/src/gateway/gateway_runtime.cpp:363-402 | over any run, each step does what its relation says; every event ever appended is pending, committed after its own statement succeeded, or quarantined for want of a statement or after five failures in a row |
| Delivery.DoesKeeps | examples/NetBurner_MSSQL_Client/src/gateway/gateway_runtime.cpp:363-402 | every step of the gateway - capture, web request, drain, worker - keeps the ledger and the event in flight in order and forgets nothing |
| Delivery.AnswersStep | examples/NetBurner_MSSQL_Client/src/gateway/gateway_runtime.cpp:173-187 | only an append that succeeds adds an event to a pulse |
| Delivery.JointKeeps | examples/NetBurner_MSSQL_Client/src/gateway/gateway_runtime.cpp:112-402 | handshake, queue, drain and worker together: every step of any of them, in any interleaving, keeps the joint invariant |
| Delivery.EveryPulseAccountedFor | examples/NetBurner_MSSQL_Client/src/gateway/gateway_runtime.cpp:112-402 | at every moment of every joint run, each completed trigger pulse, and each running one that is acknowledged, has an event of its own in exactly one place: waiting in the queue as captured, its own statement executed with success, or given up for want of a statement or after five failures in a row - if and only if the two tags do not both start high |
| Delivery.LostPulse | examples/NetBurner_MSSQL_Client/src/gateway/gateway_runtime.cpp:134-140 | the joint run that loses a pulse when both tags start high |
| JobGate.RunsOnce | examples/NetBurner_MSSQL_Client/src/sql_runtime.cpp:1034-1134 | under every interleaving of any number of tasks and the worker, the accepted requests are those executed, in order and with their own kinds, and at most one still to run |
| JobGate.NoTokenDropped | examples/NetBurner_MSSQL_Client/src/sql_runtime.cpp:1040-1041 | the loop that empties the semaphore never finds a token |
| JobGate.JobStable | examples/NetBurner_MSSQL_Client/src/sql_runtime.cpp:755-785 | no step of anybody changes the job kind while a request waits or runs |
| JobGate.IdleIsClean | examples/NetBurner_MSSQL_Client/src/sql_runtime.cpp:108-114 | an idle gate has no token, no running worker and nothing accepted that did not run |
| JobGate.BusyNamesJob | examples/NetBurner_MSSQL_Client/src/sql_runtime.cpp:1046-1134 | while the gate is busy the job names the request at hand, but for the end of its cleanup |
| JobGate.CleanupVisible | examples/NetBurner_MSSQL_Client/src/sql_runtime.cpp:106-114 | after every job there is a moment when the gate is busy with a cleared job |
| JobGate.OnlyHolder | examples/NetBurner_MSSQL_Client/src/sql_runtime.cpp:1048-1057 | two tasks never stand in the locked region together |
| JobGate.RequestServed | examples/NetBurner_MSSQL_Client/src/sql_runtime.cpp:1046-1134 | after any run that leaves the gate idle and its lock free, any task that asks is accepted with its kind; the worker runs exactly that and opens the gate again |
| JobGate.AskGranted | examples/NetBurner_MSSQL_Client/src/sql_runtime.cpp:1120-1134 | an idle gate accepts whoever asks |
| JobGate.AskRefused | examples/NetBurner_MSSQL_Client/src/sql_runtime.cpp:1120-1134 | a busy gate refuses, and nothing is left of the attempt |
| JobGate.WorkDone | examples/NetBurner_MSSQL_Client/src/sql_runtime.cpp:755-785 | one token: the comparisons find the job that was set, it runs, and the gate opens |
| JobGate.InvRun | examples/NetBurner_MSSQL_Client/src/sql_runtime.cpp:1034-1134 | the gate's invariant survives every run |
| TdsStream.CutsDoNotMatter | libraries/include/tdslite/detail/tdsl_tds_context.hpp:263-379 | for every well-formed stream and every cut into packets a buffer that keeps what was not consumed fires the same callbacks in the same order and ends up empty |
| TdsStream.ParseSplit | libraries/include/tdslite/detail/tdsl_tds_context.hpp:269-365 | reading a prefix first and the rest later fires what reading at once does |
| TdsStream.KeptExactly | libraries/include/tdslite/util/tdsl_span.hpp:61-103 | the buffer's shift keeps the pending bytes if and only if something was consumed or they were zeros |
| TdsStream.RealExactly | libraries/include/tdslite/util/tdsl_buffer_object.hpp:57-65 | the real buffer and callbacks equal the ideal ones after every packet if and only if each delivery consumes something or leaves only zeros |
| TdsStream.RealAgrees | libraries/include/tdslite/util/tdsl_buffer_object.hpp:57-65 | under that condition both end alike |
| TdsStream.CutsDoNotMatterForReal | libraries/include/tdslite/util/tdsl_buffer_object.hpp:57-65 | and then the packets do not matter to the real buffer either |
| TdsStream.SplitDoneIsLost | libraries/include/tdslite/util/tdsl_span.hpp:87-100 | a DONE token cut anywhere into two packets is lost: no DONE callback fires |
| TdsLoss.ParsedFrom | libraries/include/tdslite/detail/tdsl_tds_context.hpp:269-365 | from where one delivery stopped, the next one reads exactly the tokens that the bytes so far complete |
| TdsLoss.UnreadIsStart | libraries/include/tdslite/detail/tdsl_tds_context.hpp:269-330 | what is unread starts at the first token that is not complete |
| TdsLoss.LostByPosition | libraries/include/tdslite/util/tdsl_buffer_object.hpp:57-65 | for every well-formed stream and cut: the real buffer and callbacks equal the ideal ones after every packet if and only if each packet contains the byte that completes a token or leaves only zeros unread - a condition on positions and zero bytes alone |
| TdsLoss.NamedPacketKeeps | libraries/include/tdslite/util/tdsl_buffer_object.hpp:57-65 | where no token starts with a zero byte, if and only if each packet completes a token or leaves nothing unread |
| TdsLoss.ServerLostByPosition | libraries/include/tdslite/util/tdsl_buffer_object.hpp:57-65 | the same for a server's tokens, by the lengths it wrote |
| TdsLoss.ParseCostFits | libraries/include/tdslite/detail/tdsl_tds_context.hpp:263-379 | over any bytes the callbacks fired need no more bytes than were consumed, and fewer where the first is zero |
| TdsLoss.CallbacksExactly | libraries/include/tdslite/util/tdsl_buffer_object.hpp:57-65 | where every token has a callback and no column has text pointers, the real buffer fires exactly the server's callbacks if and only if no packet loses anything by that condition |
| TdsLoss.PositionsDoNotDecide | libraries/include/tdslite/util/tdsl_span.hpp:87-100 | where a token has no callback, positions do not decide: two streams with tokens of the same sizes and the same cut, of which one loses its DONE and the other does not |
| TdsStream.ShiftLeft | libraries/include/tdslite/util/tdsl_span.hpp:61-103 | what the two loops leave, in place, for every count and bound |
| TdsStream.MoveDown | libraries/include/tdslite/util/tdsl_span.hpp:87-91 | each byte moves down and what it leaves is cleared; a move by nothing clears |
| TdsStream.HandleRow | libraries/include/tdslite/detail/tdsl_command_context.hpp:592-750 | the field loop reads what the row function reads |
| TdsStream.TakeToken | libraries/include/tdslite/detail/tdsl_tds_context.hpp:273-363 | the order of tests yields the next token of the reference |
| TdsStream.HandleTabularResult | libraries/include/tdslite/detail/tdsl_tds_context.hpp:263-379 | the token loop fires the callbacks and stops at the offset of the reference parser |
| TdsStream.Receiver.ReceivePacket | libraries/include/tdslite-net/base/network_io_base.hpp:240-273 | one packet delivered into the real buffer |
| TdsTokens.StableToken | libraries/include/tdslite/detail/tdsl_tds_context.hpp:324-330 | a token is read alike from every prefix that holds it, and waited for otherwise |
| TdsTokens.StableRow | libraries/include/tdslite/detail/tdsl_command_context.hpp:617-742 | the same for a row |
| TdsTokens.StableField | libraries/include/tdslite/detail/tdsl_command_context.hpp:619-734 | the same for a field of any column type |
| TdsTokens.TextptrLength | libraries/include/tdslite/detail/tdsl_command_context.hpp:630-661 | a field that may have a text pointer has at least four bytes |
| TdsLayout.FieldLaidOut | libraries/include/tdslite/detail/tdsl_data_type.hpp:190-365 | whatever the type code and the bytes, the field read is the one the protocol lays out: its fixed size, or the width, null form and legal values of its count |
| TdsLayout.NullDecimal | libraries/include/tdslite/detail/tdsl_data_type.hpp:255-264 | a NULL of a decimal type is handed over as an empty value |
| TdsLayout.EnvCut | libraries/include/tdslite/detail/tdsl_tds_context.hpp:396-470 | an ENVCHANGE of another type than 1 to 4 is read over; one that is cut is waited for |
| TdsLayout.InfoCut | libraries/include/tdslite/detail/tdsl_tds_context.hpp:484-532 | an INFO or ERROR token, handed over or cut anywhere: a cut text is waited for, a missing count or line traps |
| TdsLayout.LoginCut | libraries/include/tdslite/detail/tdsl_tds_context.hpp:543-582 | a LOGINACK is handed over exactly if its name and version are there, and waited for otherwise |
| TdsEmit.FieldRead | libraries/include/tdslite/detail/tdsl_data_type.hpp:190-317 | a field written as its column type prescribes is read back, null or not |
| TdsEmit.RowRead | libraries/include/tdslite/detail/tdsl_command_context.hpp:617-742 | a written row is read back |
| TdsEmit.EnvHandled | libraries/include/tdslite/detail/tdsl_tds_context.hpp:396-470 | an ENVCHANGE written from its type and two values is handed over as they are |
| TdsEmit.InfoHandled | libraries/include/tdslite/detail/tdsl_tds_context.hpp:484-532 | an INFO or ERROR written from its seven contents is handed over as they are, unless it has no text at all |
| TdsEmit.LoginHandled | libraries/include/tdslite/detail/tdsl_tds_context.hpp:543-582 | a LOGINACK written from its four contents is handed over as they are |
| TdsEmit.DoneHandled | libraries/include/tdslite/detail/tdsl_tds_context.hpp:592-617 | so is a DONE from its three |
| TdsEmit.TokenRead | libraries/include/tdslite/detail/tdsl_tds_context.hpp:269-365 | every token written from typed contents is read back as the callback with those contents, whatever follows; one without a callback is read over |
| TdsEmit.StreamRead | libraries/include/tdslite/detail/tdsl_tds_context.hpp:263-379 | every stream of tokens that ends in a DONE is well-formed and fires its callbacks in order |
| TdsEmit.StreamInAnyPackets | libraries/include/tdslite/detail/tdsl_tds_context.hpp:263-379 | so it does in any packets |
| TdsPackets.SendPdu | libraries/include/tdslite-net/base/network_io_base.hpp:307-338 | the payloads concatenate to the buffer, all packets but the last are full with EOM clear, the last is short and has it set, and each length counts the header |
| TdsPackets.HeaderLayout | libraries/include/tdslite-net/base/network_io_base.hpp:318-329 | the header on the wire: type, end-of-message status, length with its high byte first, four zeros |
| TdsPackets.WireStep | libraries/include/tdslite-net/base/network_io_base.hpp:145-276 | what a header makes of the wire: bit 0 of the status ends the message, and a length below 8 or above 32767 is refused |
| TdsPackets.PacketRead | libraries/include/tdslite-net/base/network_io_base.hpp:145-195 | one packet at the front of the wire is read back or refused by its length |
| TdsPackets.ReceiveSent | libraries/include/tdslite-net/base/network_io_base.hpp:136-276 | a message sent in packets is received packet for packet |
| TdsPackets.ReceiveMessage | libraries/include/tdslite-net/base/network_io_base.hpp:104-298 | the receive loop over any wire bytes: a complete message fires exactly the callbacks of its packets and leaves the buffer empty, and a message that fits is always complete |
| TdsPackets.ResponseDelivered | libraries/include/tdslite-net/base/network_io_base.hpp:104-298 | a server's token stream, segmented anyhow, reaches the callbacks in order; over the real buffer if each packet completes a token or leaves only zeros, and where all tokens report only then |
| TdsPackets.PacketSizeOf | libraries/include/tdslite/detail/tdsl_tds_context.hpp:425-435 | the digit loop over an ENVCHANGE value |
| TdsPackets.SizeUnderstood | libraries/include/tdslite/detail/tdsl_tds_context.hpp:437-447 | a packet size announced in decimal (section 2.2.7.9 of MS-TDS) is understood, whatever the size |
| TdsPackets.SizeOfDigits | libraries/include/tdslite/detail/tdsl_tds_context.hpp:425-435 | any run of digits is read modulo 2^16 |
| CipPath.EncodeCipTagPath | libraries/Micro800Client/src/cip_path.cpp:60-128 | accepts exactly the paths that parse and fit, and then writes their segments; the closing parity test never fails |
| CipPath.SegmentLayout | libraries/Micro800Client/src/cip_path.cpp:14-58 | the bytes of a name and of an index, which takes one byte up to 255 and two from 256 |
| CipPath.DecodePathBytes | libraries/Micro800Client/src/cip_path.cpp:14-58 | decoding the emitted segments gives back the names and indices in order |
| CipPath.PathEven | libraries/Micro800Client/src/cip_path.cpp:127-127 | the length is even, and not zero |
| CipPath.PathOk | libraries/Micro800Client/src/cip_path.cpp:66-126 | what a path parses into can always be encoded |
| CipPath.AccumulatedIsWritten | libraries/Micro800Client/src/cip_path.cpp:113-117 | the accumulator holds the written index modulo 2^32 |
| CipPrint.PathParsed | libraries/Micro800Client/src/cip_path.cpp:66-126 | a written path is parsed back: accepted exactly if every index is at most 65535 modulo 2^32, and then into its names and those remainders |
| CipPrint.PathPrinted | libraries/Micro800Client/src/cip_path.cpp:66-126 | nothing else is accepted: every path that parses is a written one, with a dot at the end or not |
| CipPrint.EncodedAsWritten | libraries/Micro800Client/src/cip_path.cpp:104-125 | the bytes of an accepted path decode to the names and indices as they are written if and only if every index is below 2^32 |
| CipPrint.WrapsAround | libraries/Micro800Client/src/cip_path.cpp:113-117 | an accepted path that names another element: A[4294967296] is encoded as A[0] |
| CipPath.AppendCipSymbolSegment | libraries/Micro800Client/src/cip_path.cpp:14-35 | a symbol segment is appended exactly if it fits |
| CipPath.AppendCipArrayIndex | libraries/Micro800Client/src/cip_path.cpp:37-58 | an index up to 65535 is appended exactly if it fits, a larger one never |
| CipPath.ScanIndex | libraries/Micro800Client/src/cip_path.cpp:113-117 | the digit loop |
| CipPath.CopySegment | libraries/Micro800Client/src/cip_path.cpp:68-82 | the characters up to the next dot, refused at 80 |
| CipPath.EncodeIndices | libraries/Micro800Client/src/cip_path.cpp:104-125 | the index loop writes exactly the indices that parse and fit |
| CipPath.EncodeSegment | libraries/Micro800Client/src/cip_path.cpp:84-125 | one dotted segment |
| ConfigRoundTrip.RoundTripExactly | examples/NetBurner_MSSQL_Client/src/gateway/gateway_config.cpp:83-262 | for an accepted configuration whose texts fit, decoding the encoded blob gives it back, all but what is not stored, if and only if no PLC or mapping name, database or schema is empty and no PLC interval is zero |
| ConfigRoundTrip.ConfigReadBack | examples/NetBurner_MSSQL_Client/src/gateway/gateway_config.cpp:83-262 | the positive half, with the final pass over duplicates the identity |
| ConfigRoundTrip.DecodedGiven | examples/NetBurner_MSSQL_Client/src/gateway/gateway_config.cpp:195-241 | whatever the blob, no decoded configuration is empty or zero in those places |
| ConfigRoundTrip.PlcRead | examples/NetBurner_MSSQL_Client/src/gateway/gateway_config.cpp:195-209 | a PLC line is read back |
| ConfigRoundTrip.MappingRead | examples/NetBurner_MSSQL_Client/src/gateway/gateway_config.cpp:210-241 | a mapping line is read back, with or without a PLC name column |
| ConfigRoundTrip.FieldRead | examples/NetBurner_MSSQL_Client/src/gateway/gateway_config.cpp:242-256 | a field line is read back into the mapping read last |
| ConfigRoundTrip.MappingsRead | examples/NetBurner_MSSQL_Client/src/gateway/gateway_config.cpp:122-141 | all mappings with their fields are read back |
| ConfigRoundTrip.LinesJoined | examples/NetBurner_MSSQL_Client/src/gateway/gateway_config.cpp:178-187 | lines that fit their buffer are found again |
| ConfigRoundTrip.DedupeIdentity | examples/NetBurner_MSSQL_Client/src/gateway/gateway_config.cpp:147-167 | distinct columns are left alone |
| ConfigRoundTrip.DedupeDistinct | examples/NetBurner_MSSQL_Client/src/gateway/gateway_config.cpp:147-167 | after the pass columns are distinct and none that was there is gone |
| ConfigLines.HeaderLineText | examples/NetBurner_MSSQL_Client/src/gateway/gateway_config.cpp:99-104 | the header line as a text |
| ConfigLines.PlcLineText | examples/NetBurner_MSSQL_Client/src/gateway/gateway_config.cpp:106-120 | a PLC's line as a text |
| ConfigLines.MappingLineText | examples/NetBurner_MSSQL_Client/src/gateway/gateway_config.cpp:122-131 | a mapping's line as a text |
| ConfigLines.FieldLineText | examples/NetBurner_MSSQL_Client/src/gateway/gateway_config.cpp:132-140 | a field's line as a text |
| ConfigLines.PlcLineShort | examples/NetBurner_MSSQL_Client/src/gateway/gateway_config.cpp:195-209 | a PLC line that says less: skipped without the whole address; intervals that are missing or zero are 200, 3000 and 500 ms |
| ConfigLines.MappingLineShort | examples/NetBurner_MSSQL_Client/src/gateway/gateway_config.cpp:210-241 | a mapping line that says less: skipped without its first ten parts; no PLC name without the twelfth |
| ConfigLines.FieldLineShort | examples/NetBurner_MSSQL_Client/src/gateway/gateway_config.cpp:242-256 | a field line that says less: skipped without its first four parts; missing flags mean required, not nullable, no key |
| ConfigLines.HeaderLineShort | examples/NetBurner_MSSQL_Client/src/gateway/gateway_config.cpp:189-194 | the third number of the header is the revision, zero without it |
| ConfigLines.LineSkipped | examples/NetBurner_MSSQL_Client/src/gateway/gateway_config.cpp:189-257 | a fifth PLC, a ninth mapping, a 17th field, a field without a mapping and lines of other letters are skipped |
| ConfigLines.LongTextSpills | examples/NetBurner_MSSQL_Client/src/gateway/gateway_config.cpp:195-247 | a text longer than its place allows - 31, 63 or 127 characters - is cut there, and what is left of it becomes the next part of the line |
| ConfigLines.BufferedIs | examples/NetBurner_MSSQL_Client/src/gateway/gateway_config.cpp:99-100 | a line that does not fit its 256 bytes loses its end, the newline first |
| Scanf.ScanPrinted | examples/NetBurner_MSSQL_Client/src/gateway/gateway_config.cpp:199-223 | arguments printed by the encoder's formats are read back by the decoder's, with what follows left over |
| Scanf.NumberScanned | examples/NetBurner_MSSQL_Client/src/gateway/gateway_config.cpp:189-247 | "%u" behind white space and a sign: 2^32-1 at most, negated modulo 2^32 |
| ConfigCodec.ConfigValidate | examples/NetBurner_MSSQL_Client/src/gateway/gateway_config.cpp:295-387 | accepts exactly the configurations that meet every check |
| ConfigRoundTrip.AcceptedExactly | examples/NetBurner_MSSQL_Client/src/gateway/gateway_config.cpp:295-387 | the checks in full: sizes, and for each mapping its names, its fields, no column twice, a key for an UPDATE and a PLC that is there |
| ConfigRoundTrip.NamesExactly | examples/NetBurner_MSSQL_Client/src/gateway/gateway_config.cpp:311-344 | trigger and ACK given and different, table, schema and database safe, and 1 to 16 fields, one fewer with the PLC's name |
| ConfigRoundTrip.SafeSqlIdentExactly | examples/NetBurner_MSSQL_Client/src/gateway/gateway_config.cpp:56-80 | a safe SQL name by its character codes |
| ConfigRoundTrip.SafeIdentExactly | examples/NetBurner_MSSQL_Client/src/gateway/gateway_config.cpp:40-52 | a safe schema name by its character codes |
| ConfigCodec.ValidateFields | examples/NetBurner_MSSQL_Client/src/gateway/gateway_config.cpp:345-366 | the field loop, with its inner loop over earlier fields |
| ConfigCodec.DedupeMappingSqlColumns | examples/NetBurner_MSSQL_Client/src/gateway/gateway_config.cpp:147-167 | in place: the fields kept move to the front |
| ConfigCodec.EncodeBlob | examples/NetBurner_MSSQL_Client/src/gateway/gateway_config.cpp:83-144 | succeeds exactly if the blob fits, and then returns its lines |
| ConfigCodec.DecodeBlob | examples/NetBurner_MSSQL_Client/src/gateway/gateway_config.cpp:169-262 | the reset to the defaults, the loop over lines and the final pass, for every blob |
| ConfigStore.LoadedAsSaved | examples/NetBurner_MSSQL_Client/src/gateway/gateway_config.cpp:389-427 | an accepted configuration whose texts fit is loaded exactly as it was saved, every field of it, if and only if no name, database or schema is empty, no interval zero, and event id mode and column, retry limits, scaling and text lengths are the defaults |
| ConfigStore.NoEventIdAfterLoad | examples/NetBurner_MSSQL_Client/src/gateway/gateway_config.cpp:169-172 | whatever is in flash, no statement built after a load carries the event id |
| ConfigStore.EventIdLost | examples/NetBurner_MSSQL_Client/src/gateway/gateway_config.cpp:414-427 | an input for which that matters: an accepted configuration with the event id column on, loaded with it off |
| ConfigStore.LinesKeepSettings | examples/NetBurner_MSSQL_Client/src/gateway/gateway_config.cpp:178-257 | no line of a blob touches the settings outside it |
| ConfigStore.FlashConfig.ConfigSave | examples/NetBurner_MSSQL_Client/src/gateway/gateway_config.cpp:389-412 | succeeds exactly if accepted and the blob fits; then configuration and flash entries say the same, else nothing changes |
| ConfigStore.FlashConfig.ConfigLoad | examples/NetBurner_MSSQL_Client/src/gateway/gateway_config.cpp:414-427 | what is loaded from any flash entries: the decoded blob with the enabled flag put back, or the defaults |
| ConfigStore.FlashConfig.SaveAndRestart | examples/NetBurner_MSSQL_Client/src/gateway/gateway_config.cpp:389-427 | a save and the next start, in the source's order, under that exact condition |
| Calendar.DaysSince1900ToYmd | examples/NetBurner_MSSQL_Client/src/sql_results.cpp:69-102 | the two subtraction loops end with a date whose closed-form day number is the count; it is a valid date if and only if the count is not negative |
| Calendar.RoundTrip | examples/NetBurner_MSSQL_Client/src/sql_results.cpp:69-102 | every valid date is taken back |
| Calendar.SameOrder | examples/NetBurner_MSSQL_Client/src/sql_results.cpp:69-102 | valid dates are ordered as their day numbers, and no two share one |
| Calendar.NextYear | examples/NetBurner_MSSQL_Client/src/sql_results.cpp:74-82 | the closed form grows by the year's days |
| Calendar.NextMonth | examples/NetBurner_MSSQL_Client/src/sql_results.cpp:86-99 | the closed form for months grows by the month's days |

## Left out

- Sockets, DNS, the flash driver and its mounting, storage of the configuration, and the semaphore's own implementation: environment.
- HTML and CSV output, web handlers, logging, error and summary texts: user interface.
- Writes staged from the web share the staging buffer with the gateway; the drain's runs have none.
- The browsing jobs and the query job of the SQL worker: only that they take the worker is modelled.
- Liveness of the drain: a stalled gateway never settles its event, which is stated; that one which is not stalled eventually does is not.
- Delivery.EveryPulseAccountedFor: an event's id is allocated when it is appended, not when its capture begins; one thread does both, so no other id is handed out in between.
- Event ids at 2^64 and two mappings that share tags: preconditions.
- EffsStore.Store.Append: file operations succeed; an append after a torn tail, where offset and end of file can differ, is not modelled.
- EffsStore.Store.Recover: the META file is read as a whole or not at all; its own bytes are not modelled.
- EffsStore.Store.WriteRecord: the index and the segment sizes are sequences replaced as a whole, not arrays written in place.
- RamQueue.Queue.Append: the texts of a quarantine reason are not kept, nor is the size in bytes reported.
- Serializer.PutField: the byte that the source writes past the buffer when exactly six are left is not modelled; the event is refused in both.
- HandshakeRuntime.MappingRuntime.StepMapping: ticks, counters of errors and fires, and the last sampled tag values are not kept; when a step is due is the scheduler's matter.
- Scheduler.Runtime.RuntimePoll: what stepping does to the picked mapping is a parameter; a mapping whose id changed under the runtime is not reset.
- JobGate.RunsOnce: a transition system over single reads and writes, because tasks interleave; there is no class with the functions as methods.
- PlcRead.PlcReadField: floating point and the generic text of a tag are opaque functions; a scaled value is whatever they return.
- PlcRead.FloatWritten: an integer beyond 2^53 configured as text is left out, because its text and its value may round to different floats.
- SqlBuild.SqlBuffer.AppendValue: "%f" and the conversions between float, integer and text are opaque; that "%f" yields a number without blanks or commas is a precondition of reading the text back.
- ConfigRoundTrip.RoundTripExactly: texts contain no tab or newline and start with no blank, and lines fit their 256 bytes, because the line formats can hold no others.
- ConfigCodec.DecodeBlob: octets above 255 in an address carry over by addition where the source combines bits, and "%u" saturates at 2^32-1.
- TdsStream.HandleTabularResult: columns are fixed, COLMETADATA itself is not parsed; at a malformed row or token the model stops, where the source goes on from wherever its reader stands or traps.
- TdsPackets.ReceiveMessage: a packet larger than the room in the buffer ends the model's loop, where the source reads it in pieces and leaves the last piece unread; a connection that breaks within a packet counts as a missing packet.
- TdsStream.Receiver.ReceivePacket: the reader's in-use flag and the writer's overwriting at an offset are not modelled.
- Language tables, the allocator, the HSES client, ListIdentity scanning, type traits: they would add only easy members.
