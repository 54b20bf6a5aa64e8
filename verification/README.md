# Telemy: verified models

A Dafny 4.11 project that models the parts of Telemy that carry protocols, codecs and accounting, and proves what
they are relied on for. `dafny verify dfyconfig.toml` checks the whole of it.

## What is modelled

Telemy is an OBS plugin (C++), a local core process (Rust) and a cloud control plane (Go).

- **Wire formats of the plugin.** `MsgPack` defines the MessagePack subset (nil, bool, unsigned integers, strings,
  arrays, maps), an encoder and one reference parser. `MsgPackWriter` and `MsgPackReader` are the plugin's writers,
  its cursor, its skipper and its JSON translator as classes, each proved against those. `EnvelopeMeta` finds an
  envelope's type and scene-switch fields, `JsonText` and `EnvelopeText` are the hand-written JSON escape and scanners,
  `JsonReader` is a reader for the JSON of RFC 8259 with unsigned integers and says what the translator's text means by
  it, `Framing` is the length-prefixed framing over partial reads and writes. The bytes follow the MessagePack specification, section
  "Formats"; where the text departs from section 7 of RFC 8259 is stated below.
- **The plugin's shared state.** `OutboundQueues` interleaves producers with drains that requeue on failure.
  `DockActions` is the ledger of pending dock actions, `DockIntake` the duplicate window, the status requests and the
  replay cache.
- **The core's session loop.** `CoreStatus` holds the overrides, the snapshot and the window of protocol errors,
  `CoreSession` the loop as a class and as a step function over what a turn reads and the clock readings it takes;
  `CoreSwitches`, `CoreTiming`, `CoreHandshake`, `CoreRequests` and `CoreExits` prove what holds over every run of it.
- **The control plane's relay sessions.** `RelayStore` has the tables and every transaction as one atomic step,
  `RelaySaga` the start and stop handlers as processes that interleave at their transactions and cloud calls,
  `RelayLeaks` which instances may be left running, `RelayStranded` which sessions without a handler, `RelayRecords`
  idempotency, `RelayUsage` the billing, and `RelayServer` the store and handlers as objects; a handler's steps are proved
  to be steps of the interleaved system.
- **Metrics.** `Histogram` keeps counts per bucket and renders them cumulatively, `MetricLabels` is the key of a label
  set and the escape of label values.
- **Plugin and core together.** `EndToEnd` composes the queues of mode and setting requests, the two channels, the core's session and the ledger;
  `EndToEndLimits` builds the runs that show its bound exact.

Each class method states its new state through a function of the old one; the laws are then proved about those
functions over all inputs, all runs or all interleavings. What a function means is stated apart from it, in terms of
fields, literal names and bytes: what a built frame reads back as, what a response or a snapshot shows, when a session
ends.

## Where the obvious claim is false

The code is kept as it is; the project proves when the claim does hold and gives a run where it does not.

- Setting requests can be delivered out of date: an enqueue during a drain, a failed send and one more enqueue leave an
  older value behind the newer one (`OutboundQueues.LastValueIsRightExactly`, `StaleSettingWins`).
- A stop handler that reads a session while it is provisioning can leave its instance running
  (`RelayLeaks.RunsLeakExactly`, `StaleStopLeaks`).
- Reusing an idempotency key whose record has expired but was not cleaned up does not protect the next retry
  (`RelayRecords.RetryIsProtectedExactly`, `ExpiredRecordForgets`).
- The type of an envelope is found by a substring search that does not undo escapes, so a type that needs one is
  misread (`EnvelopeText.EnvelopeTypeIsExact`).
- The JSON escape leaves control bytes other than tab, newline and carriage return bare, which section 7 of RFC 8259
  forbids: the translator's text is JSON exactly when no string holds one (`JsonReader.TranslationIsJson`,
  `BareControlByte`).
- The dock's field scanner takes an escape by number for its letters: it reads a JSON string right exactly when it holds
  none (`JsonReader.JsonFieldReadsBack`, `HexEscapeIsMisread`).
- The writers truncate counts to sixteen bits (`MsgPack.ArrayHeaderReadsBack`).
- An unknown mode or setting key is answered with a protocol error that does not count towards the reset
  (`CoreTiming.ResetIsExact`).
- Only switch requests wait for the handshake: a session that is not greeted answers status requests, and applies and
  answers requests for a mode or a setting (`CoreHandshake.EarlyStatusExactly`, `ServedWithoutHandshake`,
  `StatusBeforeHandshake`, `SettingBeforeHandshake`).
- A start whose launch fails and whose undo fails as well leaves its session provisioning, and every later start of that
  user gets this session (`RelayStranded.RunsStrandExactly`, `StrandedBlocks`, `FailedUndoStrands`).
- Requests for one dock action may pass less than 1500 ms apart when a call reads the clock before another one and gets
  the lock after it (`DockIntake.ApartInOrder`, `LateCallerPasses`).
- A request for a mode or a setting can be failed although it arrives: a change is reported when it is read, but a
  repetition is confirmed by the next periodic snapshot only. The dock's timeout suffices exactly when the larger of queue
  plus channel delay and 999 ms plus the core's pace, plus the delivery delay, stays below it
  (`EndToEndLimits.NeverFailsExactly`, `SlowRequestFails`).
- The key of a metric series does not identify its labels: every set of two or more labels shares it with a set of one,
  and a set of one label shares it when its value reads like a further label (`MetricLabels.SharedKeyExactly`).
- The key of a dock action joins its type and id with a bar, which either may hold (`DockIntake.ActionKeyIsSharedExactly`).

## Assumptions

- Every transaction of the control plane is atomic and serializable; a database call may also fail without effect.
- Generated ids are fresh: session ids and relay ids are row positions, cloud instances are numbered, and the ids of
  switch requests are an input that the laws require to be distinct.
- Clocks, telemetry, the outcome of each write, cloud call and database call, the chunk sizes of pipes and what other
  threads do in between are inputs, quantified over everywhere.
- Times are whole milliseconds. The core's push, heartbeat and poll constants are those of the release build.

## Model

| member | source | states |
|---|---|---|
| MsgPack.ParseEnc | obs-plugin-shim/src/ipc_client.cpp:196-270 | the reference parser reads back every tree the writers can express, from the encoding alone, to its last byte |
| MsgPack.ParseEncThenAnything | obs-plugin-shim/src/ipc_client.cpp:273-345 | the same with any bytes behind it: exactly the encoding is consumed |
| MsgPack.EncIsPrefixFree | obs-plugin-shim/src/ipc_client.cpp:41-122 | no encoding is a proper prefix of another; equal encodings come from equal trees |
| MsgPack.EncIsShortest | obs-plugin-shim/src/ipc_client.cpp:63-122 | no accepted byte string for the same tree is shorter than what the writers produce |
| MsgPack.UIntReadsBack | obs-plugin-shim/src/ipc_client.cpp:88-104 | an integer reads back if and only if it is below 2^64 |
| MsgPack.ArrayHeaderReadsBack | obs-plugin-shim/src/ipc_client.cpp:106-113 | an array header reads back if and only if the count is below 2^16, because larger counts are truncated to sixteen bits |
| MsgPack.MapHeaderReadsBack | obs-plugin-shim/src/ipc_client.cpp:115-122 | the same for map headers |
| MsgPack.StrReadsBack | obs-plugin-shim/src/ipc_client.cpp:63-78 | a string reads back in each of its four length classes |
| MsgPack.UIntFormat | obs-plugin-shim/src/ipc_client.cpp:88-104 | the bytes of an integer, width by width, as the MessagePack formats give them |
| MsgPack.LengthFormat | obs-plugin-shim/src/ipc_client.cpp:63-122 | the bytes in front of a string, an array or a map, class by class |
| MsgPack.ValueFormat | obs-plugin-shim/src/ipc_client.cpp:41-122 | the bytes of nil and the two booleans, and what a string, an array and a map are made of |
| MsgPack.ParseIsLocal | obs-plugin-shim/src/ipc_client.cpp:273-414 | what the parser accepts depends only on the bytes it consumes, wherever they stand |
| MsgPack.ParseSlice | obs-plugin-shim/src/ipc_client.cpp:530-534 | the slice between two reader positions around a value is exactly that value, nothing left over |
| MsgPackReader.MpReader.ReadN | obs-plugin-shim/src/ipc_client.cpp:140-145 | succeeds if and only if that many bytes remain, and then returns them and moves past them |
| MsgPackReader.MpReader.ReadString | obs-plugin-shim/src/ipc_client.cpp:153-180 | reads a string in any of its four classes exactly where one stands, and nothing else |
| MsgPackReader.MpReader.ReadBool | obs-plugin-shim/src/ipc_client.cpp:182-194 | reads a boolean exactly where one stands |
| MsgPackReader.MpReader.ReadUInt | obs-plugin-shim/src/ipc_client.cpp:196-226 | reads an unsigned integer in any of its five widths exactly where one stands |
| MsgPackReader.MpReader.ReadMapHeader | obs-plugin-shim/src/ipc_client.cpp:229-249 | reads the count of a map header in its three classes |
| MsgPackReader.MpReader.ReadArrayHeader | obs-plugin-shim/src/ipc_client.cpp:251-270 | reads the count of an array header in its three classes |
| MsgPackReader.MpReader.Skip | obs-plugin-shim/src/ipc_client.cpp:347-414 | on any bytes: skips if and only if the reference parser accepts a value there, and stops where that value ends |
| MsgPackReader.MpReader.ToJson | obs-plugin-shim/src/ipc_client.cpp:308-345 | on any bytes: succeeds if and only if a value stands there whose map keys are all strings; then it writes that value's JSON text and stops where the value ends |
| MsgPackReader.MpReader.ToJsonMap | obs-plugin-shim/src/ipc_client.cpp:273-290 | the same for maps, field by field |
| MsgPackReader.MpReader.ToJsonArray | obs-plugin-shim/src/ipc_client.cpp:292-306 | the same for arrays, item by item |
| MsgPackReader.KeyedFieldsAreParsed | obs-plugin-shim/src/ipc_client.cpp:273-290 | the field loop accepts exactly the field lists of the reference parser whose keys are strings at every depth |
| MsgPackWriter.MpWriter.WriteString | obs-plugin-shim/src/ipc_client.cpp:63-78 | appends one string value to what was written before |
| MsgPackWriter.MpWriter.WriteUInt | obs-plugin-shim/src/ipc_client.cpp:88-104 | appends one integer value in the narrowest width |
| MsgPackWriter.MpWriter.WriteArrayHeader | obs-plugin-shim/src/ipc_client.cpp:106-113 | appends an array header with the count as the writer truncates it |
| MsgPackWriter.MpWriter.WriteMapHeader | obs-plugin-shim/src/ipc_client.cpp:115-122 | appends a map header with the count as the writer truncates it |
| MsgPackWriter.BuildEnvelopeHello | obs-plugin-shim/src/ipc_client.cpp:558-586 | read back to its last byte the frame is one map of six distinct fields: v is 1, the id, the time, type hello, priority high, and a payload of four with the plugin version, protocol version 1 and the three capabilities |
| MsgPackWriter.BuildEnvelopeSetSettingRequest | obs-plugin-shim/src/ipc_client.cpp:648-670 | the same with type set_setting_request and a payload of two, the key and the value asked for |
| MsgPackWriter.BuildEnvelopeSceneSwitchResult | obs-plugin-shim/src/ipc_client.cpp:672-703 | the same with type scene_switch_result and a payload of three: the request id, the outcome, and the error, nil on success or when it is empty |
| EnvelopeMeta.EnvelopeTypeAndSwitchSceneMeta | obs-plugin-shim/src/ipc_client.cpp:504-556 | on any frame, by its fields: it is accepted if and only if the fields can be read, with string keys and string types, and the last type is not empty; it yields that type, and a scene switch whose last payload is a map yields what the payload loop makes of that map, anything else three empty fields |
| EnvelopeMeta.DroppedExactly | obs-plugin-shim/src/ipc_client.cpp:504-556 | the same of the reference function: a frame is dropped if and only if its fields cannot be read or no type but an empty one comes last among them |
| EnvelopeMeta.TypeIsRecovered | obs-plugin-shim/src/ipc_client.cpp:529-531 | a frame with distinct fields in any order and any type but switch_scene, whatever bytes follow, yields that type and three empty fields |
| EnvelopeMeta.BareSwitchIsRecovered | obs-plugin-shim/src/ipc_client.cpp:532-535 | so does a switch_scene without a payload or with one that is no map |
| EnvelopeMeta.AnnounceOwnFrames | obs-plugin-shim/src/ipc_client.cpp:504-703 | the three frames the plugin builds, read by its own reader, yield their own types |
| EnvelopeMeta.TryBuildIncomingEnvelopeJsonFromFrame | obs-plugin-shim/src/ipc_client.cpp:489-502 | succeeds on exactly the frames that hold one renderable value and nothing behind it, with that value's JSON text |
| EnvelopeMeta.ParsersAgree | obs-plugin-shim/src/ipc_client.cpp:273-414 | on any buffer and position: whenever the translator accepts, the skipper accepts and stops at the same place |
| EnvelopeMeta.SwitchSceneIsRecovered | obs-plugin-shim/src/ipc_client.cpp:504-556 | a switch_scene frame with distinct fields in any order, and any further fields, yields its request id, scene name and reason, whatever bytes follow |
| EnvelopeMeta.ScanPayloadReturnsLast | obs-plugin-shim/src/ipc_client.cpp:536-554 | the payload loop returns the last value of each of the three fields |
| EnvelopeMeta.ScanStops | obs-plugin-shim/src/ipc_client.cpp:536-554 | the payload loop ends at the first key that is no string and at the first of the three fields whose value is none, whatever follows, and keeps what it has |
| JsonText.JsonEscape | obs-plugin-shim/src/ipc_client.cpp:423-449 | escapes byte by byte: backslash, quote, newline, carriage return and tab, and no other byte |
| JsonReader.LiteralIsJsonString | obs-plugin-shim/src/ipc_client.cpp:423-449 | a rendered string is a JSON string by section 7 of RFC 8259 if and only if it holds no control byte but tab, newline and carriage return |
| JsonReader.BareControlByte | obs-plugin-shim/src/ipc_client.cpp:423-449 | such a byte: 0x01 is left bare |
| JsonReader.ReadsValue | obs-plugin-shim/src/ipc_client.cpp:273-345 | a JSON reader gets back from the rendered text of any string-keyed tree, with any text behind it, that tree and that text, if no string in the tree holds such a byte, and rejects it otherwise; behind a number the text must not go on with the number |
| JsonReader.TranslationIsJson | obs-plugin-shim/src/ipc_client.cpp:308-345 | the text of any value the translator accepts is one JSON value, that value, under the same condition |
| JsonReader.TranslateEncoding | obs-plugin-shim/src/ipc_client.cpp:308-345 | the round trip: the encoding of a writable string-keyed tree, whatever follows it, is translated to the tree's text, consumed to its last byte, and the text reads back as the tree under the same condition |
| JsonText.ScanUndoesEscape | obs-plugin-shim/src/obs_plugin_entry.cpp:745-820 | scanning a literal built by the escape returns the original bytes and stops behind its closing quote, for every input and every following text |
| JsonText.TryExtractJsonStringField | obs-plugin-shim/src/obs_plugin_entry.cpp:745-820 | the loop finds the field the substring search promises and its unescaped value |
| JsonText.FieldReadsBack | obs-plugin-shim/src/obs_plugin_entry.cpp:745-820 | a string written as a field anywhere reads back, whatever it contains and whatever follows, with any space in front of it, if its quoted name does not occur earlier in the text |
| JsonReader.JsonFieldReadsBack | obs-plugin-shim/src/obs_plugin_entry.cpp:775-812 | a field whose value is any string by section 7 of RFC 8259 is read as that string if and only if no character in it is escaped by its number |
| JsonReader.HexEscapeIsMisread | obs-plugin-shim/src/obs_plugin_entry.cpp:775-805 | such a character: the letter A by its number comes out as five others |
| EnvelopeText.EnvelopeTypeIsExact | obs-plugin-shim/src/obs_plugin_entry.cpp:731-743 | on the JSON text of an envelope in the core's field order, the substring search returns the envelope's type if and only if the type needs no escape, whatever the id, the priority and the payload contain |
| Framing.Pipe.ReadExact | obs-plugin-shim/src/ipc_client.cpp:1024-1042 | over reads of any non-empty sizes: what it delivers leaves the stream, all of it or a part; it is exactly what was asked for unless the stream ends or the running flag is cleared, before or between the reads |
| Framing.Pipe.WriteAll | obs-plugin-shim/src/ipc_client.cpp:1046-1064 | over writes of any sizes: everything is written, or a prefix of it when the pipe breaks or the running flag is cleared on the way |
| Framing.Pipe.TryReadFrame | obs-plugin-shim/src/ipc_client.cpp:1068-1101 | returns the next frame of the byte stream, its length four bytes with the least significant first, or fails exactly when that length is zero or above 65536 or the stream ends in it; when the session stops inside a frame it may fail, but what it returns is always the next frame, whole |
| Framing.Pipe.WriteFrame | obs-plugin-shim/src/ipc_client.cpp:1104-1121 | accepts exactly payloads of 1 to 65536 bytes and appends the length, four bytes with the least significant first, and the payload |
| Framing.Pipe.ReceiveFrames | obs-plugin-shim/src/ipc_client.cpp:911-936 | over polls with and without data: of any sequence of written frames, one for each poll that reports data before the pipe is gone, exactly that sequence is read back, in any chunks; when the session stops on the way, between frames or inside one, a front of it |
| Framing.NextFrameIsExact | obs-plugin-shim/src/ipc_client.cpp:1080-1099 | a stream yields a payload if and only if it starts with that payload's frame and the size is admissible |
| Framing.FramesAreUnique | obs-plugin-shim/src/ipc_client.cpp:1068-1121 | a stream splits into frames in one way only |
| OutboundQueues.OutboundQueue.Put | obs-plugin-shim/src/ipc_client.cpp:751-818 | the enqueue under the lock, for each of the three policies |
| OutboundQueues.OutboundQueue.DrainPending | obs-plugin-shim/src/ipc_client.cpp:1158-1256 | swap, send one by one, put the unsent rest back in front of what other threads queued meanwhile: the whole new state, for any point of failure and any interference |
| OutboundQueues.QueueSetMode | obs-plugin-shim/src/ipc_client.cpp:771-791 | a mode replaces whatever waits, an empty one is ignored |
| OutboundQueues.QueueSetSetting | obs-plugin-shim/src/ipc_client.cpp:793-818 | the loop updates the first waiting request for the key in place, or appends; an empty key is ignored |
| OutboundQueues.ResultsAreConserved | obs-plugin-shim/src/ipc_client.cpp:751-769 | in every state of every interleaving: sent, then in flight, then queued is the whole history in order |
| OutboundQueues.ModesEndInLatest | obs-plugin-shim/src/ipc_client.cpp:771-791 | in every state of every interleaving: that list is a subsequence of the history and its last element is the latest queued mode; right after a request nothing else is queued |
| OutboundQueues.StepKeepsLast | obs-plugin-shim/src/ipc_client.cpp:793-818 | one step keeps every key's last value if and only if it is not an enqueue that finds two waiting requests for its key, the second with another value |
| OutboundQueues.LastWinsThroughout | obs-plugin-shim/src/ipc_client.cpp:793-818 | over whole runs: the last value always wins if and only if no step is such an enqueue |
| OutboundQueues.LastValueIsRightExactly | obs-plugin-shim/src/ipc_client.cpp:793-818 | per key and at any state of any run: the last value sent or waiting is the last one queued if and only if the last enqueue for the key was not such a one, whatever happened before it |
| OutboundQueues.DeliversLastValueExactly | obs-plugin-shim/src/ipc_client.cpp:1189-1219 | so once everything is sent, the last value sent for a key is the last one queued for it if and only if the last enqueue for it was not such a one |
| OutboundQueues.SettingsDeliverLastValue | obs-plugin-shim/src/ipc_client.cpp:1189-1219 | when no unsent key is queued again before a failed send's requeue: queued keys stay unique, and once everything is sent the last value sent per key is the last one queued, across any number of failures |
| OutboundQueues.StaleSettingWins | obs-plugin-shim/src/ipc_client.cpp:1206-1216 | without that hypothesis it fails: a run in which the plugin ends on true after the last request said false |
| DockActions.PendingActions.TrackAction | obs-plugin-shim/src/obs_plugin_entry.cpp:929-948 | an action with an id and a mode or key joins the end of the list, one without changes nothing |
| DockActions.PendingActions.ResolveFromSnapshot | obs-plugin-shim/src/obs_plugin_entry.cpp:1040-1092 | a set_mode is completed if and only if the snapshot has that mode, a set_setting if and only if the snapshot has that value for its key, one of the five; nothing else leaves the list |
| DockActions.PendingActions.DrainExpired | obs-plugin-shim/src/obs_plugin_entry.cpp:1095-1141 | what is 3000 ms old or older has failed, and nothing else leaves the list |
| DockActions.PickKeepsOrder | obs-plugin-shim/src/obs_plugin_entry.cpp:1049-1121 | what stays and what is erased keep the order of the list |
| DockActions.RunBalances | obs-plugin-shim/src/obs_plugin_entry.cpp:1040-1141 | over every interleaving of intake, snapshots and ticks: every action is pending, completed or failed as often as it was tracked |
| DockActions.ResultsAreOutcomes | obs-plugin-shim/src/obs_plugin_entry.cpp:1040-1141 | the lists hold exactly what each action's own history says: completed by the first snapshot that shows it, failed by the first tick at 3000 ms or more, whichever came first |
| DockIntake.RecentActions.ShouldDeduplicate | obs-plugin-shim/src/obs_plugin_entry.cpp:885-909 | for calls that get the lock in any order: rejects if and only if a request with the same type and id, joined by a bar as one key, was let through and no call since, this one included, read the clock more than 1500 ms after it; the map forgets exactly the others |
| DockIntake.RememberedInOrder | obs-plugin-shim/src/obs_plugin_entry.cpp:891-901 | when calls get the lock in the order of their clock readings, that means let through at most 1500 ms ago |
| DockIntake.ApartInOrder | obs-plugin-shim/src/obs_plugin_entry.cpp:891-907 | over any history of calls in that order, two requests let through with the same key lie more than 1500 ms apart |
| DockIntake.LateCallerPasses | obs-plugin-shim/src/obs_plugin_entry.cpp:891-907 | without the order they need not: three calls of which the third reads the clock early and gets the lock late pass, the first and third with one key and one millisecond apart |
| DockIntake.ActionKeyIsSharedExactly | obs-plugin-shim/src/obs_plugin_entry.cpp:892 | a type and an id share their key with another type or id if and only if the type holds a bar behind its first character or the id one before its last |
| DockIntake.StatusRequests.TrackRequest | obs-plugin-shim/src/obs_plugin_entry.cpp:911-917 | ids queue in the order of arrival |
| DockIntake.StatusRequests.Consume | obs-plugin-shim/src/obs_plugin_entry.cpp:919-927 | one id per call, in the order of arrival; completed ids followed by waiting ids are always all tracked ids |
| DockIntake.ReplayCache.CacheEnvelope | obs-plugin-shim/src/obs_plugin_entry.cpp:1143-1167 | the cache holds the last envelope of each status kind and the last eight events of everything seen so far |
| DockIntake.KeptByType | obs-plugin-shim/src/obs_plugin_entry.cpp:1152-1165 | of the envelopes seen it keeps the last hello_ack, the last pong and the last status_snapshot, and the last eight events |
| DockIntake.EventsInOrder | obs-plugin-shim/src/obs_plugin_entry.cpp:1158-1165 | events are kept in the order in which they were seen |
| DockIntake.OneEvent | obs-plugin-shim/src/obs_plugin_entry.cpp:1158 | exactly user notices, protocol errors and scene switches are events |
| CoreStatus.SessionOverrides.SetModeIfChanged | obs-telemetry-bridge/src/ipc/mod.rs:388-394 | reports a change exactly when the mode differs, and holds it afterwards |
| CoreStatus.SessionOverrides.ApplySettingIfChanged | obs-telemetry-bridge/src/ipc/mod.rs:396-441 | refuses exactly the unknown keys; otherwise sets that key, leaves the others, and reports whether the value differs |
| CoreStatus.SessionOverrides.HasAnySettings | obs-telemetry-bridge/src/ipc/mod.rs:443-449 | true exactly when some setting was ever accepted |
| CoreStatus.ProtocolErrorTracker.RecordAndShouldReset | obs-telemetry-bridge/src/ipc/mod.rs:356-367 | asks for a reset if and only if more than five of all errors ever recorded lie in the last ten seconds, although old ones are dropped |
| CoreSession.SessionIo.SendCommands | obs-telemetry-bridge/src/ipc/mod.rs:555-604 | requests are taken until the channel reports a lag or is empty; before the handshake they are dropped, after it each is written, entered in the table and counted, and a failed write ends the session |
| CoreSession.SessionIo.ExpireSwitches | obs-telemetry-bridge/src/ipc/mod.rs:606-642 | every overdue request is removed, in whatever order the table yields them, and no other |
| CoreSession.SessionIo.HandleMessage | obs-telemetry-bridge/src/ipc/mod.rs:712-968 | the effect of each message on the session, as `CoreRequests` and `CoreExits` say it in its own terms |
| CoreSession.SessionIo.OneTurn | obs-telemetry-bridge/src/ipc/mod.rs:555-969 | one pass through the loop body is one step of the session |
| CoreSession.SessionIo.Run | obs-telemetry-bridge/src/ipc/mod.rs:554-970 | the loop is the fold of that step over its turns and stops with the session |
| CoreSwitches.SwitchesAreConserved | obs-telemetry-bridge/src/ipc/mod.rs:555-642 | at every loop head of every run: the written requests are the disjoint union of the pending, answered and timed-out ones, each resolved at most once, none written before the handshake, and the count shown is the table's size |
| CoreSwitches.LateResultsChangeNothing | obs-telemetry-bridge/src/ipc/mod.rs:912-936 | a result changes nothing if and only if its request was never written, is answered or has timed out |
| CoreSwitches.UntilLagIs | obs-telemetry-bridge/src/ipc/mod.rs:555-561 | what a turn takes from the channel are the requests up to the first sign of a lag |
| CoreSwitches.SentInOrder | obs-telemetry-bridge/src/ipc/mod.rs:563-603 | a greeted session whose writes go out sends all of them in order; the table holds each with its scene and its own deadline |
| CoreSwitches.ServeClient | obs-telemetry-bridge/src/ipc/mod.rs:1094-1112 | a session starts with the count that the last one left, and leaves none |
| CoreSwitches.ServeClients | obs-telemetry-bridge/src/ipc/mod.rs:1094-1112 | the same for any number of clients one after another |
| CoreTiming.ReadsDecide | obs-telemetry-bridge/src/ipc/mod.rs:548-970 | as long as a session is open, its handshake, last ping, recorded errors and overrides are functions of what it read; it is greeted if and only if it read a hello of version 1 and answered it |
| CoreTiming.HeartbeatIsExact | obs-telemetry-bridge/src/ipc/mod.rs:651-666 | an open session ends for lack of pings in a turn if and only if its writes before the check go out, it is greeted, and no ping or hello was processed for 3500 ms before the check |
| CoreTiming.HeartbeatLostExactly | obs-telemetry-bridge/src/ipc/mod.rs:554-970 | over whole runs: a run has ended for lack of pings if and only if one of its turns found the session open and met those conditions |
| CoreTiming.HeartbeatIsPrompt | obs-telemetry-bridge/src/ipc/mod.rs:651-666 | it then ends less than 3500 ms plus the loop's pace after the last one |
| CoreTiming.SteadyPingsKeepItOpen | obs-telemetry-bridge/src/ipc/mod.rs:651-666 | over whole runs: while every check is followed by a ping or hello processed less than 3500 ms after the one before the check, no run ends for lack of them |
| CoreTiming.ResetIsExact | obs-telemetry-bridge/src/ipc/mod.rs:356-367 | a session is reset if and only if the read counts as an error, its report goes out where that is required, and more than five such errors lie in the last ten seconds; an unknown mode or setting does not count |
| CoreTiming.SwitchesExpireOnTime | obs-telemetry-bridge/src/ipc/mod.rs:606-642 | what times out is past its deadline by the loop's pace at most, and what stays pending is not past it |
| CoreTiming.SnapshotsKeepComing | obs-telemetry-bridge/src/ipc/mod.rs:644-651 | after the handshake the first snapshot comes within the pace, later ones at gaps below 1000 ms plus the pace |
| CoreExits.PrepareIsExact | obs-telemetry-bridge/src/ipc/mod.rs:555-666 | an open session reaches its read in a turn unless it is greeted and a switch request or a due snapshot does not go out, or no ping or hello came for 3500 ms; which of these ends it is decided in that order |
| CoreExits.ReadExitIsExact | obs-telemetry-bridge/src/ipc/mod.rs:668-968 | from there it ends over the version if and only if the read is another version or a hello of one other than 1 and the notice goes out, in a shutdown if and only if it reads that notice, in an input or output error if and only if the pipe breaks or an answer that is due does not go out; it is greeted then if and only if it was before or read and answered a hello of version 1 |
| CoreExits.GreetedExactly | obs-telemetry-bridge/src/ipc/mod.rs:713-761 | over every run, open or ended: it is greeted if and only if some turn that found it open read a hello of version 1 and answered it |
| CoreExits.MismatchExactly | obs-telemetry-bridge/src/ipc/mod.rs:693-741 | over every run: it ended over the version if and only if some turn that found it open read another version, of the envelope or of a hello, and its notice went out |
| CoreExits.ShutdownExactly | obs-telemetry-bridge/src/ipc/mod.rs:938-955 | over every run: it ended in a shutdown if and only if some turn that found it open read the notice of one |
| CoreRequests.EveryStatusShowsRequests | obs-telemetry-bridge/src/ipc/mod.rs:452-535 | every snapshot in the log of every run, open or ended, shows field by field the requests read before it: the mode is the last of studio and irl asked for, or, if none was, irl if and only if OBS is connected and the relay is provisioning, active or in grace; the state mode follows the connection and the relay; the settings are the last values asked for of the five, absent if and only if none was; the override flag is the last value of manual_override |
| CoreRequests.PushShowsRequests | obs-telemetry-bridge/src/ipc/mod.rs:644-650 | a periodic snapshot that is due is written and shows just that |
| CoreRequests.RequestIsAnswered | obs-telemetry-bridge/src/ipc/mod.rs:779-893 | a valid request for a mode or a setting that repeats the last one of its kind changes nothing at all; any other one, and a request for the status, is answered with a snapshot that shows it |
| CoreRequests.ReadIsNoted | obs-telemetry-bridge/src/ipc/mod.rs:668-968 | a bad frame or message, an unknown type, mode or setting is complained of and changes nothing but the count of errors; a hello of version 1 is acknowledged and counts as a ping; a switch result ends its own request, with its own outcome, and no other |
| CoreHandshake.StatusBeforeHandshake | obs-telemetry-bridge/src/ipc/mod.rs:779-798 | such a run: a first turn that reads a status request is answered, while the switch requests queued for it are dropped |
| CoreHandshake.SettingBeforeHandshake | obs-telemetry-bridge/src/ipc/mod.rs:845-893 | such a run: a first turn that reads a supported setting sets it and is answered with a snapshot that shows it |
| CoreHandshake.EarlyStatusExactly | obs-telemetry-bridge/src/ipc/mod.rs:555-893 | for every run, however it ends: a snapshot is written before the handshake if and only if some turn, on a session that is open and not greeted, reads a status request, a request for a valid mode or one for a supported setting, and its replies go out |
| CoreHandshake.ServedWithoutHandshake | obs-telemetry-bridge/src/ipc/mod.rs:779-893 | as long as a session is open and not greeted: it has written a snapshot if and only if it read such a request, and its overrides are set if and only if it read one for a mode or a setting |
| RelayServer.Store.StartOrGetSession | aegis-control-plane/internal/store/store.go:109-183 | replays a fresh record or refuses another hash; else returns the user's latest live session, or creates one if and only if there is none: it starts now in the region asked for, provisioning, without tokens, relay or seconds; the key is recorded with what is returned |
| RelayServer.Store.PersistIdempotencyRecord | aegis-control-plane/internal/store/store.go:302-316 | the key's record holds the answer and its session; a new one has the request's hash and expires after an hour, an existing one keeps its hash and expiry; all other records stay |
| RelayServer.Store.ActivateProvisionedSession | aegis-control-plane/internal/store/store.go:213-257 | for a provisioning session of the user and a new relay and instance: binds a running relay, and the session is active with the pair token and the relay token of the launch, each in its place, its user, region, times and seconds as before; otherwise nothing changes |
| RelayServer.Store.StopSession | aegis-control-plane/internal/store/store.go:318-360 | stops a live session with the time of the stop, and its relay, which keeps a time of termination it has; a stopped one stays as it is; no other row changes, and the answer shows the row |
| RelayServer.Store.GetSessionByID | aegis-control-plane/internal/store/store.go:259-300 | the row, field by field, for its owner only |
| RelayServer.Store.CleanupExpiredIdempotencyRecords | aegis-control-plane/internal/store/store.go:464-467 | a record stays, as it is, if and only if it expires later than now; no key becomes fresh or stops being fresh at any time from now on |
| RelayRecords.CleanupChangesNoAnswer | aegis-control-plane/internal/store/store.go:464-467 | removing expired records changes neither the answer nor the sessions of any later start |
| RelayRecords.CleanupRenewsKey | aegis-control-plane/internal/store/store.go:302-316 | but a later start with an expired key stores its own hash for a new hour, where without the cleanup the old hash and expiry stay |
| RelayServer.Store.RollupLiveSessionDurations | aegis-control-plane/internal/store/store.go:469-481 | changes durations only, never downwards: a session that serves and has started gets at least its whole seconds so far, and exactly those when its duration rises; all other rows stay |
| RelayStore.RollupCatchesUp | aegis-control-plane/internal/store/store.go:469-481 | a rollup followed by a later one leaves what the later one alone leaves |
| RelayServer.Store.RecordRelayHealth | aegis-control-plane/internal/store/store.go:391-409 | accepts exactly the events of sessions bound to a relay and keeps all earlier ones; the event is then its session's latest unless one observed later is there, and no other session's latest changes |
| RelayStore.LatestHealthIsLatest | aegis-control-plane/internal/store/store.go:483-501 | the latest event of a session is one of its events, observed no earlier than any of them and later than those stored behind it; there is none only if the session has no event |
| RelayServer.Store.ReconcileOutageFromHealth | aegis-control-plane/internal/store/store.go:483-501 | changes reconciled seconds and durations only, never downwards: past provisioning, with a report, both are at least the latest reported uptime, and equal to it when they rise; all other rows stay |
| RelayStore.ReconcileSettles | aegis-control-plane/internal/store/store.go:483-501 | reconciling again without a new report changes nothing |
| RelayServer.Store.UpsertUsageRollups | aegis-control-plane/internal/store/store.go:503-532 | every charged session has a usage row with its seconds, billed by the greater of the two; a row that was there keeps its user and cycle, a new one gets them from the session's user, and no other row changes |
| RelayStore.CommitKeepsSound | aegis-control-plane/internal/store/store.go:109-532 | every transaction keeps the tables sound: one live session per user, a stop time exactly on stopped sessions, relays bound both ways, a relay running exactly while its session is live, durations at least the reconciled seconds |
| RelayStore.RunsKeepTables | aegis-control-plane/internal/store/store.go:109-532 | over every sequence of transactions the tables stay sound and nothing is taken back: owner, region and start never change, stopped is final with its stop time, a relay is bound once and the tokens with it, seconds never decrease |
| RelayStore.ActivatedOnce | aegis-control-plane/internal/store/store.go:235-247 | a session is activated at most once |
| RelayStore.ActivatedStays | aegis-control-plane/internal/store/store.go:213-257 | after a successful activation, whatever commits afterwards, the session's row keeps the launch's pair token, relay token and instance |
| RelaySaga.DoKeepsGood | aegis-control-plane/internal/api/handlers.go:44-262 | what each handler relies on between its steps survives every step of every other handler and job |
| RelayLeaks.StepLeaksExactly | aegis-control-plane/internal/api/handlers.go:83-262 | a step leaks an instance if and only if a cloud call fails and leaves one running, or a stop handler that saw no instance stops a session whose instance runs |
| RelayLeaks.RunsLeakExactly | aegis-control-plane/internal/api/handlers.go:83-262 | over every interleaving of start and stop handlers and jobs: no state has a leak if and only if no step is one of those |
| RelayLeaks.NoLeakedRelay | aegis-control-plane/internal/api/handlers.go:83-262 | then every running instance that no start handler in flight holds belongs to an active session |
| RelayLeaks.LeakingStopIsStale | aegis-control-plane/internal/api/handlers.go:215-246 | a stop that leaks read its session while it was provisioning, and the session was activated before its StopSession |
| RelayLeaks.StaleStopLeaks | aegis-control-plane/internal/api/handlers.go:215-246 | such a run, in which every call succeeds: the session ends stopped and its instance runs on |
| RelayLeaks.ProvisionIsCalledOnce | aegis-control-plane/internal/api/handlers.go:83-97 | Provision is called exactly once for every created session, but for those a handler is about to call it for |
| RelayStranded.StepStrandsExactly | aegis-control-plane/internal/api/handlers.go:83-182 | while every provisioning session has a start handler at work on it, a step leaves one without if and only if it is a failed StopSession that should have undone it |
| RelayStranded.RunsStrandExactly | aegis-control-plane/internal/api/handlers.go:83-182 | over every interleaving: every provisioning session is attended in every state if and only if no step is such a one |
| RelayStranded.StrandedStays | aegis-control-plane/internal/api/handlers.go:83-262 | a session left without a handler stays so, whatever else happens, until a stop request of its owner gets through |
| RelayStranded.StrandedBlocks | aegis-control-plane/internal/store/store.go:109-183 | until then no start of its user creates a session: it returns this one, still provisioning, or the answer of its key's fresh record |
| RelayStranded.FailedUndoStrands | aegis-control-plane/internal/api/handlers.go:83-130 | such a run: the launch fails and so does the stop |
| RelayServer.Server.CompensateRelayStartProvisioned | aegis-control-plane/internal/api/handlers.go:170-182 | deprovision, then stop, whatever others do in between |
| RelayServer.Server.HandleRelayStart | aegis-control-plane/internal/api/handlers.go:44-168 | the handler takes exactly the steps of its process in the run of the whole system, and by the tables at its transactions: 500 when a call fails, 409 for another hash, 200 with the stored or live session, 201 if and only if a new session was created, launched and activated; that answer carries the two tokens of the launch, the user and region asked for and the time of the start, active and with an instance bound |
| RelayServer.Server.HandleRelayStop | aegis-control-plane/internal/api/handlers.go:202-262 | the same for stop: 404 if and only if the read finds no session of the user, 500 if and only if the read, the deprovision of a live session's instance or the stop fails, else 200 with that user's session stopped |
| RelayRecords.StartIsIdempotent | aegis-control-plane/internal/store/store.go:116-138 | after a start committed a new record, and whatever commits until it expires, a start with the same user and key changes nothing and returns the stored answer, or a mismatch for another hash |
| RelayRecords.RetryIsProtectedExactly | aegis-control-plane/internal/store/store.go:302-316 | whatever else commits in between, but for starts with the same key, a retry within the hour finds its record fresh with its hash and answer if and only if the key had no record before or one that has not expired by then |
| RelayRecords.ExpiredRecordForgets | aegis-control-plane/internal/store/store.go:302-316 | once expired and not cleaned up, a record never reports a mismatch again, whatever starts reuse its key |
| RelayUsage.UsageStaysOk | aegis-control-plane/internal/store/store.go:503-532 | over every sequence of transactions: usage rows bill what was measured, for charged sessions only, and never run ahead |
| RelayUsage.UpsertBillsWhatWasMeasured | aegis-control-plane/internal/store/store.go:503-532 | right after an upsert the user's bill is the sum over the sessions of the cycle that are past provisioning |
| RelayUsage.BillNeverRunsAhead | aegis-control-plane/internal/store/store.go:362-389 | between upserts the bill may lag behind that sum, never exceed it |
| RelayUsage.GetUsageCurrent | aegis-control-plane/internal/store/store.go:362-389 | consumed is that sum; remaining minus overage is included minus consumed, neither negative, one of them zero |
| Histogram.Registry.RegisterHistogram | aegis-control-plane/internal/metrics/metrics.go:73-79 | keeps the bounds sorted, none lost; the counts stay in step with them when the name has no series yet or the bounds stay the same |
| Histogram.Registry.Bucket | aegis-control-plane/internal/metrics/metrics.go:121-127 | the loop finds the first bucket whose bound is not below the value |
| Histogram.Registry.ObserveHistogram | aegis-control-plane/internal/metrics/metrics.go:102-133 | every series keeps counting exactly the observations of its own labels; unregistered names are dropped |
| Histogram.Registry.RenderBuckets | aegis-control-plane/internal/metrics/metrics.go:181-197 | each rendered value is the number of observations at most its bound, values never decrease, and the last equals the count |
| MetricLabels.BuildLabelsKey | aegis-control-plane/internal/metrics/metrics.go:239-256 | the key is name, equals sign, value and semicolon per label |
| MetricLabels.PlainKeysDiffer | aegis-control-plane/internal/metrics/metrics.go:239-256 | label sets without those marks in their names and values share a key only if they are the same |
| MetricLabels.SharedKeyExactly | aegis-control-plane/internal/metrics/metrics.go:239-256 | a label set, its names in order and without marks, shares its key with another one if and only if it has two labels or more, or its only label's value holds a semicolon, then a name without marks that sorts behind the label's own, then an equals sign |
| MetricLabels.UnescapeUndoesEscape | aegis-control-plane/internal/metrics/metrics.go:269-274 | the three replacement passes escape each character once, and reading the text format back gives the value |
| EndToEnd.RequestAlwaysCompletes | obs-plugin-shim/src/obs_plugin_entry.cpp:1040-1141 | a set_mode accepted on a connected, greeted session with no later set_mode, and a set_setting with no later request for its key, is never failed, and is completed once the larger of queue plus channel delay and 999 ms plus the core's pace, plus the delivery delay, has passed, if that stays below 3000 ms; whether or not it changes anything in the core |
| EndToEnd.StepKeepsPromise | obs-plugin-shim/src/obs_plugin_entry.cpp:1040-1141 | every step of plugin, channels and core keeps such a request under way or completes it |
| EndToEnd.ReadMoves | obs-telemetry-bridge/src/ipc/mod.rs:799-893 | when the core reads a request for the mode or the key, the promise stays under way: a change is reported at once, a repetition left to the next periodic snapshot, in time for that bound |
| EndToEnd.CoreRunsItsLoop | obs-telemetry-bridge/src/ipc/mod.rs:554-970 | the core's part of every run is a run of its loop: after each act the core is where its loop body, heartbeat check included, has taken it |
| EndToEndLimits.SlowRequestFails | obs-plugin-shim/src/obs_plugin_entry.cpp:1095-1141 | for any delays that reach 3000 ms and a loop that takes time, and either mode or any of the five settings with either value, a run from a session's own beginning, with a ping in every turn, in which such a request is failed: a change read late, or a repetition pushed late |
| EndToEndLimits.NeverFailsExactly | obs-plugin-shim/src/obs_plugin_entry.cpp:1040-1141 | for all delays and every such request: no run that begins between two turns of a session fails it if and only if the core's loop takes no time or the larger of queue plus channel and 999 ms plus pace, plus delivery, is below 3000 ms |

## Left out

- EndToEnd.RequestAlwaysCompletes: assumes a session on which sends succeed and no second hello is sent; what a
  reconnect makes of a request is covered by the queue alone (`OutboundQueues`).
- Histogram.Registry.RegisterHistogram: after a name is registered again with other bounds behind observations, the
  counts no longer belong to the bounds and nothing is promised about its series; wrap-around of the 64-bit counters is
  not modelled.
- Histogram.Registry.RenderBuckets: the values of a series; the order of names and labels and the number formatting of
  the text are not modelled, and observations are reals instead of floats.
- MsgPackReader.MpReader.ToJson: recursion depth is not bounded, as in the original; exhausting the stack is not modelled.
- JsonReader.LiteralIsJsonString: bytes are taken as characters; whether they are well-formed UTF-8 is not modelled.
- CoreSession.SessionIo.HandleMessage: user notices, whose write results are ignored, are not logged; of the debug
  status only the number of pending switches is kept.
- RelayServer.Server.HandleRelayStart: request parsing, authentication and the metrics it records are left out; a crash
  of the server in the middle of a request is not modelled.
- RelayServer.Store.StartOrGetSession: foreign keys to the user table are not modelled; a statement that fails is a
  database call that fails.
- RelayUsage.GetUsageCurrent: users and their cycles are constant, as no code here changes them.
- DockActions.PendingActions.TrackAction: modes and settings are tracked in two lists of this kind.
- Framing.Pipe.TryReadFrame: one writer and one reader per pipe; pipe creation, handles, polling and sleeping are
  operating system calls.
- Decoding of the core's messages (serde, rmp_serde) and its `read_frame` under a timeout: whole messages or error
  events are inputs.
- SQL isolation below serializable.
- The theme added to status snapshots, the Qt and CEF dock host, the dock page and the JavaScript bridge.
- Clearing of pending queues when the plugin unloads: it drops entries without results, so runs end before it.
- Health, bitrate and round-trip time in snapshots: floating-point sampling.
- The harness copy of the codec, tokens, configuration, exporters, the tray and the dashboard: plumbing or easier copies.
- Counters of the metrics registry, the relay manifest and the active-session query: they would only add easy members.
