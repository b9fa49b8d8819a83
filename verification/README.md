# SensorHub: a verified model

SensorHub takes telemetry from devices over MQTT 3.1.1, keeps it per tenant, and hands signed firmware
releases to a CDN. This project models its three stateful parts on one shared store and proves what they
promise over whole sessions, whole runs and every interleaving.

- **Device sessions.** `Bytes`, `Varint`, `Framing` and `Codec` are the wire format of
  `internal/mqtt/packet.go`: the Remaining Length, frames, CONNECT and PUBLISH bodies, and the reader as a
  class that consumes its stream. `Session` says what a session does with the packets it is sent, and
  `Ingest` is the session loop itself, reading from a connection, writing to it and changing the store in
  place, proved to do that. `SessionTrace`, `SessionEffects` and `EndToEnd` prove what holds of every
  session. `Admission` is the accept loop, its slots, wait group and cancellation as interleaved steps.
- **The store.** `Records` gives each operation's meaning on values and defines runs; `Store` is the class
  whose methods are proved against it. `Retention` proves that the bounded readings refine an unbounded
  history, `Isolation` that tenants do not influence one another, `FleetFile` that start-up
  establishes what isolation needs, `Export` (with `Flatten`) that the CSV file is a query over
  the store's history, and `Csv` how much of the file reaches the client.
- **Rollouts.** `Version` and `Release` are the version order and the signed manifest. `Rollout` models
  calls to `create` as interleaved steps, `RolloutSafety` proves what every interleaving guarantees and
  exactly when downgrade protection holds, and `RolloutService` is the service class answering one request
  at a time, proved to be an uninterrupted run of those steps.

How the model reads the code:

- Strings and byte slices are sequences of bytes (`Str`); bit operations are written as arithmetic; a
  nil slice and an empty one are both `[]`; a time is an integer of nanoseconds with 0 for the zero time.
- The clock, JSON decoding, base64 and Ed25519, the outcome of each write and of each deadline call, and
  the CDN's answer are parameters, so theorems hold for every one of their behaviours. A write that fails
  may have delivered any part of its frame. Floats are NaN, infinite or a real number.
- The store's lock is held for the whole of each operation, so an operation is one step.
- A session touches the store through `Device` and `RecordReading` only, and nothing removes a device
  (`KnownDevices`). To the store it is a run of records for its own device (`SessionIsRun`), and whatever
  other sessions, enrolments and audit entries come between those records, the device's readings are the
  same (`SessionAmongOthers`, `TelemetryArrivesAmongOthers`).
- `sort.Slice` in `Fleet` is an insertion sort; `FleetUnique` shows that no other way of sorting, and no
  order of walking the map, could answer differently.
- `RunSession`, `Parse`, `Compare`, `Step` and `Next` are specifications; the methods are proved equal to
  them and the theorems are about them. What the specifications themselves mean is stated in bytes, fields
  and numbers by lemmas that do not use their names for it: the frames and replies on the wire, the order
  of ids and of versions, the signed bytes, each stored reading and each audit entry.

Where the code and its comments part, the model follows the code:

- Versions are not "strictly dotted decimals" (`internal/rollout/release.go:108`): `strconv.Atoi`
  takes a sign, so `+4` and `-0` are accepted (`SignedSpelling`). `RenderParse` and `ParseInjective` say exactly what this costs.
- `RecordReading` does not stamp a reading with the device's organisation, as its comment at
  `internal/store/store.go:114` says; readings are filed by id alone, and `Enrol` overwrites. If an id is
  enrolled into a second organisation, the first sees its device disappear (`TakeoverIsSeen`) and the
  second reads what the device sent for the first (`TakeoverLeaks`). `IsolatedIffSingleHome` proves that
  every organisation is isolated throughout a run if and only if no id gets two organisations,
  `IsolationStep` says which call ends it and `ServiceIsIsolated` that start-up excludes that call.
- No lock spans reading the history and recording an acceptance in `create`. Two overlapping calls can be
  recorded in the wrong order (`OverlapDefeatsProtection` gives such a run). `ForwardIffWindowsBeaten`
  gives the exact condition in every reachable state: each accepted call must beat what its organisation
  was recorded to accept between that call's reading of the history and its own entry.
- The export is said to stop rather than leave a truncated file that looks complete
  (`internal/dashboard/server.go:130-132`), but its CSV writer keeps rows back and the outcome of the last
  flush is not looked at: where the file fits the buffer, every row can be written successfully and the
  client get none (`SilentLoss`). `ClientReceives` says what holds in any case.

## Model

| member | source | states |
|---|---|---|
| Varint.AppendVarint | internal/mqtt/packet.go:267-279 | the loop ends for every n and appends exactly the encoding that `DecodeEncode` inverts |
| Varint.DecodeEncode | internal/mqtt/packet.go:249-279 | below 2^28 `readVarint` gives back what `appendVarint` wrote and consumes just those bytes, whatever follows; everything written from 2^28 on is refused |
| Varint.EncodeThresholds | internal/mqtt/packet.go:267-279 | one to four bytes, exactly at the thresholds of section 2.2.3 of MQTT 3.1.1 |
| Varint.EncodeBytes | internal/mqtt/packet.go:267-279 | the very bytes of every length below 2^28, digit by digit |
| Varint.DecodeIsMinimal | internal/mqtt/packet.go:251-265 | an accepted value is below 2^28 and took at most four bytes; written again it is never longer, and the same bytes if and only if it was not padded with a final zero byte |
| Varint.DecodeFromStable | internal/mqtt/packet.go:251-265 | an answer once decided does not depend on later bytes |
| Varint.DecodeTruncated | internal/mqtt/packet.go:251-265 | a length cut short is never taken for another length |
| Varint.ContinueDecodes | internal/mqtt/packet.go:252-263 | the running sum and shift of the loop compute the positional value, from any point of the loop |
| Framing.Write | internal/mqtt/packet.go:101-111 | refuses exactly the bodies over 65536 bytes, else produces the frame that `ParseFrame` reads back |
| Framing.ParseFrame | internal/mqtt/packet.go:78-111 | one frame is read back as its packet, whatever follows; a reader with a smaller limit answers too large |
| Framing.PacketsFrameAll | internal/mqtt/packet.go:78-111 | reading the concatenation of any list of frames returns exactly that list, then what the remaining bytes hold |
| Framing.FrameAllInjective | internal/mqtt/packet.go:101-111 | two lists of packets have the same bytes if and only if they are the same list |
| Framing.ParseStable | internal/mqtt/packet.go:78-98 | a packet or refusal read from s is the same, with the same bytes consumed, from s ++ t |
| Framing.ParseTruncated | internal/mqtt/packet.go:78-98 | no proper prefix of a frame yields a packet |
| Framing.ParseIsMinimal | internal/mqtt/packet.go:78-98 | a packet framed again is never longer than what was read, and the same bytes if and only if the length was not padded |
| Framing.FrameBytes | internal/mqtt/packet.go:101-111 | type in the high half of the first byte, flags in the low half, then the length |
| Framing.ReadLimit | internal/mqtt/packet.go:78-92 | which limit refuses which body: one below 1 or above 65536 means 65536 |
| Framing.OversizeRefused | internal/mqtt/packet.go:90-92 | a length above 65536 is refused by every reader |
| Framing.Reader.ReadVarint | internal/mqtt/packet.go:251-265 | the imperative reader decodes and consumes as `DecodeEncode` and `DecodeIsMinimal` describe, and tells a stream that ended from an unterminated length |
| Framing.Reader.Read | internal/mqtt/packet.go:78-98 | the imperative reader answers as `Parse` and leaves exactly the unread bytes |
| Codec.DecodeEncodeString | internal/mqtt/packet.go:233-247 | a string of at most 65535 bytes is read back with the rest of the body untouched |
| Codec.EncodeDecodeString | internal/mqtt/packet.go:233-247 | an accepted string, encoded again, rebuilds the bytes it was read from |
| Codec.DecodeEncodePublish | internal/mqtt/packet.go:196-226 | decoding undoes encoding if and only if the QoS is 0 or 1 and the topic fits 65535 bytes (packet id 0 at QoS 0) |
| Codec.PublishArrives | internal/mqtt/packet.go:196-226 | the half of it that senders rely on |
| Codec.EncodeDecodePublish | internal/mqtt/packet.go:196-226 | encoding an accepted PUBLISH rebuilds its body byte for byte and its flags up to DUP and RETAIN |
| Codec.DecodeEncodeConnect | internal/mqtt/packet.go:121-161 | decoding undoes encoding, level 0 read as 4, if and only if the level is 0 or 4 and the client id fits 65535 bytes |
| Codec.ConnectBytes | internal/mqtt/packet.go:121-129 | the CONNECT body byte for byte |
| Codec.PublishBytes | internal/mqtt/packet.go:196-202 | the PUBLISH flags and body byte for byte, packet id high byte first and only at QoS 1 |
| Codec.ConnectAccepted | internal/mqtt/packet.go:137-161 | exactly which bodies are accepted as which CONNECT: trailing bytes and other flags are ignored |
| Codec.CredentialsRefused | internal/mqtt/packet.go:137-161 | exactly which bodies are refused for their credentials |
| SessionTrace.HandlerIsDutiful | internal/ingest/server.go:227-255 | one packet: acceptable telemetry is recorded, then acknowledged at QoS 1; a ping is answered; anything else ends the session and does nothing |
| SessionTrace.LoopFollows | internal/ingest/server.go:219-256 | for every packet list and every failure pattern the loop does exactly what is due for the packets before the first unacceptable one, or before the first transport failure, in order |
| SessionTrace.SessionFollows | internal/ingest/server.go:192-257 | for every byte stream, well formed or not: nothing recorded without an accepted CONNECT, at most one refusal with the right code; otherwise CONNACK 0 and then the due effects in order, and when the session counts as disconnected |
| SessionTrace.EveryRecord | internal/ingest/server.go:228-286 | whatever a session records, for every byte stream and failure pattern, is a finite sample with a metric of 1 to 64 bytes out of a PUBLISH to `fleet/<id>/telemetry`, after an accepted CONNECT, of an enrolled device |
| Session.ReplyBytes | internal/mqtt/packet.go:171-173 | CONNACK, PUBACK and PINGRESP byte for byte: `20 02 00 code`, `40 02` and the id high byte first, `D0 00` |
| Session.AcceptExactly | internal/ingest/server.go:268-280 | exactly which payloads are acceptable, and what is wrong with the others |
| Session.TopicNamesDevice | internal/ingest/server.go:44 | the topic's bytes; two devices never share one |
| SessionTrace.LoopOrderly | internal/ingest/server.go:219-256 | the loop's acknowledgements come after their records and in order, at every moment |
| SessionTrace.AcknowledgementsInOrder | internal/ingest/server.go:239-246 | at every moment of every session the PUBACKs sent are a prefix of the QoS 1 messages recorded, lagging by at most one (section 4.6 of MQTT 3.1.1) |
| SessionEffects.WireReadsBack | internal/ingest/server.go:205-250 | what a session wrote, even with a torn last write, parses to exactly its complete replies in order |
| SessionEffects.SessionStores | internal/ingest/server.go:268-286 | a session changes nothing but its own device's readings and LastSeen, and keeps the last 1024 of the old readings followed by its own |
| SessionEffects.SessionIsRun | internal/ingest/server.go:268-286 | to the store a session is a run of records for its own device |
| SessionEffects.SessionAmongOthers | internal/store/store.go:116-135 | with anything else interleaved, the device's readings become the last 1024 of the old ones and the session's |
| SessionEffects.OnlyRecordsMatter | internal/store/store.go:92-135 | a known device's readings depend on nothing but its own records |
| SessionEffects.StrangersStoreNothing | internal/store/store.go:119-122 | a device that is not enrolled stores nothing |
| EndToEnd.TelemetryArrives | internal/ingest/server.go:192-257 | end to end: encode CONNECT, any list of valid samples and pings, and DISCONNECT; the device's readings become the last 1024 of old ++ samples with metric, value and time as sent and the server's clock, nothing else in the store changes, and the reply bytes parse to CONNACK 0, a PUBACK with each id sent and the PINGRESPs in request order |
| EndToEnd.ScriptEvents | internal/ingest/server.go:192-257 | the events of such a session, one by one, whatever bytes follow the DISCONNECT |
| EndToEnd.ScriptPackets | internal/mqtt/packet.go:78-161 | the server reads from the wire exactly the packets the device meant |
| EndToEnd.RequestBytes | internal/mqtt/packet.go:101-111 | what the device puts on the wire for each request, byte for byte |
| EndToEnd.ScriptBytes | internal/mqtt/packet.go:101-129 | its first frame starts with `10`, its last is `E0 00` |
| EndToEnd.RequestArrives | internal/ingest/server.go:227-250 | each encoded request is recognised as telemetry of its own device with its payload, or as a ping |
| EndToEnd.SessionNeverFails | internal/ingest/server.go:192-257 | without transport failures a session that opens properly never ends in one |
| EndToEnd.TelemetryArrivesAmongOthers | internal/ingest/server.go:192-257 | the same readings whatever other sessions and services do to the store between the session's records |
| EndToEnd.DeviceReadsGreeting | internal/mqtt/packet.go:171-185 | `ReadConnAck` returns the code the server greeted with, whatever follows it |
| Ingest.Conn.ReadPacket | internal/mqtt/packet.go:78-98 | takes the first packet off what the peer still delivers, or reports why there is none |
| Ingest.Conn.Write | internal/mqtt/packet.go:101-111 | puts the whole frame on the wire, or when the write breaks the part that was delivered |
| Ingest.Server.Record | internal/ingest/server.go:268-286 | which payloads are refused and why, that only an enrolled device stores, and the reading stored, field by field |
| Ingest.Server.OnPublish | internal/ingest/server.go:228-246 | record first, then acknowledge; a foreign topic stores nothing |
| Ingest.Server.OnPacket | internal/ingest/server.go:227-255 | the switch produces exactly the events of the specification, in store and on the wire |
| Ingest.Server.Turn | internal/ingest/server.go:219-256 | one turn of the loop is one step of the specified loop and consumes input |
| Ingest.Server.Serve | internal/ingest/server.go:219-256 | the whole loop: outcome, store and bytes written |
| Ingest.Server.OnConnect | internal/ingest/server.go:205-215 | greets or refuses a CONNECT with the right code and stores nothing |
| Ingest.Server.Session | internal/ingest/server.go:192-257 | the imperative session equals `RunSession` in its outcome, its store changes and the bytes it wrote |
| Ingest.Server.Conversation | internal/ingest/server.go:198-257 | everything from the first packet on, or from why there is none |
| Ingest.Server.Handle | internal/ingest/server.go:142-178 | the enrolment gate: serves exactly the verified ids that are enrolled, neither reads from nor answers the rest, and closes every connection |
| Admission.InvHolds | internal/ingest/server.go:104-143 | slots, wait group, places of connections and cancellation agree in every interleaving |
| Admission.CapacityRespected | internal/ingest/server.go:115-138 | live handlers and slots never exceed max(MaxConns, 1), and every slot is covered by the wait group once Add has run |
| Admission.ConnectionsAccountedFor | internal/ingest/server.go:116-143 | every accepted connection is either closed once by the loop and never handled, or given to one handler that closes it once |
| Admission.ReturnsQuiet | internal/ingest/server.go:105-143 | `Serve` returns only after cancelling, with no live handler, no slot taken and every accepted connection closed once |
| Admission.ErrorExactly | internal/ingest/server.go:117-123 | `Serve` ends only by a failing Accept, and returns no error if and only if the context was cancelled from outside before that |
| Admission.CancelledFromOutside | internal/ingest/server.go:108-113 | while the loop goes on, the context is cancelled if and only if somebody outside cancelled it, and the listener is open unless it is cancelled |
| Admission.ClosedForGood | internal/ingest/server.go:110-117 | once the listener is closed nothing more is accepted |
| Records.RunKeepsValid | internal/store/store.go:92-198 | every run keeps each device filed under its own id, readings bounded and only of enrolled devices, and the log free of unowned entries |
| Records.KnownDevices | internal/store/store.go:92-135 | a device is known after a run if and only if it was before or the run enrolled it |
| Records.FleetUnique | internal/store/store.go:138-154 | at most one answer is sorted by id and consists of the organisation's devices: map order cannot show |
| Records.SortByIdSorts | internal/store/store.go:152 | sorting keeps the devices and orders them strictly by id |
| Records.FleetOfIsFleet | internal/store/store.go:138-154 | the specified fleet is that unique answer |
| Records.FleetExactly | internal/store/store.go:138-154 | the fleet is exactly the devices filed with the organisation, each before the next in Go's string order written out |
| Bytes.LessAtDifference | internal/store/store.go:152 | of two ids the one with the smaller byte at the first difference comes first |
| Bytes.LessIsBefore | internal/store/store.go:152 | the order used is Go's string order: a proper prefix, or the smaller byte at the first difference |
| Records.ScopesExactly | internal/store/scope.go:36-52 | a scope is had from an identity with an organisation and names just that one; no other scope yields any |
| Records.RecordExactly | internal/store/store.go:116-135 | the reading stored field by field, what is cut off, LastSeen, and that nothing else changes |
| Records.AppendExactly | internal/store/store.go:185-198 | the entry filed field by field: the scope's organisation, and the clock only where no time was given |
| Records.SelectExactly | internal/store/store.go:211-216 | the selection is every matching entry once, in the order of the log, and no other |
| Store.Store.constructor | internal/store/store.go:82-88 | a new store is empty and valid |
| Store.Store.Enrol | internal/store/store.go:92-100 | refuses a missing id or organisation unchanged, else replaces that id's record and nothing else |
| Store.Store.Device | internal/store/store.go:107-112 | the record of the id, or none |
| Store.Store.RecordReading | internal/store/store.go:116-135 | the whole new state, and unknown devices refused |
| Store.Store.Fleet | internal/store/store.go:138-154 | walking the map in any order gives the one fleet of the scope in ascending order of ids, and nothing without a scope |
| Store.Store.Readings | internal/store/store.go:161-182 | the newest readings up to the clamped limit, newest first, for the owner only |
| Store.Store.AppendAudit | internal/store/store.go:185-198 | the entry is filed under the scope's organisation at the end of the log |
| Store.Store.Audit | internal/store/store.go:202-218 | the backward scan gives the scope's matching entries, newest first |
| Retention.RetainedIsLast1024 | internal/store/store.go:116-135 | over every run a device's readings are the last 1024 of its unbounded history |
| Retention.ReadingsAreNewest | internal/store/store.go:161-182 | a query is the reverse of the last min(clamped limit, N) of that history for the owner, and empty for anyone else |
| Retention.ReadingsExactly | internal/store/store.go:166-181 | the k-th reading of an answer is the k-th newest of the history, min(limit, N) of them, a limit below 1 or above 1024 meaning 1024 |
| Retention.HistoryExactly | internal/store/store.go:116-135 | the history is made of the readings delivered after enrolment, in order, field by field |
| Retention.HistoryChronological | internal/store/store.go:123-125 | under a clock that does not step back histories are chronological |
| Retention.ReadingsNewestFirst | internal/store/store.go:156-182 | then no answer shows an older reading before a newer one |
| Retention.DeviceAfterRun | internal/store/store.go:92-127 | a device is the record of its last enrolment with LastSeen of its last reading since |
| Retention.LastSeenExact | internal/store/store.go:92-127 | LastSeen is the time of the newest of all readings if and only if one came in since the last enrolment, or the record enrolled last bore that very time |
| Retention.LastSeenIsNewest | internal/store/store.go:123-127 | so for a device that sent something since it was enrolled the first reading of every answer bears LastSeen, and no reading is newer |
| Retention.EnrolledOnceLastSeen | internal/store/store.go:92-127 | an id enrolled once always meets the condition once it has a reading |
| Retention.ReEnrolmentResetsLastSeen | internal/store/store.go:98 | a run in which it fails: a second enrolment resets LastSeen and keeps the readings |
| Isolation.IsolatedIffSingleHome | internal/store/store.go:92-218 | the exact condition: every organisation is isolated at every point of a run if and only if no id is enrolled into two organisations |
| Isolation.IsolationStep | internal/store/store.go:92-100 | the exact call: isolation ends if and only if a known id is enrolled into another organisation, which the caller can look up first |
| Isolation.Noninterference | internal/store/store.go:92-218 | if no id is enrolled into two organisations, deleting all operations of the others changes no answer of `Fleet`, `Readings` or `Audit` |
| Isolation.MoveIsSeen | internal/store/store.go:98 | whenever a known id moves, its previous owner's answers change though it did nothing |
| Isolation.TakeoverIsSeen | internal/store/store.go:98 | the smallest input: two enrolments of one id break isolation, without any reading and without breaking attribution |
| Isolation.OthersAreInvisible | internal/store/scope.go:36-52 | two histories that differ only in what others did are indistinguishable |
| Isolation.KeepSame | internal/store/store.go:92-218 | the two runs stay indistinguishable for the organisation after every step |
| Isolation.HomesConsistent | internal/store/store.go:92-100 | under the hypothesis each id has one home in the whole run |
| Isolation.AttributionStep | internal/store/store.go:98 | a step breaks attribution, a property weaker than isolation, if and only if it enrols a known id with readings into another organisation |
| Isolation.SingleHomeAttributed | internal/store/store.go:92-135 | under the hypothesis every readable reading came in while its device belonged to the reader |
| Isolation.TakeoverLeaks | internal/store/store.go:98 | if the device had sent something, the new owner also reads what it sent for the previous one |
| FleetFile.LoadFleet | internal/store/fleet.go:41-61 | accepts exactly nonempty lists of complete lines with distinct ids, keeps them in order, and names the first bad line and its fault |
| FleetFile.EnrolAll | internal/store/fleet.go:65-72 | the store is the run of the enrolments up to the first refused device |
| FleetFile.LoadedIsFresh | internal/store/fleet.go:44-60 | what `LoadFleet` accepts has distinct ids and is enrollable |
| FleetFile.EnrolledExactly | internal/store/fleet.go:65-72 | enrolling a loaded fleet into an empty store leaves exactly those devices and nothing else |
| FleetFile.StartupFleet | cmd/ingest/main.go:49-57 | after start-up each organisation's fleet is its own lines of the file, in ascending order of ids |
| FleetFile.ServiceIsIsolated | cmd/ingest/main.go:49-57 | start-up followed by any telemetry and audit writes meets the hypothesis, so isolation holds |
| Version.ParseVersion | internal/rollout/release.go:111-131 | the loop accepts and yields what `ParseRange`, `ParseRender` and `RenderParse` describe |
| Version.CompareComponents | internal/rollout/release.go:144-153 | the component loop with early return is the sign of the difference of ranks |
| Version.CompareVersions | internal/rollout/release.go:135-154 | the answer is the sign of the difference of ranks in base 10^6, an error exactly when either version does not parse |
| Version.JoinSplit | internal/rollout/release.go:115 | joining the parts of a split gives back the string, and no part holds a dot |
| Version.SplitJoin | internal/rollout/release.go:115 | splitting joined dot-free parts gives back the parts |
| Version.ValuePrint | internal/rollout/release.go:124-127 | a number printed in canonical decimal is read back |
| Version.PrintValue | internal/rollout/release.go:121-127 | digits without a leading zero are the canonical print of their value |
| Version.ComponentRange | internal/rollout/release.go:121-127 | an accepted component is below 10^6, and canonical if and only if it has no sign |
| Version.ComponentExactly | internal/rollout/release.go:121-127 | exactly which spellings a component has, signs included |
| Version.VersionExactly | internal/rollout/release.go:112-120 | a version is one to four components between dots |
| Version.DigitsExactly | internal/rollout/release.go:124 | the value of digits, place by place |
| Version.ParseRange | internal/rollout/release.go:111-131 | an accepted version has one to four components below 10^6 |
| Version.ParseRender | internal/rollout/release.go:111-131 | printing one to four components below 10^6 and parsing gives them back |
| Version.RenderParse | internal/rollout/release.go:111-131 | an accepted version is its own canonical spelling if and only if it has no sign |
| Version.ParseInjective | internal/rollout/release.go:111-131 | parsing is injective on sign-free versions |
| Version.SignedSpelling | internal/rollout/release.go:124-127 | `+4` and `4` parse alike, `-0` is accepted |
| Version.ParseAlphabet | internal/rollout/release.go:111-131 | an accepted version holds only digits, dots and signs |
| Version.RankEqual | internal/rollout/release.go:144-161 | ranks agree if and only if all four padded components do |
| Version.CompareTies | internal/rollout/release.go:133-161 | versions tie if and only if they are equal after zero padding; ranks lie below 10^24 |
| Version.MissingIsZero | internal/rollout/release.go:133-161 | a missing component counts as zero: 1.4 ties with 1.4.0, and any other further component makes a newer version |
| Version.FirstDifferenceDecides | internal/rollout/release.go:144-152 | the first component in which two versions differ decides, whatever follows and however many |
| Version.IncreasingBeats | internal/rollout/release.go:133-154 | in a chain of ever newer versions each beats all before it |
| Version.IncreasingRanks | internal/rollout/release.go:133-154 | and their ranks grow by at least one each |
| Version.ChainBound | internal/rollout/release.go:111-161 | such a chain has at most 10^24 members |
| Release.CheckLowerHex | internal/rollout/release.go:163-170 | the loop accepts exactly the strings of lower-case hexadecimal digits |
| Release.VerifyExactly | internal/rollout/release.go:63-78 | exactly what verification accepts, with the signed bytes written out, and how its faults are told apart |
| Release.DigestExactly | internal/rollout/release.go:43-46 | a digest is `sha256:` and 64 lower-case hexadecimal digits |
| Release.VersionHasNoNewline | internal/rollout/release.go:111-131 | an accepted version contains no newline |
| Release.SignedBytesInjective | internal/rollout/release.go:39-60 | if both versions pass their check, or both digests theirs, the signed bytes agree if and only if version and digest do |
| Release.UncheckedFieldsCollide | internal/rollout/release.go:58-60 | with neither check two different releases can share their signed bytes; one version and one digest of such a pair is malformed |
| Rollout.NewestAccepted | internal/rollout/server.go:142-151 | `currentVersion` is the target of an accepted entry of the organisation after which the log holds no other |
| Rollout.CurrentReadable | internal/rollout/server.go:79-90 | in every reachable state the current version is empty if and only if nothing was accepted, and parses otherwise, so neither internal error about the history can occur |
| Rollout.AdvanceKeepsInv | internal/rollout/server.go:52-117 | any step of any call keeps the invariant of all calls and entries |
| Rollout.ArriveKeepsInv | internal/rollout/server.go:52-56 | so does a new call, or one turned away |
| Rollout.InvHolds | internal/rollout/server.go:52-117 | the invariant holds after every interleaving |
| RolloutSafety.EveryAcceptance | internal/rollout/server.go:68-107 | in every interleaving each accepted entry's manifest was well formed, the pinned 32-byte key verified its 64-byte signature over the context, version and digest, it beat the newest accepted version at its read, and was published, in that order, before it was recorded |
| RolloutSafety.EveryPublication | internal/rollout/server.go:68-100 | nothing ever reaches the CDN, recorded or not, but a manifest that verified, in the name of its sender's organisation |
| RolloutSafety.NothingUnsigned | internal/rollout/server.go:68-76 | with a key under which nothing verifies no interleaving accepts or publishes anything |
| RolloutSafety.OneEntryPerAnswer | internal/rollout/server.go:52-117 | a finished call wrote exactly one entry, accepted if and only if it answered 202 and else denied with a reason that goes with the status; an unfinished one wrote none |
| RolloutSafety.Conservation | internal/rollout/server.go:97-107 | per organisation and version, publications equal accepted entries plus calls between the two |
| RolloutSafety.QuiescentAgreement | internal/rollout/server.go:97-107 | when no call is between the two, CDN and log agree |
| RolloutSafety.ForwardIffWindowsBeaten | internal/rollout/server.go:79-107 | in every reachable state an organisation's rollouts only move forward if and only if each accepted call's version beats everything the organisation was recorded to accept between that call's read and its own entry |
| RolloutSafety.WindowDecides | internal/rollout/server.go:79-95 | a version that passed the comparison at its read would pass it again later if and only if it beats what was accepted in between |
| RolloutSafety.NoOverlapForward | internal/rollout/server.go:79-107 | in particular if no other acceptance falls between a call's read and its append |
| RolloutSafety.DowngradeProtection | internal/rollout/server.go:79-107 | in every interleaving, exactly under that condition the accepted versions strictly increase; then `currentVersion` is the maximum, every later acceptance beats every earlier one, and no version is accepted twice in any spelling |
| RolloutSafety.BothRecorded | internal/rollout/server.go:52-117 | two calls that both read the history first are both recorded, whatever the order of their versions |
| RolloutSafety.OverlapDefeatsProtection | internal/rollout/server.go:79-107 | for any two verified releases there is a run that accepts both in the given order, be the second older or the same |
| RolloutService.Service.CurrentVersion | internal/rollout/server.go:142-151 | the target of the newest accepted entry of the scope |
| RolloutService.Service.List | internal/rollout/server.go:119-133 | the whole history of the caller's organisation, newest first, and nothing without an organisation |
| RolloutService.ListedInFull | internal/rollout/server.go:124 | in every reachable state the prefix filter hides no entry of the organisation |
| RolloutService.Service.Reject | internal/rollout/server.go:172-193 | one denied entry with the reason, and the given status |
| RolloutService.Service.Create | internal/rollout/server.go:52-117 | one request is one uninterrupted run of the interleaved steps, adds one audit entry, and keeps every organisation's rollouts increasing; a caller without an organisation changes nothing |
| RolloutService.Service.Answer | internal/rollout/server.go:58-76 | entry, publication and status are those of the verdict |
| RolloutService.Service.Release | internal/rollout/server.go:79-107 | the same from reading the history on |
| RolloutService.Service.Publish | internal/rollout/server.go:97-107 | shipped and recorded as accepted, or refused and recorded as that |
| RolloutService.AloneSettles | internal/rollout/server.go:52-117 | an uninterrupted call ends in its verdict with exactly its entry and publication |
| RolloutService.AloneNeverOverlaps | internal/rollout/server.go:79-107 | uninterrupted calls meet the condition of downgrade protection |
| RolloutService.AloneEffect | internal/rollout/server.go:52-117 | an uninterrupted call keeps the invariant and has the effect of its verdict |
| RolloutService.AnswersExplained | internal/rollout/server.go:58-107 | exactly when the answer is 202, 409, 502, 403 and 400, in terms of the signature over the written-out bytes, the version order and the CDN |
| RolloutService.EntryExplained | internal/rollout/server.go:58-107 | the entry an uninterrupted call writes, field by field, given its answer |
| Csv.ClientReceives | internal/dashboard/server.go:120-149 | the client always gets a beginning of the file; all of it if no attempt to pass bytes on failed, the final flush included, and only then where failures lose something |
| Csv.WritesSucceed | internal/dashboard/server.go:123-147 | all rows are taken without error if and only if no attempt made meanwhile failed |
| Csv.SilentLoss | internal/dashboard/server.go:121-149 | where the writer keeps everything back, every row can be taken without error and the unchecked final flush still lose the whole file |
| Csv.FailedStays | internal/dashboard/server.go:123-147 | after a failure nothing more reaches the client, so stopping there loses nothing |
| Csv.TextExactly | internal/dashboard/server.go:120-148 | the file is the rows in order, each ended with a newline |
| Export.ExportFleet | internal/dashboard/server.go:105-150 | what the writer does with exactly the rows of the report and a final flush, and nothing without a scope |
| Export.WriteFleet | internal/dashboard/server.go:127-149 | the loop over devices hands over the report's rows, stopping at the first that is not taken |
| Export.WriteDevice | internal/dashboard/server.go:128-148 | the same for the rows of one device |
| Export.DeviceRowsAreNewest | internal/dashboard/server.go:128-147 | a device's rows are its newest min(500, N) readings of the whole history, newest first |
| Export.ReportIsQuery | internal/dashboard/server.go:127-149 | a row is in the file if and only if it joins one of the organisation's devices with one of its newest 500 readings |
| Export.ReportInOrder | internal/dashboard/server.go:127-149 | rows are grouped by device in ascending id order, at most 500 for each |
| Export.ReportIsSafe | internal/dashboard/server.go:158-167 | no text cell starts with a formula character |
| Export.CsvSafeExactly | internal/dashboard/server.go:158-167 | exactly which cells get an apostrophe: those that start with one of `=+-@`, a tab or a carriage return |
| Export.CsvSafeConfuses | internal/dashboard/server.go:158-167 | exactly which two fields become the same cell |
| Export.ExportIsIsolated | internal/dashboard/server.go:99-104 | no other organisation's activity changes a row |

## Left out

- Isolation.Noninterference: requires that no id is enrolled into two organisations; without it the statement is false of the code (`Isolation.TakeoverIsSeen` names the input), and `Isolation.IsolatedIffSingleHome` and `Isolation.IsolationStep` prove that the condition is exact.
- Retention.LastSeenIsNewest: requires a reading since the last enrolment; without it the statement can be false of the code (`Retention.ReEnrolmentResetsLastSeen`), and `Retention.LastSeenExact` gives the exact condition.
- Ingest.Server.Session: runs on a store nobody else changes meanwhile; `SessionEffects.SessionAmongOthers` and `EndToEnd.TelemetryArrivesAmongOthers` carry it into any interleaving with other devices' sessions. Two sessions of one device at a time are not treated.
- Export.ExportFleet: on a store that does not change during the export; the code takes the lock once per device, so readings may come in between. When the CSV writer passes bytes on (its buffer of 4096 bytes) is left open: the theorems hold for every such policy. What lies behind it, the HTTP server's own buffers and the network, is not part of this model.
- Store.Store.Fleet: sorts by insertion where the code calls `sort.Slice`, whose answer must be the same.
- Records.Number: floating-point values are reals, NaN or infinite; rounding and formatting are library code.
- TLS handshake, X.509 verification and the common name (`deviceIDFrom`): the verified device id is an input of `Handle`.
- Timeouts, and that an idle session eventually ends: they depend on the wall clock; a deadline that expires shows as the end of the stream.
- Telling a closed connection from other session errors, and all logging: no effect on store or wire.
- JSON decoding and its size limit, base64, Ed25519, RFC 3339 and CSV quoting: library code, taken as functions or left as records.
- Reading and parsing the fleet file: the model starts from the decoded list of devices.
- The CDN's HTTP client: only whether it took the release matters.
- Authentication, the permission table and routing: sequential checks in front of the handlers, whose result is the identity given to them.
- The dashboard's `fleet` and `telemetry` handlers: they return `Fleet` and `Readings` as they are.
- `Sign` and `LoadReleaseKey`: the first is for tools outside the service, the second reads a key file.
- Process wiring, flags, signals, HTTP server settings, policy and threat-model files: no logic of their own.
