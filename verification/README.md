# Fleet telemetry: a verified model

This project models the parts of a vehicle-tracking platform in which state, time or bytes have to stay consistent over
whole runs, and proves what they keep. `dafny verify dfyconfig.toml` checks all of it.

- **The device protocol.** `Crc16`, `Avl`, `AvlDecoder` and `Protocol` hold the Teltonika codecs: CRC-16/IBM, the
  Codec 8 and 8 Extended arrays, TCP framing, the IMEI login and Codec 12. The platform has no AVL encoder; `Avl`
  defines the wire layout from the Teltonika wiki page "Codec" and proves the decoder to be its inverse.
  `AvlMeaning` and `ProtocolMeaning` say what is decoded byte by byte, without the encoder or the decoder.
- **The ingest session.** `IngestSession` is the session object cut at its awaits: bytes may arrive, commands may be
  sent, timers may fire and the socket may close between any two steps of the one running drain. `IngestProofs` proves
  what every run of a session keeps, `Durability` what any number of sessions keep that share a deduper and a sink,
  `Arrivals` what each kind of frame does to it, `Downlink` the command queue and `Dedupe` the bounded deduper.
- **Departments and devices.** `Org` is the graph search, `Departments` the forest that create, move and delete keep,
  `Devices` the device table with the allow-list and the IMEI cache derived from it, `DeviceMeaning` what each call
  on devices does, and `AllowListCache` the ingestion-side cache of that list.
- **Streams and caches.** `Trips` proves the online trip detector equal to an offline segmentation, `Alerts` the
  alternation and completeness of edge-triggered alerts, `AlertHistory` that they are what the history of positions
  calls for, `Geometry` the laws of ray casting, and `HotState` with
  `HotStateRuns` when the cached last position is the stored maximum.
- **Secrets.** `Base32` proves the encoder and decoder against section 6 of RFC 4648, and `Tokens` the refresh-token
  families.

Objects that update their fields are classes here, with loops where the program loops; each method is tied to a function
or step of its module, and the theorems are about runs of those steps. Maps are scanned in arbitrary order, so the
results do not depend on it, except where insertion order matters (the deduper, the alert sweep), where it is modelled.
The clock, random ids, Redis replies, sink outcomes and quota checks are parameters; fresh ids are new, and the clock does
not go back where a theorem speaks of time.

Where the code and its own comments disagree, the model follows the code:

- The session's comment says that records are durable before they are acknowledged, and that a failed write is repaired
  by the device's resend. The deduper claims keys before the write, so a resend is acknowledged from the deduper alone
  when that write was rejected (`Durability.RejectedWriteIsAcked`), and also when it is merely unanswered because the
  first connection was dropped (`Durability.OverlapIsAcked`). `Durability.AckIsDurableIff` gives the exact condition.
- The allow-list's comment says that a change shows within `cacheTtlMs`. That holds of an answer that is cached, or whose
  lookup was answered within `cacheTtlMs`, and of no slower one (`AllowListCache.CachedIsFresh`,
  `AllowListCache.FreshIffWithinTtl`).
- The Codec 12 payload is described as ASCII text. Other text does not survive the round trip, and
  `Protocol.Codec12RoundTrip` is an equivalence.
- The hot state is described as a cache of the newest row. A late position or a re-warm overtaken by a batch makes it
  stale (`HotState.LatePositionGoesStale`, `HotStateRuns.OvertakenWarmGoesStale`). `HotState.BatchAgreesIff` and
  `HotStateRuns.StaleIff` say exactly when.

## Model

| member | source | states |
|---|---|---|
| `Crc16.Crc16IBM` | packages/protocol-teltonika/src/crc16.ts:7-16 | the nested loops compute CRC-16/IBM: the sixteen bits, in the order the register shifts them out, are the remainder of the data bits times x^16 modulo x^16 + x^15 + x^2 + 1; the final mask changes nothing |
| `Crc16.CrcIsRemainder` | packages/protocol-teltonika/src/crc16.ts:1-16 | the register after any data is that remainder, by a long division over bit sequences defined on its own, with the coefficients written out |
| `Crc16.CrcLinear` | packages/protocol-teltonika/src/crc16.ts:7-16 | XOR-linearity: the CRC of the XOR of two equal-length inputs is the XOR of their CRCs |
| `Crc16.FeedInjective` | packages/protocol-teltonika/src/crc16.ts:9-14 | feeding the same data never merges two different registers |
| `Crc16.FeedIsBits` | packages/protocol-teltonika/src/crc16.ts:9-14 | feeding bytes is feeding their bits one by one, the lowest of each byte first |
| `Crc16.BurstDetected` | packages/protocol-teltonika/src/crc16.ts:7-16 | for data of any length, two inputs that differ at most in sixteen consecutive bits, counted in that order, have equal CRCs iff they are equal |
| `Crc16.PairIsBurst` | packages/protocol-teltonika/src/crc16.ts:7-16 | a change confined to two adjacent bytes is such a burst |
| `Crc16.CrcCarriesParity` | packages/protocol-teltonika/src/crc16.ts:7-16 | the parity of the CRC is the parity of the data, so every odd number of flipped bits changes it |
| `Avl.RoundTrip` | packages/protocol-teltonika/src/codec8.ts:47-108 | for every list of up to 255 records, Codec 8 or 8 Extended, decoding its layout (followed by anything) returns it: later duplicate IO ids overwrite, the total IO count is ignored |
| `Avl.DecodesWhatItCarries` | packages/protocol-teltonika/src/codec8.ts:47-108 | any byte string that begins with a layout decodes to the records of that layout |
| `Avl.DecodeIsSound` | packages/protocol-teltonika/src/codec8.ts:47-108 | every successful decode consumed such a layout: no field, count or variable element was cut short |
| `Avl.DecodeIff` | packages/protocol-teltonika/src/codec8.ts:47-66 | decoding succeeds exactly on the byte strings that begin with a layout |
| `Avl.CarriesOne` | packages/protocol-teltonika/src/codec8.ts:47-108 | a byte string begins with at most one layout, so the decoded records are the only ones it can mean |
| `AvlMeaning.DecodeMeans` | packages/protocol-teltonika/src/codec8.ts:47-108 | a successful decode from the bytes alone: codec id, count before and after, and between them that many records, each field, group and variable element at its byte offsets and width, and each returned record with exactly those timestamp, priority, six GPS fields, event id, and IO ids with their last values |
| `AvlMeaning.LayoutMeans` | packages/protocol-teltonika/src/codec8.ts:47-108 | the layout of any records, followed by anything, decodes to records that say the same, field by field |
| `AvlMeaning.OverlayMeans` | packages/protocol-teltonika/src/codec8.ts:82-93 | values assigned in turn hold exactly the ids that occur, each with its last value |
| `AvlMeaning.ErrorsMean` | packages/protocol-teltonika/src/codec8.ts:47-64 | which input gives which error |
| `AvlDecoder.DecodeAvlArray` | packages/protocol-teltonika/src/codec8.ts:47-66 | the loop over an advancing Reader computes the specified decoder, error by error; the clamping of `bytes` never shows in a result |
| `AvlDecoder.Reader.Uint` | packages/protocol-teltonika/src/reader.ts:12-17 | a big-endian read returns the value at the offset and advances past it, or throws at the end of the buffer |
| `AvlDecoder.Reader.Take` | packages/protocol-teltonika/src/reader.ts:18 | `bytes` clamps at the end of the buffer but always advances the offset by n |
| `AvlDecoder.Reader.Group` | packages/protocol-teltonika/src/codec8.ts:83-89 | an IO group overlays its elements, in order, on the values read so far |
| `AvlDecoder.Reader.VarGroup` | packages/protocol-teltonika/src/codec8.ts:96-106 | variable elements are read exactly, or the offset is left past the end, where every later read throws |
| `AvlDecoder.Reader.Record` | packages/protocol-teltonika/src/codec8.ts:68-108 | one record is read exactly as its layout says, or fails, or leaves the offset past the end |
| `Protocol.FrameStable` | packages/protocol-teltonika/src/codec8.ts:138-144 | prefix stability: later bytes never change a frame that was complete, and all end up in the rest |
| `Protocol.FrameSplits` | packages/protocol-teltonika/src/codec8.ts:138-144 | frame and rest concatenate to the buffer, and a frame has at least twelve bytes |
| `Protocol.WrapOpens` | packages/protocol-teltonika/src/codec8.ts:147-153 | a wrapped data field is extracted whole from any stream and opens to itself |
| `Protocol.TcpRoundTrip` | packages/protocol-teltonika/src/codec8.ts:111-125 | the AVL round trip through a whole TCP frame with its CRC |
| `Protocol.OtherCrcRejected` | packages/protocol-teltonika/src/codec8.ts:111-123 | under an accepted envelope, other data is accepted iff its CRC is the same, and otherwise rejected as a CRC mismatch |
| `Protocol.BurstOpens` | packages/protocol-teltonika/src/codec8.ts:111-123 | after the header of an accepted frame, a corruption confined to sixteen consecutive bits, in the data, in the CRC field or across the two, is a CRC mismatch, unless it touched only bytes that are never looked at: then the frame opens as before |
| `Protocol.BurstRejected` | packages/protocol-teltonika/src/codec8.ts:111-125 | so `decodeTcpPacket` rejects every such corruption that touched the data or the CRC of a frame it accepted, and decodes the others as before |
| `Protocol.OddFlipsRejected` | packages/protocol-teltonika/src/codec8.ts:111-125 | `decodeTcpPacket` rejects every corruption that flips an odd number of data bits of a frame it accepted |
| `Protocol.BuildTcpAck` | packages/protocol-teltonika/src/codec8.ts:128-132 | the acknowledgement is the record count in four big-endian bytes |
| `Protocol.Codec12Decodes` | packages/protocol-teltonika/src/codec12.ts:24-85 | decoding an encoded command or response gives its type and its text reduced to seven bits |
| `Protocol.Codec12RoundTrip` | packages/protocol-teltonika/src/codec12.ts:24-85 | the Codec 12 round trip is exact iff the text is 7-bit |
| `Protocol.LoginStable` | packages/protocol-teltonika/src/imei.ts:15-23 | prefix stability: once accepted or rejected, a login is not changed by later bytes |
| `Protocol.ImeiRoundTrip` | packages/protocol-teltonika/src/imei.ts:15-29 | an encoded IMEI, followed by anything, parses to itself and takes seventeen bytes |
| `ProtocolMeaning.ValHead` | packages/protocol-teltonika/src/reader.ts:12-17 | a number is read from its most significant byte on |
| `ProtocolMeaning.ExtractMeans` | packages/protocol-teltonika/src/codec8.ts:138-144 | a frame is there iff twelve bytes more than the announced length are, and is exactly those bytes |
| `ProtocolMeaning.OpenMeans` | packages/protocol-teltonika/src/codec8.ts:111-123 | the envelope checks in their order: twelve bytes, four zero bytes, the announced data, the CRC field, and its last two bytes the CRC-16/IBM remainder of the data |
| `ProtocolMeaning.WrapLayout` | packages/protocol-teltonika/src/codec8.ts:147-153 | the bytes of a wrapped frame: four zeros, the length, the data, two zeros and the CRC-16/IBM of the data |
| `ProtocolMeaning.LoginMeans` | packages/protocol-teltonika/src/imei.ts:15-23 | a login is accepted iff its bytes are 0, 15 and fifteen digits, needs more iff it is an incomplete one, and yields those digits |
| `ProtocolMeaning.ImeiMeans` | packages/protocol-teltonika/src/imei.ts:26-29 | exactly fifteen digits are encoded, to those seventeen bytes |
| `ProtocolMeaning.Codec12Means` | packages/protocol-teltonika/src/codec12.ts:66-85 | which bytes of an opened envelope are codec, type, size and text, where the text is cut, and which errors there are |
| `ProtocolMeaning.Codec12Layout` | packages/protocol-teltonika/src/codec12.ts:24-58 | the bytes of an encoded command or response |
| `IngestSession.Session.OnData` | services/ingestion/src/session.ts:60-63 | appends the chunk and queues one drain, at any moment, also after an error |
| `IngestSession.Session.Drain` | services/ingestion/src/session.ts:84-118 | a drain runs from its start to its first suspension as the protocol step says |
| `IngestSession.Session.OnAllowed` | services/ingestion/src/session.ts:90-118 | a drain resumed by the allow-list lookup accepts and goes on to the frames, refuses, or fails |
| `IngestSession.Session.Frames` | services/ingestion/src/session.ts:104-118 | the loop handles frames in a row up to the first await, error or incomplete frame |
| `IngestSession.Session.OnDeduped` | services/ingestion/src/session.ts:125-134 | each answer of the deduper sorts one record into new or duplicate; after the last, the new ones are written |
| `IngestSession.Session.OnDedupeFailed` | services/ingestion/src/session.ts:126-127 | a deduper that rejects ends the drain, the packet unwritten and unacknowledged |
| `IngestSession.Session.OnWritten` | services/ingestion/src/session.ts:132-140 | the packet is acknowledged, with its full record count, only if every target of the sink accepted the write and the socket is open |
| `IngestSession.Session.Abort` | services/ingestion/src/session.ts:153-162 | an error or a reject ends the drain and closes the socket, and the first one is remembered |
| `IngestSession.Session.SendCommand` | services/ingestion/src/session.ts:66-82 | refused before the login; otherwise the command is queued with its timer armed |
| `IngestSession.Session.OnTimer` | services/ingestion/src/session.ts:73-77 | a timeout settles and removes that command alone |
| `IngestSession.Session.OnClosed` | services/ingestion/src/session.ts:164-167 | closing settles every pending command, and the drains go on without a socket |
| `IngestProofs.RunConsumes` | services/ingestion/src/session.ts:59-118 | in every reachable state before an error, login bytes, handled frames and buffer concatenate to the bytes received, and nothing complete is left when no drain is running or queued; after an error, its place in the stream is known |
| `IngestProofs.ParsedWhole` | services/ingestion/src/session.ts:84-118 | at quiescence the login and the frames handled are exactly those of parsing the received bytes in one piece, and the buffer is the incomplete tail |
| `IngestProofs.ChunkingIndependent` | services/ingestion/src/session.ts:59-118 | two runs that received the same bytes, however cut and interleaved with the awaits, agree at quiescence on login, frames and buffer |
| `IngestProofs.FatalFrameIsInStream` | services/ingestion/src/session.ts:109-115 | a session whose first error was a bad frame met it at its place in the stream, after exactly the good frames before it, whatever follows |
| `IngestProofs.AcksInOrder` | services/ingestion/src/session.ts:39-47 | in every run the acknowledgements are, in order, those of the AVL packets handled, and on an open socket none is missing but that of the packet in hand |
| `IngestProofs.DrainsProgress` | services/ingestion/src/session.ts:84-140 | every step of a drain, whatever is answered, leaves fewer bytes to parse, or fewer answers to await, or fewer drains queued, in that order: no chain of drains runs forever |
| `IngestProofs.DrainsNeverBlock` | services/ingestion/src/session.ts:60-63 | in every reachable state a drain step is possible unless no drain is running or queued |
| `IngestProofs.Settles` | services/ingestion/src/session.ts:84-118 | from every reachable state, drain steps alone lead to quiescence or to an error |
| `IngestProofs.QueueRunsAlone` | services/ingestion/src/session.ts:142-151 | in every run of the session its command queue is in a state the queue reaches on its own |
| `IngestProofs.RunKeepsQueue` | services/ingestion/src/session.ts:66-82 | in every run of the whole session a command is settled at most once, is unsettled iff queued with its timer armed, and responses resolve commands in the order they were sent |
| `IngestProofs.SessionResponsesInOrder` | services/ingestion/src/session.ts:142-151 | in every run of the session without a timeout or a close, the n-th response that finds a command resolves the n-th command sent |
| `Arrivals.ResponseResolves` | services/ingestion/src/session.ts:142-151 | a Codec 12 response of 7-bit text, arriving in any chunks, settles exactly the oldest pending command with that text, or nothing if none is pending |
| `Arrivals.OtherMessageIsIgnored` | services/ingestion/src/session.ts:144-147 | a Codec 12 message of any other type changes no command |
| `Arrivals.ArrayIsTaken` | services/ingestion/src/session.ts:111-130 | an AVL array of either codec, arriving in any chunks, is taken in hand with exactly its records, each field as sent, none answered yet |
| `Arrivals.UnfitFrameEnds` | services/ingestion/src/session.ts:104-115 | a frame with any other codec id, or that does not open or decode, arriving in any chunks, ends the session with that frame as the reason and touches no command |
| `Arrivals.AnswerMeans` | services/ingestion/src/session.ts:90-101 | the allow-list answer lets the device in under its IMEI, or closes the socket on it |
| `Arrivals.OnlyAllowedGetIn` | services/ingestion/src/session.ts:86-102 | in every run a session works under an IMEI only after the allow-list accepted that very IMEI |
| `Arrivals.NothingWithoutImei` | services/ingestion/src/session.ts:86-102 | in every run nothing is taken in hand or acknowledged before that |
| `Arrivals.AcksMean` | services/ingestion/src/session.ts:120-140 | in every run the n-th acknowledgement carries the number of all records, and covers the keys of all records, of the n-th AVL frame handled; on an open socket only the packet in hand is unacknowledged |
| `Durability.SessionsRunAlone` | services/ingestion/src/tcp-server.ts:46-77 | among any number of sessions on one deduper and one sink, each is in a state it reaches on its own, so the session theorems hold of all |
| `Durability.RunAccounted` | services/ingestion/src/session.ts:120-140 | in every run of any number of sessions, each key the deduper has claimed was written, with whatever outcome, or is still in the hands of a session, or was dropped when the deduper failed; and what a target holds is what it accepted |
| `Durability.AckIsDurableIff` | services/ingestion/src/session.ts:125-136 | in every run, the packet of an accepted write is durable iff no record was taken for a duplicate of a key, not also new in it, whose writes are unanswered or were all refused by one target; an unanswered one is in the hands of another session or was dropped |
| `Durability.FailuresClose` | services/ingestion/src/session.ts:132-133 | in every run, if a write was rejected or the deduper failed, some session lost its socket |
| `Durability.DurableBeforeAck` | services/ingestion/src/session.ts:132-136 | in every run of any number of sessions, all acknowledgements are honest when sent iff all acknowledged packets were undisputed in that sense, and then all their keys stay durable |
| `Durability.DurableInSeries` | services/ingestion/src/session.ts:132-136 | across reconnects it is enough that no write is rejected, the deduper does not fail, and at most one session at a time has a packet in its hands: none is abandoned before its write is answered |
| `Durability.DurableOnOneConnection` | services/ingestion/src/session.ts:44-46 | on one connection every acknowledgement covers only keys every target already holds, whatever fails, because a failure also closes the socket |
| `Durability.RejectedWriteIsAcked` | services/ingestion/src/session.ts:126-136 | for every IMEI and record there is a run in which a resend after a rejected write is acknowledged though no target holds it |
| `Durability.OverlapIsAcked` | services/ingestion/src/session.ts:126-136 | for every IMEI and record there is a run without any rejected write in which a resend, on a new connection, of a record whose write is unanswered is acknowledged though no target holds it |
| `Downlink.CommandQueue.SendCommand` | services/ingestion/src/session.ts:70-81 | queues the command and arms its timer |
| `Downlink.CommandQueue.OnResponse` | services/ingestion/src/session.ts:142-151 | settles the oldest pending command, if any, and clears its timer |
| `Downlink.CommandQueue.OnTimeout` | services/ingestion/src/session.ts:73-77 | removes the timed-out command, wherever it is in the queue, and settles it |
| `Downlink.CommandQueue.OnClosed` | services/ingestion/src/session.ts:164-167 | settles every pending command as closed, in order |
| `Downlink.SettledAtMostOnce` | services/ingestion/src/session.ts:66-82 | in every run, each command is settled at most once, and is unsettled iff it is queued with its timer armed |
| `Downlink.ResponsesInOrder` | services/ingestion/src/session.ts:142-151 | until a timeout or close, the n-th response that finds a command resolves the n-th command sent |
| `Downlink.ResponsesNeverOvertake` | services/ingestion/src/session.ts:142-167 | in every run, whatever times out or closes, responses resolve commands in the order they were sent |
| `Dedupe.InMemoryDeduper.CheckAndSet` | services/ingestion/src/dedupe.ts:38-45 | a key is new iff it is not held unexpired; then it is set, an expired one in its old place, and the map is evicted if too large |
| `Dedupe.InMemoryDeduper.EvictExpired` | services/ingestion/src/dedupe.ts:46-57 | the two eviction loops compute the specified eviction |
| `Dedupe.EvictKeepsLive` | services/ingestion/src/dedupe.ts:46-57 | eviction meets the bound, drops no live key while the live keys fit, and otherwise leaves exactly the newest live ones |
| `Dedupe.RunBounded` | services/ingestion/src/dedupe.ts:38-57 | after every run the size is at most `maxEntries` and keys are distinct |
| `Dedupe.RefinesUnbounded` | services/ingestion/src/dedupe.ts:31-58 | in every run where unexpired keys number at most `maxEntries`, every answer equals that of an unbounded TTL set |
| `Dedupe.RefinesIffWithinBound` | services/ingestion/src/dedupe.ts:31-58 | the bound is exact: for calls in time order, any key asked right after any call is answered as by the unbounded set iff the unexpired keys always number at most `maxEntries` |
| `Dedupe.DuplicateWasClaimed` | services/ingestion/src/dedupe.ts:38-45 | every duplicate answer has an earlier new answer for the same key, even under an unsteady clock |
| `Dedupe.HoldsMeans` | services/ingestion/src/dedupe.ts:40-41 | a key is a duplicate iff an entry of it expires later than now |
| `Org.ChildrenMap` | services/control-plane/src/engine/org.ts:12-21 | the map lists exactly the parent-child edges |
| `Org.DescendantIds` | services/control-plane/src/engine/org.ts:24-35 | returns exactly the reachable ids, and ends, on any list: cyclic, dangling or with duplicates |
| `Org.WouldCreateCycle` | services/control-plane/src/engine/org.ts:41-45 | true iff the new parent is reachable from the node |
| `Org.ReachableIsUnder` | services/control-plane/src/engine/org.ts:24-35 | searching down from a root and walking up from a node are the same relation |
| `Departments.DepartmentsService.Create` | services/control-plane/src/modules/departments/departments.ts:23-28 | refuses a missing parent, otherwise adds one department |
| `Departments.DepartmentsService.WalkMeets` | services/control-plane/src/modules/departments/departments.ts:43-47 | the unguarded up-walk ends on a forest and meets the department iff it is an ancestor of the start |
| `Departments.DepartmentsService.Update` | services/control-plane/src/modules/departments/departments.ts:33-53 | exactly when an update is accepted, written out; then name and parent of that department are the supplied ones or the old ones, and tenant and every other row are unchanged |
| `Departments.DepartmentsService.Doomed` | services/control-plane/src/domain/in-memory.repository.ts:267-272 | the unguarded growing worklist ends on a forest and holds exactly the subtree |
| `Departments.DepartmentsService.Remove` | services/control-plane/src/domain/in-memory.repository.ts:264-275 | deletes exactly the subtree, or nothing if there is no such department |
| `Departments.NoCycles` | services/control-plane/src/modules/departments/departments.ts:41-47 | on a forest no department is its own ancestor |
| `Departments.CreateKeepsForest` | services/control-plane/src/modules/departments/departments.ts:23-28 | an accepted create keeps the forest |
| `Departments.MoveKeepsForest` | services/control-plane/src/modules/departments/departments.ts:37-48 | a move to a parent outside the moved subtree keeps the forest |
| `Departments.PatchKeepsForest` | services/control-plane/src/modules/departments/departments.ts:33-53 | every accepted update keeps the forest |
| `Departments.MoveMoves` | services/control-plane/src/domain/in-memory.repository.ts:248-257 | after a move everything of the moved subtree is under the new parent, and every other chain of parents is as it was |
| `Departments.InsideMoves` | services/control-plane/src/domain/in-memory.repository.ts:248-257 | the chain of each moved department is the old one up to the moved department and goes on as that of the new parent |
| `Departments.RemoveKeepsForest` | services/control-plane/src/domain/in-memory.repository.ts:264-275 | the cascade leaves no dangling parent |
| `Departments.AlwaysForest` | services/control-plane/src/modules/departments/departments.ts:23-57 | every sequence of create, update and delete keeps parent links acyclic, in-tenant and non-dangling |
| `Departments.LinksAreSound` | services/control-plane/src/modules/departments/departments.ts:23-57 | in every run each link is empty or names a department of the same tenant, and no chain of links comes back |
| `Departments.WalkAgreesWithSearch` | services/control-plane/src/modules/departments/departments.ts:37-48 | a move is refused as a cycle iff `wouldCreateCycle` says so |
| `Departments.CascadeAgreesWithSearch` | services/control-plane/src/domain/in-memory.repository.ts:267-274 | the cascade deletes exactly the ids `descendantIds` returns |
| `Devices.ControlPlane.FindByImei` | services/control-plane/src/domain/in-memory.repository.ts:78-81 | finds a live device of the IMEI, or there is none |
| `Devices.ControlPlane.Provision` | services/control-plane/src/modules/devices/devices.service.ts:46-61 | each refusal in its order; otherwise one new device and its IMEI published |
| `Devices.ControlPlane.SetStatus` | services/control-plane/src/modules/devices/devices.service.ts:108-115 | changes the status and publishes or withdraws the IMEI accordingly |
| `Devices.ControlPlane.Remove` | services/control-plane/src/modules/devices/devices.service.ts:131-139 | soft-deletes, withdraws the IMEI and forgets its cache entry |
| `Devices.ControlPlane.Restore` | services/control-plane/src/modules/devices/devices.service.ts:152-164 | each refusal in its order; otherwise undeletes, publishes if sending, forgets the cache entry |
| `Devices.ControlPlane.ResolveDevice` | services/control-plane/src/modules/telemetry/telemetry.consumer.ts:174-184 | answers from an unexpired entry, otherwise looks up and caches, for 30 s or 10 s |
| `Devices.ControlPlane.Resync` | services/control-plane/src/allowlist.bootstrap.ts:17-21 | whatever was published before, the published set is the derived one afterwards |
| `Devices.ControlPlane.List` | services/control-plane/src/modules/devices/devices.service.ts:77-80 | the scan returns exactly the live devices of the tenant whose department chain passes through the department of the user, or all of them for a tenant-wide user |
| `Devices.AlwaysPublished` | services/control-plane/src/modules/devices/devices.service.ts:46-164 | in every reachable state live IMEIs are unique and the published set equals `activeImeis()` |
| `Devices.AlwaysCacheTrue` | services/control-plane/src/modules/telemetry/telemetry.consumer.ts:165-184 | in every run of provision, status change, delete, restore and lookup, cache entries stay true |
| `Devices.PositiveIsCurrent` | services/control-plane/src/modules/telemetry/telemetry.consumer.ts:165-184 | a cached positive entry, however old, names the device a lookup would find now |
| `Devices.ResolvesInTime` | services/control-plane/src/modules/telemetry/telemetry.consumer.ts:174-184 | a device live since time T resolves at every time from T + 10 000 ms |
| `Devices.ScopeFor` | services/control-plane/src/modules/devices/devices.service.ts:40-44 | no scope for a tenant-wide user, otherwise the reachable departments |
| `Devices.ListIsExact` | services/control-plane/src/modules/devices/devices.service.ts:98-106 | a device is visible to a scoped user iff it is live, of the tenant, and its department chain passes through theirs |
| `DeviceMeaning.ProvisionMeans` | services/control-plane/src/modules/devices/devices.service.ts:46-61 | a provision is accepted iff the IMEI is free, the plan has room and the department is allowed to the caller; then exactly one device appears, with the tenant, IMEI and department of the call, and is published; the refusals in their order |
| `DeviceMeaning.SetStatusMeans` | services/control-plane/src/modules/devices/devices.service.ts:108-115 | which device changes, and how the published set follows the new status |
| `DeviceMeaning.RemoveMeans` | services/control-plane/src/modules/devices/devices.service.ts:131-139 | which device is marked deleted, withdrawn and forgotten |
| `DeviceMeaning.RestoreMeans` | services/control-plane/src/modules/devices/devices.service.ts:152-164 | exactly when each refusal and the restore happen, and what the restore changes |
| `DeviceMeaning.ResolveMeans` | services/control-plane/src/modules/telemetry/telemetry.consumer.ts:174-184 | an entry serves until it expires; otherwise the table answers, and the answer is kept for 30 000 ms, or 10 000 if there is none |
| `DeviceMeaning.PublishedMeans` | services/control-plane/src/domain/in-memory.repository.ts:117-121 | in every run an IMEI is published iff a device that is not deleted, provisioned or active, has it, and only one can |
| `DeviceMeaning.ResolvesAfterTenSeconds` | services/control-plane/src/modules/telemetry/telemetry.consumer.ts:54-56 | a device that has been live for 10 000 ms resolves to itself, whatever was cached |
| `AllowListCache.RedisAllowList.Begin` | services/ingestion/src/allowlist.ts:37-41 | a cached answer until its expiry, otherwise a lookup left pending |
| `AllowListCache.RedisAllowList.Finish` | services/ingestion/src/allowlist.ts:41-44 | answers and caches what Redis found at some moment of the lookup, dated from its start |
| `AllowListCache.AnswersAreRecentTruths` | services/ingestion/src/allowlist.ts:37-44 | in every run, with any overlap and delay of lookups and publications, a cached answer was true of the published set less than `cacheTtlMs` before, and any other at a moment within its own lookup |
| `AllowListCache.ChangeShowsWithinTtl` | services/ingestion/src/allowlist.ts:24-28 | once an IMEI has been in, or out of, every publication of the last `cacheTtlMs`, or of the lookup for an answer that is not cached, the answer says so |
| `AllowListCache.CachedIsFresh` | services/ingestion/src/allowlist.ts:39-40 | a cached answer was true of the published set at some moment of the last `cacheTtlMs`, in every run |
| `AllowListCache.SlowReplyIsOld` | services/ingestion/src/allowlist.ts:41 | for every latency above `cacheTtlMs` there is a run with a lookup of that latency whose answer was false all through the last `cacheTtlMs` |
| `AllowListCache.FreshIffWithinTtl` | services/ingestion/src/allowlist.ts:24-28 | exactly when an answer that is not cached is a truth of the last `cacheTtlMs` in every run: when its lookup took no longer than that |
| `Tokens.AuthService.IssueTokens` | services/control-plane/src/modules/auth/auth.service.ts:39-53 | adds one unused, unrevoked token of the family |
| `Tokens.AuthService.RevokeAll` | services/control-plane/src/domain/in-memory.repository.ts:316-320 | revokes exactly the tokens of the family |
| `Tokens.AuthService.Refresh` | services/control-plane/src/modules/auth/auth.service.ts:62-80 | each refusal in its order, the replay revoking the family; otherwise spends the token and issues its successor |
| `Tokens.AuthService.Logout` | services/control-plane/src/modules/auth/auth.service.ts:83-87 | revokes the family of a known token, does nothing for an unknown one |
| `Tokens.RunKeepsInv` | services/control-plane/src/modules/auth/auth.service.ts:39-87 | in every run each family has at most one unused unrevoked token, each token is exchanged at most once, and revocation is all-or-nothing per family |
| `Tokens.RevokedFamilyIsDead` | services/control-plane/src/modules/auth/auth.service.ts:62-87 | after a family is revoked, no later run exchanges any of its tokens, and no use or revocation is ever undone |
| `Tokens.ReplayAndLogoutRevoke` | services/control-plane/src/modules/auth/auth.service.ts:67-87 | a replay of an exchanged token and a logout both revoke the family of the token presented |
| `Tokens.RefreshMeans` | services/control-plane/src/modules/auth/auth.service.ts:62-80 | a token is exchanged iff it is known, unused, unrevoked, unexpired and its user active; then it is spent and a successor of the same user and family appears; a used one costs its family, anything else changes nothing |
| `Tokens.LogoutAndLoginMean` | services/control-plane/src/modules/auth/auth.service.ts:39-87 | a logout revokes exactly the family of a known token, and a login adds exactly one token of a new family |
| `Tokens.ExchangesWereDue` | services/control-plane/src/modules/auth/auth.service.ts:62-80 | in every run each exchange ever made was of a token that was unused, unrevoked, unexpired and of an active user at that moment |
| `Trips.TripDetector.Update` | services/control-plane/src/engine/trips.ts:37-81 | one position advances its device by one step and leaves every other device alone |
| `Trips.OnlineIsOffline` | services/control-plane/src/engine/trips.ts:37-81 | the trips of one device are exactly the offline segmentation of its history: first start after the previous end, first position closing a long enough slow run; points, distance and top speed exact, at least three points |
| `Trips.SegmentsUnique` | services/control-plane/src/engine/trips.ts:23-28 | a history has only one segmentation |
| `Trips.DevicesAreIndependent` | services/control-plane/src/engine/trips.ts:30-38 | in any interleaved stream, a device has the state and trips of its own positions alone |
| `Trips.TripsAreSegments` | services/control-plane/src/engine/trips.ts:37-81 | the trips a device gets from any interleaved stream are the offline segmentation of its own positions |
| `Trips.TripsMean` | services/control-plane/src/engine/trips.ts:37-81 | the same in plain words: each trip starts at the first position with speed at or above move speed after the previous end, ends at the first position closing a contiguous run at or below stop speed of at least the minimum time, has at least three positions, and records its times, count, top speed and distance rounded half up; and no further trip is complete |
| `Trips.TripMeans` | services/control-plane/src/engine/trips.ts:41-65 | what a segment is, with both speed comparisons and the resting time written out |
| `Trips.PathMeans` | services/control-plane/src/engine/trips.ts:57-59 | the distance adds up from position to position |
| `Trips.OwnMeans` | services/control-plane/src/engine/trips.ts:30-38 | which positions and trips are those of a device |
| `Alerts.AlertEngine.EvaluatePosition` | services/control-plane/src/engine/alerts.ts:26-66 | the new device state and the alerts of one position, in order |
| `Alerts.AlertEngine.Crossed` | services/control-plane/src/engine/alerts.ts:57-62 | enter for every fence newly around, exit for every fence left |
| `Alerts.AlertEngine.SweepOfflineDevices` | services/control-plane/src/engine/alerts.ts:69-83 | the sweep over the devices in insertion order |
| `Alerts.ContainingIs` | services/control-plane/src/engine/geofence.ts:11-15 | a fence id is inside iff some listed fence of that id contains the position |
| `Alerts.RunKeepsInv` | services/control-plane/src/engine/alerts.ts:26-95 | the alternation invariant holds in every run, under any configuration and fence changes |
| `Alerts.FencesAlternate` | services/control-plane/src/engine/alerts.ts:54-64 | per device and fence, enter and exit strictly alternate from enter, and the last crossing was an enter iff the fence is in the state |
| `Alerts.OpenCountIsMembership` | services/control-plane/src/engine/alerts.ts:54-64 | the number of enters less the number of exits is one for a fence in the state and zero for any other |
| `Alerts.AlertEngine.GeofencesContaining` | services/control-plane/src/engine/geofence.ts:11-15 | the loop collects the ids of the fences around a position, each once |
| `Alerts.AlertsAreSeparated` | services/control-plane/src/engine/alerts.ts:35-83 | between two equal alerts of a device lies a position evaluated as not over, the opposite ignition or fence alert, or, for offline, a packet |
| `Alerts.EpisodesAreReported` | services/control-plane/src/engine/alerts.ts:35-44 | in every run an overspeed alert stands iff the device was last found over the limit: no episode is missed |
| `Alerts.ChangesAreReported` | services/control-plane/src/engine/alerts.ts:46-52 | in every run an ignition alert for a state stands iff that state was the last one evaluated and the other one had been evaluated before: no change is missed |
| `Alerts.SilenceIsReported` | services/control-plane/src/engine/alerts.ts:69-83 | after a sweep, an offline alert stands for exactly the devices that had one standing and those last seen too long ago |
| `AlertHistory.StateIsHistory` | services/control-plane/src/engine/alerts.ts:26-95 | in every run the state of a device is what its history says: over iff its last position with a limit was faster than that limit, the last ignition evaluated, the fences around its last position evaluated against fences, when it was last seen, and whether a sweep has found it silent since |
| `AlertHistory.EmittedIsHistory` | services/control-plane/src/engine/alerts.ts:35-64 | in every run the alerts of a position are exactly those its history calls for, kind by kind, each once and in their order |
| `AlertHistory.LogGrows` | services/control-plane/src/engine/alerts.ts:31-33 | what is logged is what is emitted |
| `AlertHistory.ReportsAreHistory` | services/control-plane/src/engine/alerts.ts:69-83 | in every run a sweep reports, each once, exactly the devices last seen longer ago than the threshold and not found silent since |
| `Geometry.PointInRing` | services/control-plane/src/engine/geometry.ts:28-37 | the toggling loop computes the parity of crossings around the ring |
| `Geometry.InsideCounts` | services/control-plane/src/engine/geometry.ts:28-37 | the parity is that of the number of edges, the closing one included, that cross the ray, with the comparison written out |
| `Geometry.ClosingIsFree` | services/control-plane/src/engine/geometry.ts:24-37 | closing the ring explicitly changes nothing |
| `Geometry.RotationIsFree` | services/control-plane/src/engine/geometry.ts:28-37 | starting the ring at another vertex changes nothing |
| `Geometry.ReversalIsFree` | services/control-plane/src/engine/geometry.ts:28-37 | reversing the ring changes nothing |
| `Geometry.ChordSplits` | services/control-plane/src/engine/geometry.ts:28-37 | cutting a ring along any chord gives the XOR of the two parts |
| `Geometry.StraddleParity` | services/control-plane/src/engine/geometry.ts:33-34 | left of all vertices, a path crosses oddly iff its ends lie on opposite sides, so straddling edges of a cycle are even in number |
| `Geometry.OutsideBoxIsOutside` | services/control-plane/src/engine/geometry.ts:28-37 | a point outside the bounding box is never inside |
| `Geometry.RectangleIsExact` | services/control-plane/src/engine/geometry.ts:28-37 | on a rectangle the test is exact and half-open |
| `Base32.Base32Encode` | services/control-plane/src/engine/totp.ts:10-22 | though the 32-bit accumulator overflows and is never masked, the output is the encoding of section 6 of RFC 4648 without padding |
| `Base32.Base32Decode` | services/control-plane/src/engine/totp.ts:24-39 | though the accumulator overflows, the output is the whole bytes of the symbols, with padding, white space and other characters skipped |
| `Base32.QuintetsCarry` | services/control-plane/src/engine/totp.ts:10-22 | the symbols of section 6 carry the input bits followed by fewer than five zero bits |
| `Base32.QuintetsUnique` | services/control-plane/src/engine/totp.ts:10-22 | no other symbols carry those bits |
| `Base32.LettersSpellAlphabet` | services/control-plane/src/engine/totp.ts:8 | the alphabet is A to Z, then 2 to 7 |
| `Base32.LowBitsAre` | services/control-plane/src/engine/totp.ts:13-16 | bits are taken most significant first |
| `Base32.RoundTrip` | services/control-plane/src/engine/totp.ts:10-39 | decoding the encoding of any byte string returns it |
| `HotState.Telemetry.LatestStored` | services/control-plane/src/domain/in-memory.repository.ts:158-164 | the scan returns the specified newest row |
| `HotState.Telemetry.Collect` | services/control-plane/src/modules/telemetry/telemetry.consumer.ts:93-115 | the batch loop collects the positions to insert and one newest position per device |
| `HotState.Telemetry.Process` | services/control-plane/src/modules/telemetry/telemetry.consumer.ts:93-136 | inserts every resolved position and publishes one per device, in whatever order |
| `HotState.Telemetry.Latest` | services/control-plane/src/modules/telemetry/positions.controller.ts:20-35 | the cached position or the stored one, re-warming the cache on a miss unless that write fails |
| `HotState.NewestIsFirstMaximum` | services/control-plane/src/domain/in-memory.repository.ts:158-164 | the stored latest is absent iff the device has no row, and otherwise is the first row of greatest timestamp |
| `HotState.BatchMapIsNewest` | services/control-plane/src/modules/telemetry/telemetry.consumer.ts:94-115 | the batch map, keyed by device id alone, holds what `positions.latest` would say of the batch |
| `HotState.PositionsMean` | services/control-plane/src/modules/telemetry/telemetry.consumer.ts:98-112 | a batch inserts the positions of its resolved messages, in order |
| `HotState.PublishedMeans` | services/control-plane/src/modules/telemetry/telemetry.consumer.ts:132-135 | publishing replaces exactly the entries of the devices in the batch |
| `HotStateRuns.ProcessIsItsSteps` | services/control-plane/src/modules/telemetry/telemetry.consumer.ts:131-135 | an insert followed by one publication per device, in any order, adds up to `process` |
| `HotState.BatchAgreesIff` | services/control-plane/src/modules/telemetry/telemetry.consumer.ts:131-135 | exactly when the cache agrees after a batch, whatever it held before: with nothing of the device, iff it agreed already; otherwise iff nothing was stored, or the newest timestamp of the batch is greater, or the two positions are equal |
| `HotState.LatePositionGoesStale` | services/control-plane/src/modules/telemetry/telemetry.consumer.ts:131-135 | any late position replaces the cached one though the store keeps the newer one |
| `HotStateRuns.RunKeepsInv` | services/control-plane/src/modules/telemetry/positions.controller.ts:20-35 | in every run of inserts, publications, losses, store reads after a miss and re-warms, in any order, with one owner per device and increasing timestamps, each cached position is the maximum of the rows it takes account of |
| `HotStateRuns.StaleIff` | services/control-plane/src/modules/telemetry/positions.controller.ts:20-35 | in every such run a reader gets the stored maximum iff no row of the device was inserted after those its cached position takes account of; once the device is published, iff the last write of the entry was not an overtaken re-warm |
| `HotStateRuns.WarmAgreesIff` | services/control-plane/src/modules/telemetry/positions.controller.ts:30-31 | in every such run a re-warm leaves its key agreeing with the store iff no row of it was inserted since the request read the store |
| `HotStateRuns.ReaderGetsTheMaximum` | services/control-plane/src/modules/telemetry/positions.controller.ts:20-35 | so with one owner per device, increasing timestamps and no batch overtaking a re-warm, a published device is answered with the stored maximum after any losses; one still being published, with that or the maximum before the batch |
| `HotStateRuns.OvertakenWarmGoesStale` | services/control-plane/src/modules/telemetry/positions.controller.ts:30-31 | for any two increasing timestamps, a run from the empty store in which an overtaken re-warm leaves the older position cached |

## Left out

- What the stream means after the first reject or error: drains already queued still run, and are modelled, but which frames they find depends on chunking, so the history of a connection is recorded up to that error.
- The bytes sent on accept and reject, metrics, logging, and the callbacks into the server's registry of sessions.
- A target of the sink that answers after another has already rejected the same write: all targets answer a write in one step.
- Distinctness of dedupe keys: the key omits altitude, satellites and variable IO, so every durability statement is about keys, and the key is an abstract function of IMEI and record.
- Numeric conversions of decoded fields: timestamps stay the raw 64-bit integers (no rounding through `Number` or `Date`), longitude and latitude the raw integers before the division by 1e7.
- Rejection of a Codec 12 frame whose inner size exceeds its payload: the code cuts the payload instead, and so does the model; the round trip is what is proved.
- Corruptions of a frame's header: they change where the frame ends, so what follows is another stream.
- Protocol.WrapOpens: data of 4 GiB or more is excluded, because `writeUInt32BE` throws on it.
- Protocol.BuildTcpAck: counts of 2^32 or more are excluded, because `writeUInt32BE` throws on them.
- Interleavings inside one control-plane call (for example a lookup suspended while a device is removed): each call on departments, devices and tokens is one atomic step.
- Departments.DepartmentsService.Create: an empty-string parent is stored as it is, which every reader treats as no parent.
- Departments.DepartmentsService.Update: requires the forest that every sequence of calls keeps, since on a cyclic table the walk would not end.
- Devices.ControlPlane.ResolveDevice: requires unique live IMEIs, which every run keeps, so that the first match of a scan is the only one.
- Device rename, asset type and department assignment, the list of deleted devices, and the plan quota behind provisioning and restoring.
- `buildTree`, a display-only regrouping of the same parent links.
- TOTP codes, HMAC, password hashing, JWT signing and the hash of refresh tokens: tokens are keyed by an abstract hash.
- Great-circle distance and the containment of a position in a fence are abstract functions in `Trips` and `Alerts`; ray casting is over exact reals, without floating-point error.
- Alert ids, messages and metadata.
- Position timestamps are integers: ISO 8601 strings of one fixed form compare as the instants they denote. The `tenant:device` key of the hot state is a pair.
- A cache write that fails while a batch is being published, and the redelivery of that batch by the bus.
- The UDP channel, the Redis deduper, WAL and stream sinks, Postgres and PostGIS repositories, reports, billing, immobilizer, notifications, the web application and all wiring.
