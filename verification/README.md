# A verified model of the OpenDXL SIEM sensor

The sensor listens on an OpenDXL fabric, decodes every message from its binary
wire format, keeps a registry of services and brokers, raises alerts, and prints
its records as CEF lines. This project models those four parts in Dafny and
proves what they promise, from the bytes of a message to the state after a whole
run.

| Part | Files |
|---|---|
| Wire codec: MessagePack fields, the DXL message, its place on the wire, its parser and encoder | `Utf8`, `MsgPack`, `KeyOrder`, `DxlMessage`, `WireLayout`, `DxlCodec` |
| Detection engine: rate windows, registries, alerts | `Text`, `Json`, `TopicFilter`, `RateWindow`, `Registry`, `DetectionEngine` |
| Runs of the engine: counting alerts, invariants, TTL, ownership, erasure | `AlertCount`, `AlertMeaning`, `EngineRuns`, `RateRuns`, `ServiceRuns` |
| Main loop: one message and its record, query correlation, poll cadence, rate alerts, the life of a service | `MainLoop`, `MessageMeaning`, `MainLoopRuns`, `LoopRates`, `RecordRuns`, `SensorLoop` |
| CEF printer and a reader for its lines | `Ocsf`, `Cef` |

What the program changes in place is an object with methods here (`ByteBuffer`,
`Cursor`, `RateTable`, `DetectionEngine`, `SensorLoop`), or a method with loops
(`TopicMatches`, `FormatCef`). Each method is tied to a function of the state
before it, and the laws are proved of those functions and of runs of them. Laws
named `..Exactly` or `..Learned` fix what such a function means by the source's
own constants and by the fields of its input.

Three things are parameters. The clock is an argument of every operation, in
milliseconds; a law that needs it says that it does not go back. The JSON parser
is a function from text to an optional value, and the laws hold for every such
function. Where a hash map or a JSON object is walked, `order` is the order it
happens to be walked in: any listing of its keys, each once. The methods say
which order they walked, and that it leaves no key out.

Where the code and the repository's own documentation differ, the model follows
the code:

- A service unregistered at the very second its TTL and grace period run out is
  reported, while a poll at that second does not report it yet
  (src/detections.rs:360, src/detections.rs:534).
- A registration under another `clientGuid` is a hijack attempt only if the
  normalized identities differ, so another instance of the same client is none;
  and a registration that names no client replaces the record and clears its
  owner (src/detections.rs:314-346; `OwnerKeptExactly`, `OwnerCanBeCleared`).
- Messages of a new key go uncounted while 10,000 other keys are live
  (src/detections.rs:560-574; `UncountedExactly`).
- A declared TTL is stored in 32 bits, so one of 2^32 minutes becomes none
  (src/detections.rs:342; `DeclaredTtlKept` gives the exact condition,
  `DeclaredTtlLost` an instance).
- The expiry of a service is a 64-bit sum over a registration time that may be
  any 64-bit number, so it can wrap around and report at once a service that is
  due in the far future (src/detections.rs:531-533; `ExpiryDecides` gives the
  exact condition, `ExpiryOverflows` an instance). A build that checks for
  overflow stops there instead.
- The encoder also accepts what its own parser refuses, such as a message type
  above 3 (src/dxl.rs:138-140); `RoundTrip` says exactly which messages come back.

## Model

| member | source | states |
|---|---|---|
| Utf8.DecodeEncode | src/dxl.rs:196-210 | every string survives being written as UTF-8 bytes and decoded |
| Utf8.EncodeDecode | src/dxl.rs:86-89 | bytes that decode as a string are that string's only encoding |
| Utf8.EncodingExactly | src/dxl.rs:196-210 | the bytes of a character are those of the table in section 3 of RFC 3629, and an encoding is character by character |
| Utf8.EncodeJoin | src/dxl.rs:196-210 | a text is encoded one character after the other |
| MsgPack.BigEndianExactly | src/dxl.rs:52-62 | the number that one, two, four or eight big-endian bytes are |
| MsgPack.GoldenIntegers | tests/fixtures/golden.txt:5-8 | the integers of the reference vectors are written with the bytes those vectors show |
| MsgPack.IntegersExactly | src/dxl.rs:103-104 | which bytes are an integer and which number it is, by the table of the int format family |
| MsgPack.ReadNumberOfUint | src/dxl.rs:229-233 | a shortest-form unsigned integer is read back, wherever it stands |
| MsgPack.ReadNumberOfSint | src/dxl.rs:258-262 | a shortest-form signed 64-bit integer is read back |
| MsgPack.ReadBytesWritten | src/dxl.rs:213-226 | a byte string below 2^32 bytes is read back from fixstr, str16 or str32 form |
| MsgPack.ByteStringsExactly | src/dxl.rs:64-84 | where a str or bin value keeps its length and its bytes, by the table of its family |
| MsgPack.WrittenBytesExactly | src/dxl.rs:196-226 | the header the writer puts before a byte string, byte by byte |
| MsgPack.ArrayHeadersExactly | src/dxl.rs:91-98 | the header of an array, read and written, byte by byte |
| MsgPack.ReadBytesLocal | src/dxl.rs:64-84 | reading a str or bin value depends only on its own bytes, and on a cut-off input fails for want of input |
| MsgPack.ReadStringArrayWritten | src/dxl.rs:239-247 | an array of strings is read back |
| KeyOrder.SortedKeysAscend | src/dxl.rs:268-270 | the keys are listed strictly ascending by their first differing byte |
| KeyOrder.SortIgnoresOrder | src/dxl.rs:268-270 | sorting a map's keys gives the same list whatever order the hash map yields them in |
| DxlMessage.ErrorCodeAccepted | src/dxl.rs:132-136 | in any integer encoding a raw code is accepted exactly within [-2^31, 2^32) and decodes to the one 32-bit integer congruent to it |
| DxlMessage.ErrorCodesAlike | src/dxl.rs:128-136 | two accepted codes decode alike exactly when they are congruent modulo 2^32 |
| DxlMessage.ErrorCodeRoundTrip | src/dxl.rs:258-262 | every 32-bit error code survives being written and read |
| DxlMessage.PairsExactly | src/dxl.rs:142-160 | keys stand at the even places and values after them, the last value of a repeated key counting |
| DxlMessage.PairUpFlatten | src/dxl.rs:265-275 | pairing up a flattened key and value array rebuilds the map |
| DxlMessage.ParsedWellFormed | src/dxl.rs:100-193 | whatever parses is a well-formed message |
| DxlMessage.RoundTrip | src/dxl.rs:100-293 | for every map order and every tail, parsing an encoding returns the message and stops at its end if and only if the message is well-formed |
| DxlMessage.EncodingDeterministic | src/dxl.rs:265-275 | the bytes do not depend on the hash map's order |
| DxlMessage.NormalForm | src/dxl.rs:100-293 | re-encoding any bytes that parse gives the same message back, and re-encoding that changes nothing |
| DxlMessage.SelfDelimiting | src/dxl.rs:100-193 | a successful parse ignores everything after the bytes it consumed, and every proper prefix of those fails for want of input |
| DxlMessage.PrefixFree | src/dxl.rs:229-293 | no encoding of a well-formed message is a proper prefix of another |
| WireLayout.EncodedLayout | src/dxl.rs:229-293 | where encoding puts every field of a message, for every type and version |
| WireLayout.WrittenPairs | src/dxl.rs:265-275 | the extra fields are written in key order, each key with its value behind it |
| WireLayout.StringsExactly | src/dxl.rs:239-247 | the strings of an array are written in order |
| WireLayout.ParsedLayout | src/dxl.rs:100-193 | which field of the message each place on the wire becomes, for every type and version, whatever follows |
| WireLayout.GoldenEvent | tests/fixtures/golden.txt:3 | the bytes of the event vector parse to its message, and the message encodes to those bytes |
| DxlCodec.ByteBuffer.WriteRaw | src/dxl.rs:213-226 | appends the length header and the bytes, and nothing else |
| DxlCodec.ByteBuffer.WriteTexts | src/dxl.rs:239-247 | appends the array header and every string in order |
| DxlCodec.Cursor.ReadInteger | src/dxl.rs:103-104 | reads any integer encoding into a bounded type, or fails as the wire format says |
| DxlCodec.Cursor.ReadRaw | src/dxl.rs:64-84 | reads a str or bin value, or fails at the marker, the length or the end of input |
| DxlCodec.Cursor.ReadText | src/dxl.rs:86-89 | reads a string and refuses bytes that are not UTF-8 |
| DxlCodec.Cursor.ReadTexts | src/dxl.rs:91-98 | reads an array of strings, stopping at the first that fails |
| DxlCodec.Cursor.ReadPairs | src/dxl.rs:142-160 | the loop with a pending key builds the map of the pairs, later pairs winning and a last odd key dropped |
| DxlCodec.ReadEnvelope | src/dxl.rs:106-111 | reads the six fields every message has, in order, or fails where the first of them fails |
| DxlCodec.ReadCode | src/dxl.rs:132-136 | reads an error code, refusing what does not fit 32 bits |
| DxlCodec.ReadTyped | src/dxl.rs:113-140 | reads the fields of the message type and refuses unknown types |
| DxlCodec.ReadVersioned | src/dxl.rs:142-172 | reads the fields the version adds |
| DxlCodec.ParseDxlMessage | src/dxl.rs:100-193 | the cursor program computes the parse function, with the same error |
| DxlCodec.WritePairs | src/dxl.rs:265-275 | appends the fields in key order, whatever order the map yields them in |
| DxlCodec.WriteEnvelope | src/dxl.rs:235-250 | appends the six fields every message has |
| DxlCodec.WriteTyped | src/dxl.rs:252-263 | appends the fields of the message type, and nothing for an event or an unknown type |
| DxlCodec.WriteVersioned | src/dxl.rs:265-290 | appends the fields the version adds |
| DxlCodec.EncodeDxlMessage | src/dxl.rs:229-293 | the buffer program computes the encoding function |
| Text.AsciiClasses | src/detections.rs:6-19 | which ASCII characters are whitespace and which are controls |
| Text.TrimExactly | src/detections.rs:6-19 | trimming takes the whitespace off both ends and nothing else |
| Text.SplitJoin | src/detections.rs:11-19 | splitting cuts at every separator |
| Text.LinesExactly | src/detections.rs:374-390 | which lines a text has, with and without carriage returns |
| Text.AsciiLowerAt | src/detections.rs:6-16 | lower case is letter by letter and changes the 26 ASCII capitals only |
| Text.ThumbprintExactly | src/detections.rs:6-8 | a normalized thumbprint is the padded text without padding and colons, in lower case |
| Text.IdentityExactly | src/detections.rs:10-16 | a normalized identity is the padded, braced id without padding, braces and instance, in lower case |
| Text.NoIdentity | src/detections.rs:10-16 | blank text, or an empty head before an instance, is no identity |
| Text.HexThumbprintExactly | src/detections.rs:18-21 | a thumbprint is an id whose head is 40 hexadecimal digits |
| Text.InstanceIgnored | src/detections.rs:10-21 | a client id with an instance suffix has the same normalized identity and is a thumbprint or not alike |
| Json.LookupsExactly | src/detections.rs:307-312 | what a lookup finds in a JSON object: the member under the key if it has the wanted type and range |
| TopicFilter.LevelsExactly | src/detections.rs:702-728 | the levels of a filter or topic are what stands between slashes |
| Registry.KnownTopicsExactly | src/detections.rs:31-51 | the fifteen topics that are not unrecognized under the brokers' prefix |
| TopicFilter.TopicMatches | src/detections.rs:702-728 | the matching loop computes level-by-level matching for every filter, well-formed or not |
| TopicFilter.MatchesStandard | src/detections.rs:702-728 | on every well-formed filter that is matching as sections 4.7.1.2 and 4.7.1.3 of MQTT 3.1.1 define it, the parent level of a final # included |
| TopicFilter.WideningLevel | src/detections.rs:716-718 | replacing a level by + keeps every match |
| TopicFilter.WideningSuffix | src/detections.rs:710-712 | replacing a suffix by # keeps every match |
| RateWindow.RateTable.PruneFront | src/detections.rs:577-584 | popping expired times off the front leaves the unexpired rest of the queue |
| RateWindow.RateTable.Retain | src/detections.rs:507-516 | prunes every queue and drops the keys with nothing left |
| RateWindow.RateTable.Track | src/detections.rs:552-596 | one call of the in-place tracker computes the tracking function: sweep, capacity, push, prune, alert and clear |
| RateWindow.DropIsFilter | src/detections.rs:577-584 | on an ordered log, dropping from the front is filtering by age |
| RateWindow.RateRefinement | src/detections.rs:552-596 | after any messages, sweeps and polls on a nondecreasing clock a counted message alerts exactly when the plain log of its key since its last alert holds 101 of the last minute, and otherwise the queue is that filtered log |
| RateWindow.PollsAndSweepsIrrelevant | src/detections.rs:507-527 | polls and sweeps never change which tracked messages alert |
| RateWindow.Capacity | src/detections.rs:560-595 | in every reachable state a table has at most 10,000 keys and a queue at most 100 times |
| RateWindow.UncountedExactly | src/detections.rs:560-574 | a message goes uncounted exactly when its key is not in the table and 10,000 keys each hold a message of the last minute |
| RateWindow.DebounceAccounting | src/detections.rs:585-595 | over any run, on any clock, 101 times a key's alerts plus its queue length is at most its tracked messages |
| RateWindow.BurstComplete | src/detections.rs:575-595 | a stretch of a run within a minute that tracks 101 messages of a key contains an alert for it |
| DetectionEngine.NormalizeAllowed | src/detections.rs:78-83 | the allow-list is exactly the non-empty normal forms of the configured thumbprints |
| DetectionEngine.DetectionEngine.constructor | src/detections.rs:75-90 | a new engine knows no service, broker or rate |
| DetectionEngine.DetectionEngine.CheckThumbprints | src/detections.rs:214-280 | the allow-list checks of connects, publishers and registrations compute the thumbprint alerts |
| DetectionEngine.DetectionEngine.CheckCertificates | src/detections.rs:262-278 | the loop over a certificate list alerts for each unlisted one in order |
| DetectionEngine.DetectionEngine.CheckRevocations | src/detections.rs:374-390 | the loop over a revocation list alerts for each non-empty line in order |
| DetectionEngine.DetectionEngine.CheckClaims | src/detections.rs:392-426 | the loop over the identity fields alerts for each false claim in order |
| DetectionEngine.DetectionEngine.CheckSensitive | src/detections.rs:428-442 | the loop over the configured filters alerts for each match in order |
| DetectionEngine.DetectionEngine.UpdateServices | src/detections.rs:306-372 | register and unregister as functions of the services before |
| DetectionEngine.DetectionEngine.UpdateBrokers | src/detections.rs:462-493 | stores a broker state and tells whether the fabric changed |
| DetectionEngine.DetectionEngine.ProcessEvent | src/detections.rs:129-496 | one event in place computes the event function: whole new state, and alerts in order |
| DetectionEngine.DetectionEngine.PollTimeouts | src/detections.rs:502-550 | prunes both rate tables, marks exactly the overdue services and alerts once for each in the order walked |
| DetectionEngine.DetectionEngine.ProcessSyncResponse | src/detections.rs:630-686 | inserting and then retaining leaves exactly the well-formed entries of the reply |
| DetectionEngine.DetectionEngine.ProcessBrokerSyncResponse | src/detections.rs:688-699 | leaves exactly the entries of the reply that are not thumbprints |
| AlertCount.AcceptedCount | src/detections.rs:214-495 | alerts about services and rates come from the code that deals with them and from nowhere else |
| AlertMeaning.UnknownThumbprintExactly | src/detections.rs:214-280 | a thumbprint is reported exactly when there is an allow-list, the event presents it and its normal form is neither empty nor listed |
| AlertMeaning.SyncThumbprintExactly | src/detections.rs:661-680 | a registry reply has a thumbprint reported exactly when there is an allow-list, some member of its services object lists the thumbprint, well-formed or not, and its normal form is neither empty nor listed |
| AlertMeaning.RevokedExactly | src/detections.rs:374-390 | a certificate is reported revoked exactly when a line of a plain-text list normalizes to it |
| AlertMeaning.FalseClaimMeans | src/detections.rs:397-410 | the comparisons of a claim mean that the publisher has an identity and the claimed one is not among them |
| AlertMeaning.IdentitySpoofingExactly | src/detections.rs:392-426 | a publisher is reported exactly when an identity field of an application message names someone who is neither its client id nor its certificate |
| AlertMeaning.SensitiveTopicExactly | src/detections.rs:428-442 | with well-formed filters, a publication is reported exactly when one of them takes its topic by the MQTT rules |
| AlertMeaning.LegacyCipherExactly | src/detections.rs:282-304 | a cipher is reported exactly when a connect event names it, it starts with TLS_RSA_ and does not contain ECDHE |
| AlertMeaning.FabricChangedExactly | src/detections.rs:462-493 | a fabric change is reported exactly for a fabric-change event and for a broker state that names no broker, a new one, or changes bridges or start time |
| AlertMeaning.BrokersExactly | src/detections.rs:471-473 | an accepted broker state is stored under its GUID and no other event touches the brokers |
| AlertMeaning.AlertsWellMade | src/detections.rs:214-495 | every alert of an accepted event carries its time, what its description is to name and the user it is about |
| AlertMeaning.SpoofAlertMade | src/detections.rs:142-212 | what the alert for a rejected event names |
| AlertMeaning.PollMade | src/detections.rs:529-548 | what a poll's alerts name: an overdue service and its type, at the second of the poll |
| AlertMeaning.SyncMade | src/detections.rs:661-680 | what a registry reply's alerts name |
| AlertMeaning.HeartbeatQuiet | src/detections.rs:471-492 | an identical broker state is accepted again and raises no second fabric alert |
| EngineRuns.AcceptedBroker | src/detections.rs:174-198 | an accepted broker state names its own sender, no thumbprint, and a known broker once any is known |
| EngineRuns.ReachableInv | src/detections.rs:471-482 | in every reachable state no broker key is a thumbprint and every service is stored under its own GUID |
| EngineRuns.BrokerSetStable | src/detections.rs:174-211 | between broker syncs a known broker set never changes and an empty one gains at most one broker |
| EngineRuns.RejectedEventsErased | src/detections.rs:142-212 | without the events the guard turns away a run ends in the same state and every other operation raises the same alerts |
| RateRuns.RatesFollow | src/detections.rs:444-460 | each rate table of the engine is the table of its own run of messages and polls |
| RateRuns.RatesBounded | src/detections.rs:53 | in every reachable engine state both rate maps respect their bounds |
| RateRuns.EngineRateAlert | src/detections.rs:444-460 | an accepted event raises exactly one rate alert for its publisher (or topic) if it was counted and the plain log then holds 101 of the last minute, and otherwise none |
| RateRuns.RateAlertsCounted | src/detections.rs:444-460 | the rate alerts that a whole run of the engine raises about a key are exactly the alerts of that table's own run |
| RateRuns.EngineDebounce | src/detections.rs:585-595 | over any run of the engine, on any clock, 101 times the rate alerts about a key and its queue length never exceed its counted messages, let alone all accepted ones |
| RateRuns.EngineBurst | src/detections.rs:575-595 | a stretch of operations within a minute in which 101 messages of a key are counted raises a rate alert about it |
| ServiceRuns.RegistersExactly | src/detections.rs:306-353 | which events register or unregister a service, and the record a registration asks for, from topic and payload |
| ServiceRuns.ExpiryExact | src/detections.rs:357-359 | the computed expiry is registration plus 60 times TTL and grace modulo 2^64, and exactly that when it is below 2^63 |
| ServiceRuns.ExpiryDecides | src/detections.rs:531-534 | for a clock that is not negative, comparing it with the computed expiry, as a poll does and as an unregister does, decides dueness correctly exactly when the sum does not overflow |
| ServiceRuns.ExpiryOverflows | src/detections.rs:531-534 | a registration time at the end of its range is reported at once though due later |
| ServiceRuns.DeclaredTtlKept | src/detections.rs:342 | a stored service is due at registration plus 60 times the declared TTL and grace exactly when the declared TTL is below 2^32 |
| ServiceRuns.DeclaredTtlLost | src/detections.rs:342 | a declared TTL of 2^32 minutes is stored as none, so the service is reported once the grace period is over |
| ServiceRuns.ExpiryOfDeclared | src/detections.rs:342-359 | the computed expiry is what the registration declared exactly when the declared TTL is below 2^32 and the declared due second below 2^63 |
| ServiceRuns.LifeOfRecord | src/detections.rs:529-548 | over any stretch that does not end it a record raises one TTL alert if it becomes reported and none if not, never up to its expiry |
| ServiceRuns.TtlExactlyOnce | src/detections.rs:348-372 | a record ended by an accepted unregister raises over its life, under any polling schedule, one TTL alert if that comes, in whole seconds of the millisecond clock, at its expiry or later and none if before |
| ServiceRuns.TtlAtMostOnce | src/detections.rs:529-548 | a record ended by replacement or sync raises at most one TTL alert, and none up to its expiry |
| ServiceRuns.OwnerKeptExactly | src/detections.rs:314-346 | an accepted event keeps a service's owner exactly unless it unregisters it or registers it without naming a client |
| ServiceRuns.OwnerCanBeCleared | src/detections.rs:314-346 | whoever owns the service, a registration that names no client is accepted, replaces the record and clears its owner |
| ServiceRuns.OwnerStable | src/detections.rs:307-347 | between syncs and unregisters of a service, if its registrations name clients, its owner never changes |
| ServiceRuns.HijackAlerted | src/detections.rs:306-346 | from the payload: a registration naming another identity than the owner's raises exactly one hijack alert, naming both, and changes no service; any other raises none, and its record is stored with the client it names as owner |
| ServiceRuns.OthersKeepServices | src/detections.rs:306-372 | no other accepted event changes a service, but an unregister event removes the one it names |
| ServiceRuns.SyncedServices | src/detections.rs:636-684 | after a registry reply the services are exactly the members that describe one, each with the owner its entry names |
| MessageMeaning.EnvelopeExactly | src/main.rs:486-526 | which messages the envelope check lets through, from topic, sender, certificates, payload and known brokers |
| MessageMeaning.EngineGuardExactly | src/detections.rs:142-212 | which events the engine's own guard lets through |
| MessageMeaning.ForEngineExactly | src/main.rs:195-233 | a message reaches the engine as an event exactly if it is not on the reply topic and passes the envelope check |
| MessageMeaning.SpoofReportExactly | src/main.rs:210-224 | what the report of a spoofed message names, and that nothing else is reported |
| MessageMeaning.CertExactly | src/main.rs:210-213 | the certificate a message presents is the last of its list that is not blank, trimmed |
| MessageMeaning.NoCertExactly | src/main.rs:210-213 | without the certificate field, or with nothing but separators in it, there is none |
| MessageMeaning.PublisherExactly | src/detections.rs:139-140 | the publisher is that certificate or else the sender |
| MessageMeaning.EventExactly | src/main.rs:475-484 | what the engine is given of a payload that is JSON, other text, blank or no text |
| MessageMeaning.RecordedExactly | src/main.rs:528-541 | which messages have a record |
| MessageMeaning.NetworkExactly | src/main.rs:542-615 | the record of a connect or disconnect event: its numbers, protocol and TLS parameters |
| MessageMeaning.NetworkClient | src/main.rs:546-556 | the client id and instance of that record, from the parts of the client GUID |
| MessageMeaning.NetworkAddress | src/main.rs:558-565 | the address of that record, without the prefix of a mapped IPv4 address |
| MessageMeaning.ServiceRecordExactly | src/main.rs:616-680 | the record of a register or unregister event |
| MainLoopRuns.GuardsAgree | src/main.rs:475-526 | a message that passes the envelope check never meets the engine's own guard, for every payload and every JSON parser |
| MainLoopRuns.EngineNeverRefuses | src/main.rs:210-233 | no operation the loop hands to the engine is refused |
| MainLoopRuns.LoopIsEngineRun | src/main.rs:118-286 | a run of the loop drives the engine through an engine run without refused events |
| MainLoopRuns.TraceMonotone | src/main.rs:270-285 | an ordered loop clock gives the engine a nondecreasing one |
| MainLoopRuns.GenuineHasNoCert | src/main.rs:500-505 | a broker event that passes the check carries no client certificate, so its sender counts as the publisher |
| MainLoopRuns.UnregisterNamesType | src/main.rs:618-635 | the record of an unregister event names the type under which the service was last registered |
| MainLoopRuns.SpoofedMessagesErased | src/main.rs:215-233 | had the spoofed messages never arrived, the run would end in the same state and every turn would raise the same alerts apart from their reports |
| MainLoopRuns.AnsweredExactly | src/main.rs:159-190 | a pending query is answered exactly by a message of type 1 on the reply topic, without client certificate or thumbprint sender, that carries its id; a reply to both answers the service query |
| MainLoopRuns.IdsAfter | src/main.rs:122-190 | what a turn makes of each pending query id: replaced by a handshake, used up by an answer, otherwise kept |
| MainLoopRuns.AnsweredWereIssued | src/main.rs:168-194 | counted with multiplicity, answered query ids are among those pending and issued, so none is answered twice per issue |
| MainLoopRuns.SyncsAtMostOnce | src/main.rs:122-130 | answered queries of each kind never exceed successful handshakes, and with distinct ids no id is applied twice, not even once as each kind |
| MainLoopRuns.ReplyEffect | src/main.rs:163-209 | on the reply topic only a genuine reply to a pending query changes the engine, and then to exactly the entries of the reply that describe a service or are no thumbprint |
| MainLoopRuns.PollsExactly | src/main.rs:270-285 | a turn polls exactly if it reads a second more than ten after the last poll, and remembers that second |
| MainLoopRuns.PollIsRecent | src/main.rs:270-285 | after every turn the last poll is at most ten seconds old |
| MainLoopRuns.PollGap | src/main.rs:270-285 | with turns at most d seconds apart consecutive polls are at most 10 + d seconds apart |
| LoopRates.LoopRateAlert | src/main.rs:210-233 | from the start of the sensor and from raw bytes: a message handed to the engine raises exactly one rate alert for its publisher (or topic) if it was counted and the plain log then holds 101 of the last minute, and otherwise none |
| LoopRates.LoopDebounce | src/detections.rs:585-595 | over any run of the loop, on any clock, 101 times the rate alerts about a key never exceed its messages that were counted, let alone all of them |
| LoopRates.LoopBurst | src/detections.rs:575-595 | turns whose inputs lie within a minute and bring a table 101 counted messages of a key raise a rate alert about it |
| RecordRuns.StoredThisTurn | src/main.rs:118-286 | a record that is unreported when a turn has taken its input is reported in that turn, or still there with a last poll no later than its expiry or that input |
| RecordRuns.UnreportedIsRecent | src/main.rs:270-285 | while a stored record is unreported, no turn is more than ten seconds past the later of its expiry and its storing |
| RecordRuns.RecordKept | src/main.rs:118-286 | over turns that do not end it a record changes at most by being reported, and then raises one TTL alert, otherwise none |
| RecordRuns.LoopTtlExactlyOnce | src/main.rs:118-286 | from the start of the sensor and from raw bytes: a record that a turn stores and a later unregister message ends raises over its whole life, whenever the loop polls, one TTL alert if that message comes, in whole seconds, at its expiry or later and none if before |
| RecordRuns.BoundedResponse | src/main.rs:110-286 | from the start of the sensor, with the turn before its storing and all later ones at most d seconds apart: a record that nothing ends raises exactly one TTL alert by a turn within 10 + d seconds of the later of its expiry and its storing |
| SensorLoop.SensorLoop.constructor | src/main.rs:110-116 | the loop starts without pending queries and counts its first poll from now |
| SensorLoop.SensorLoop.OnConnAck | src/main.rs:122-130 | a handshake replaces both query ids, a failed one neither |
| SensorLoop.SensorLoop.OnPublish | src/main.rs:132-249 | from raw bytes: the record, the new state and the alerts of one message, with every member of a registry reply walked |
| SensorLoop.SensorLoop.OnTick | src/main.rs:270-285 | polls exactly when more than ten seconds have passed and remembers when |
| SensorLoop.RunTurn | src/main.rs:118-286 | one iteration computes one step of the loop function, with its alerts and record; a registry reply and, if a poll is due, the services are walked in full |
| Cef.PassesAreEscape | src/cef.rs:4-24 | the five replacement passes amount to one map over characters |
| Cef.EscapedExactly | src/cef.rs:4-24 | escaping is character by character: what becomes of a backslash, the special character, a line end, another control and any other character |
| Cef.UnescapeEscape | src/cef.rs:4-24 | unescaping recovers the text up to control characters that are not line ends |
| Cef.TrimmedExtension | src/cef.rs:99-105 | trimming the extension removes the trailing space and the last value's trailing whitespace, nothing else |
| Cef.PairsRead | src/cef.rs:99-104 | splitting at unescaped equals signs and last spaces recovers the pairs |
| Cef.RecoveredAt | src/cef.rs:99-104 | what is recovered, pair by pair: the key, and its value cleaned, the last one trimmed |
| Cef.HeaderRead | src/cef.rs:35-44 | splitting at unescaped bars recovers the header fields, whatever follows |
| Cef.ParseBack | src/cef.rs:26-106 | from every printed line a reader recovers the seven header fields and every extension pair in key order, up to dropped control characters and the last value's trailing whitespace |
| Cef.ValueRecovered | src/cef.rs:26-106 | from a record to what a reader of its line finds, field by field: a value the record has is found exactly once and under its own key, one it does not have is not found |
| Cef.DecimalRead | src/cef.rs:31-33 | printed numbers are read back, most significant digit first, and have no leading zero |
| Cef.HeaderLearned | src/cef.rs:27-44 | from any line a reader learns format, vendor, product, versions, class number, name and severity |
| Cef.TypeLearned | src/cef.rs:46-97 | and the number of the event type, under its key and label |
| Cef.NetworkLearned | src/cef.rs:49-62 | from the line of a connection: client, address and protocol, each under its key |
| Cef.TlsLearned | src/cef.rs:63-76 | and its TLS version, cipher and certificate, each with its label or not at all |
| Cef.ServiceLearned | src/cef.rs:78-89 | from the line of a service record: service, type and client |
| Cef.FindingLearned | src/cef.rs:90-97 | from the line of a detection: description and user |
| Cef.ExtensionFields | src/cef.rs:46-97 | inserting key by key leaves under each key exactly the value the record has for it, so no insertion overwrites another, and no other key |
| Cef.PrintHeader | src/cef.rs:35-44 | prints every header field, escaped and closed by a bar |
| Cef.PrintExtension | src/cef.rs:99-102 | prints every field in key order |
| Cef.FormatCef | src/cef.rs:26-106 | the printing loops compute the line |

## Left out

- JSON text: the parser is a parameter, and serialization of records is not modelled.
- The libraries behind the codec are not part of this model; integers, strings, byte strings and arrays follow the MessagePack specification, sections "int format family", "str format family", "bin format family" and "array format family".
- Integer width: 32-bit casts of lengths, counts and TTLs and the 64-bit expiry sum are modelled; clock readings, `now * 1000` and the ages of queued messages are unbounded, as real clocks stay far from 2^63.
- Alert wording: an alert carries its title, its time, its subject and, in order, the texts its description names; how it becomes a printed record (src/detections.rs:598-624) is left out with it.
- Record fields that are constant or not printed (times, metadata, categories, names of classes).
- The wrapper `process_event`, which is `ProcessEvent` without a certificate.
- Network: subscriptions, sending the queries, the retry delay, the choice of a broker endpoint, TLS, syslog, HTTP and Kafka senders, and dropped records on full channels.
- Configuration and command line: taken as given values.
- Standard output: the plain and JSON formats and the filter by kind.
- Logging and the reserved capacities of vectors, which affect no result.
- MsgPack.ReadBytesWritten: asks for a length below 2^32, because the length field has 32 bits; RoundTrip shows that longer values do not come back.
- RateWindow.RateRefinement: asks for a clock that does not go back, because on one that does the front of a queue need not be its oldest time.
