# libdiscord: the gateway session, verified

This project models the heart of libdiscord in Dafny 4.11 and proves what it promises: the gateway session
engine of `lib/libdiscord.c`, the JSON and id layer it stands on (`lib/json.c`), and two buffer algorithms
(`lib/REST.c`, `example_bots/example-hash.c`). `dafny verify dfyconfig.toml` checks all of it.

## How it is built

* `Context.dfy` holds the library's `ld_context` as it is: a class whose methods update fields in place, a
  receive buffer that is an array grown by `realloc`, a bounded transmit ring, loops over entries and over the
  dispatch table. One method per function or case of the C code; the payload parser is cut in two (decoding
  loop, opcode switch).
* `Session.dfy` says what every one of these methods does to the *value* of the context, as a function on a
  `State`. Each method of `Context.dfy` is proved to compute exactly that function. `Envelope.dfy` describes
  decoding without a loop: the last value of each field before the first unknown key.
* A `State` carries a log of what crosses the library's boundary: messages handed to the parser, payloads the
  ring took, refused or gave up, texts written, user callbacks, return codes. `History.dfy` reads counts and
  sequences off that log (heartbeats accepted, ACKs, HELLOs, the wire). The theorems relate the state to the
  log, so none of them is about bookkeeping added to the code.
* A run is any sequence of `ld_service` calls (`Tick`), each with any events of the websocket inside it,
  reconnects included. `Ledger.dfy`, `Bookkeeping.dfy` and `Queue.dfy` prove what one event and one clock tick
  keep; `Runs.dfy` lifts this to all runs and states the results. `Timer.dfy` and `Spacing.dfy` add a monotone
  clock, `Draining.dfy` progress of the ring, `Fragmentation.dfy` and `Stale.dfy` reassembly and its left-over
  buffer, `Silence.dfy` the stretches without messages, `Opening.dfy` what may be queued or missed before HELLO,
  `Wire.dfy` the order of the payloads that are sent, `KeyOrder.dfy` the order of the keys in a message.
  `Bot.dfy` carries the results back to the fields of the real context.
* `Protocol.dfy` and `Returns.dfy` say what the state machine does without using its own functions: `Protocol.dfy` on
  each message, by the keys, opcodes and type names that stand in it, and `Returns.dfy` what every callback and every
  service call returns, when the websocket exists, and which callbacks its events make. All numbers and keys are
  spelled out there.
* `Dispatch.dfy`, `Entities.dfy`, `Decimal.dfy`, `Snowflake.dfy` and `Buffers.dfy` cover the dispatch table, the
  user and message loaders, the text and the bit fields of ids, and the two buffers.

## Assumptions about the surroundings

* `json_loadb` and `json_dumps` are arbitrary functions, given to the context when it is created. jansson
  objects have distinct keys. Where `Wire.dfy` shows that something can be sent, `json_dumps` gives no empty text.
* The libwebsockets ring is a bounded first-in first-out queue of the configured capacity.
* Clock readings, user callback results, write results and the order of events are inputs of a run. Callbacks
  run only while `ld_service` pumps events or connects. The user callback leaves the modelled fields alone.
* A callback that returns non-zero closes its connection, and nothing arrives on a websocket that is gone
  (`Websocket.ClosingRun`). The theorems about all runs do not need this; the runs that show where a promise ends
  keep to it, and `Opening.NothingWithoutToken` and `Opening.IdentifyFirstIffToken` are about runs that do.
* 32-bit casts, unsigned wrap-around of the timer difference and C `int` range of `hb_count` are spelled out
  (`hb_count` is a mathematical integer, and `Runs.HeartbeatLedger` bounds it by the length of the log).

## Where the code and its notes part

* A connection that dies inside a message leaves its receive buffer over (`Stale.DeathLeavesBuffer`). A
  one-fragment message that comes then replaces the buffer instead of being parsed
  (`Fragmentation.MessageIsParsedUnlessStale` gives the exact condition). As long as messages come in one fragment
  nothing is delivered any more, over any number of reconnections: no IDENTIFY, no session, no ACK
  (`Stale.StaleBufferIsDeaf`), and the timer ends in a missed ACK (`Stale.StaleBufferEndsInLatch`).
* `CODING_NOTES.md:48-49` leaves the order of heartbeats and IDENTIFY open, but asks that no heartbeat be sent before
  HELLO and that no payload other than heartbeats be sent before IDENTIFY. The second always holds, as nothing else is
  ever sent (`Wire.NothingElseIsSent`). The first holds on the first connection, where no heartbeat is even queued
  before HELLO (`Runs.IdentifyComesFirst`). On a later one it can fail for two reasons: a heartbeat of the earlier
  connection is left over in the ring, or the interval of the earlier connection is still set and the timer queues one
  (`Wire.BeatSentBeforeHelloIff` has the exact condition, `Opening.BeatBeforeHelloIff` that for the second reason, and
  `Wire.LeftOverBeat` a run with the first reason alone).
* IDENTIFY is the first payload of a run, queued (`Opening.IdentifyFirstIffToken`) or, without write failures, sent
  (`Wire.IdentifySentFirstIffToken`), exactly if a token is configured. With failing writes a token does not suffice: a
  lost IDENTIFY is not sent again (`Wire.LostIdentify`). The runs without a token need a caller that goes on after
  `ld_init_context` has returned `LDS_TOKEN_MISSING_ERR` (`lib/libdiscord.c:202-205`) and a server that answers the
  lookups although they carry no valid token (`lib/REST.c:338`).
* The detector counts heartbeats that were queued, not those that were sent, and the counter survives a reconnection.
  So a missed ACK can be reported although nothing was sent in between, exactly under the condition of
  `Opening.UnsentMissIff`, and even although nothing was queued either, exactly under that of `Opening.SpuriousMissIff`.
* A missed ACK is never recovered from, since nothing but the event pump changes `last_hb` or `lws_wsi` and the
  failing call does not pump; the same is true of a heartbeat that finds the ring full (`Timer.FailureIsALatch`).
* `lib/REST.c:178` allocates one byte too few for the first chunk: the body is terminated inside its block exactly
  from the second chunk on (`Buffers.ResponseBody.WriteAll`).
* `binary2hex` appends to a block it never clears, and is right exactly if the block happens to start with a NUL
  (`Buffers.BinaryToHex`).

## Model

| member | source | states |
|---|---|---|
| Runs.HeartbeatLedger | lib/libdiscord.c:573-593 | After every run, across reconnects and refused insertions, `hb_count` is heartbeats accepted plus misses reported minus ACKs received; heartbeats accepted never exceed ACKs by more than one; the counter stays within the length of the log |
| Runs.DetectorIsExact | lib/libdiscord.c:573-590 | After any run a service call reports a missed ACK if and only if it finds the connection up, the timer due and heartbeats queued (plus misses) in excess of ACKs; otherwise a due timer queues exactly one heartbeat or, with a full ring, leaves counter and ring as they were |
| Runs.MissesAreReturned | lib/libdiscord.c:576-584 | The misses in the log are the service calls that returned the missed-ACK code |
| Runs.PumpQueuesNoBeats | lib/libdiscord.c:685-854 | No sequence of events queues a heartbeat or reports a miss; only the clock tick does |
| Runs.FifoConservation | lib/libdiscord.c:778-811 | After every run, payloads accepted are payloads consumed followed by payloads waiting, in order; without write failures they are the wire followed by what waits; the ring keeps to its capacity |
| Runs.OneConsumedPerWritable | lib/libdiscord.c:782-791 | An event consumes at most one payload, only if it is a writable event, and then the one that waited longest |
| Draining.QueueDrains | lib/libdiscord.c:600-604 | From any point of any run on, for every service call whose request to write is answered, one more of the payloads that waited at that point has left the ring in order, whatever else happens; without write failures it is on the wire |
| Runs.QueueSuffices | lib/libdiscord.c:1041-1056 | If ACKs never outnumber heartbeats written, then after k HELLOs at most one heartbeat and k + 1 payloads wait, and a ring with room for k + 1 has refused nothing |
| Opening.OneMorePayloadThanHellos | lib/libdiscord.c:1186-1199 | That bound is tight: a run with one HELLO and no ACK leaves two payloads waiting, or a refused heartbeat in a ring for one |
| Runs.IdentifyComesFirst | lib/libdiscord.c:1007-1053 | No heartbeat is accepted before a HELLO was delivered; if a HELLO opens the run, a token is configured and the ring has room, the first payload accepted, and without write failures the first on the wire, is an IDENTIFY |
| Opening.NothingWithoutToken | lib/libdiscord.c:1031-1037 | Without a token a first connection that a HELLO opens accepts nothing at all, since the RECEIVE callback returns non-zero and that closes the connection |
| Opening.TokenlessBeatsFirst | lib/libdiscord.c:1007-1037 | A run without a token (HELLO refused, connection closed, reconnected, timer run out) whose first and only payload is a heartbeat |
| Opening.IdentifyFirstIffToken | lib/libdiscord.c:1022-1045 | Over all runs that a HELLO opens, reconnections included, the first payload the ring takes is always an IDENTIFY if and only if a token is configured |
| Wire.IdentifySentFirstIffToken | lib/libdiscord.c:778-811 | Over all such runs without write failures, the first payload sent is always an IDENTIFY if and only if a token is configured |
| Wire.LostIdentify | lib/libdiscord.c:797-805 | With failing writes a token does not suffice: there is a run that a HELLO opens whose first payload on the wire is no IDENTIFY |
| Wire.NothingElseIsSent | CODING_NOTES.md:48-49 | Over every run, nothing but heartbeats and IDENTIFYs is sent, so no other payload can precede IDENTIFY |
| Wire.BeatSentBeforeHelloIff | CODING_NOTES.md:48-49 | From any reachable context between two connections, some run sends a heartbeat before the next HELLO if and only if one is left over in the ring, or an interval is still set, no heartbeat is unacknowledged and the ring has room at all |
| Wire.NoBeatSentBeforeHello | lib/libdiscord.c:572-606 | If neither is the case, no run whatsoever sends a heartbeat before the next message |
| Wire.LeftOverBeat | lib/libdiscord.c:782-791 | A run from a new context after which no heartbeat can be queued before HELLO, as one is unacknowledged, and that one is left over and sent before HELLO |
| Silence.RunIsSilent | lib/libdiscord.c:558-606 | Over any run in which nothing is delivered, interval, sequence number and session stay; only heartbeats are queued, only with an interval set and room at all, and never more than bring the counter to one; misses need an interval and a counter of at least one |
| Opening.NoBeatBeforeHello | lib/libdiscord.c:572-593 | If the interval is 0, a heartbeat is unacknowledged or the ring has no room at all, no run whatsoever queues a heartbeat before the next message |
| Opening.BeatBeforeHelloIff | lib/libdiscord.c:561-593 | From any reachable context between two connections, some run queues a heartbeat before the next HELLO if and only if an interval is still set, no heartbeat is unacknowledged and the ring has room at all |
| Opening.UnsentMissIff | lib/libdiscord.c:573-593 | From any reachable context between two connections, some run reports a missed ACK before the next HELLO with nothing written in between if and only if an interval is still set and a heartbeat is unacknowledged or the ring has room for one |
| Opening.SpuriousMissIff | lib/libdiscord.c:573-584 | From any reachable context between two connections, some run reports a missed ACK before the next HELLO with nothing queued or sent in between if and only if an interval is still set and heartbeats and misses exceed ACKs |
| Protocol.AckLaw | lib/libdiscord.c:1055-1057 | A message with opcode 11 lowers the counter by one, changes nothing else but the visited `s`, and returns 0 |
| Protocol.InvalidationLaw | lib/libdiscord.c:981-986 | A message with opcode 9 leaves no session and `last_seq` 0, changes nothing else, and returns 0 |
| Protocol.HelloLaw | lib/libdiscord.c:987-1054 | A message with opcode 10 sets the announced interval (41250 without one); with an IDENTIFY to send it queues {"op": 2, "d": ...} if there is room, restarts the timer and returns 0, otherwise it returns 1 |
| Protocol.IgnoredLaw | lib/libdiscord.c:963-980 | Opcodes 1 to 8 and 12 change nothing but the visited `s` and return 0 |
| Protocol.RejectedLaw | lib/libdiscord.c:1061-1064 | Opcodes above 12, and a message without one, change nothing but the visited `s` and return 1 |
| Protocol.NoObjectLaw | lib/libdiscord.c:918-922 | What does not parse or is no object changes nothing and returns 1 |
| Protocol.UntypedLaw | lib/libdiscord.c:1101-1105 | Opcode 0 without a string for its type calls nobody and returns 320 |
| Protocol.UnlistedLaw | lib/libdiscord.c:1151-1172 | Opcode 0 with a type that names no enumerator calls nobody, changes nothing but the visited `s`, and returns 0 |
| Protocol.ListedLaw | lib/libdiscord.c:1154-1170 | Opcode 0 with any other type but READY calls the user once, with the enumerator of the type's own name and the data, and returns what the user returned |
| Protocol.ReadyLaw | lib/libdiscord.c:1075-1087 | READY stores its `session_id` before the user is called; without one nobody is called and 1 is returned |
| Protocol.MeaningByOpcode | lib/libdiscord.c:936-965 | Over all values, exactly envelopes with the four known keys and opcode 11, 9, 10 or 0 count as ACK, invalidation, HELLO or dispatch |
| Protocol.LedgerByOpcode | lib/libdiscord.c:573-593 | The ledger read off the outside: after every run `hb_count` is payloads accepted that lead with opcode 1, plus service calls that returned 220, minus messages delivered with opcode 11 |
| Protocol.SessionByMessages | lib/libdiscord.c:981-986 | After every run the session id is the `session_id` of the last READY that has one, none if opcode 9 came since |
| Returns.PumpConnected | lib/libdiscord.c:695-849 | After any events the websocket exists if and only if it did before and none of them was a connection error or the destruction of the websocket |
| Returns.EventCode | lib/libdiscord.c:695-774 | A callback returns what the user returned if it called the user itself, what the parser returned for the message it completed, and otherwise 0, apart from writes |
| Returns.FragmentLaw | lib/libdiscord.c:722-774 | For any fragment, well placed or not: whether it completes a message, which text that is, and what is in the buffer afterwards |
| Returns.WriteLaw | lib/libdiscord.c:782-810 | A payload counts as written if and only if the socket took the whole of a text that is not empty; the callback returns -1 exactly if something waited and was not written |
| Returns.ServiceCode | lib/libdiscord.c:558-606 | Without a websocket a service call returns 0 if and only if the attempt to connect leaves one, else 100; with one it returns 0 unless the timer is up, 220 for a missed ACK, 211 for a full ring |
| Returns.ServiceLog | lib/libdiscord.c:600-604 | A service call asks for a writable callback exactly if it goes on to pump events and something waits |
| Returns.ReturnsAreCodes | lib/libdiscord.c:558-606 | The returns in the log of a run are the codes of its service calls, in order |
| Returns.ConnectionsAreReported | lib/libdiscord.c:695-709 | Over every run the user hears of every connection made (35) and every connection error (36), in order, once each, and of no other event of the websocket |
| Returns.RetriesUntilConnected | lib/libdiscord.c:561-570 | Without a websocket every service call attempts to connect: 100 as long as attempts fail, 0 and a websocket on the first that succeeds |
| Runs.SessionIsOfLastReady | lib/libdiscord.c:981-986 | The session id is that of the last delivered READY that named one or, if the session was invalidated since, none |
| Runs.SeqIsLastVisited | lib/libdiscord.c:948-950 | `last_seq` is the last `s` the decoder visited since the last opcode 9, else 0, and every accepted heartbeat carries the number of the moment it was queued |
| Runs.CallbacksAreOwed | lib/libdiscord.c:1155-1172 | Over every run, the user callbacks for dispatches are exactly those the delivered messages ask for, in order, once each, and each finds the session id up to date, READY's own included |
| Bookkeeping.DecoderUsesTable | lib/libdiscord.c:1108-1142 | The library's decoder never announces a dispatch under one of the websocket's own reasons |
| Timer.FailureIsALatch | lib/libdiscord.c:573-606 | With a monotone clock, once a service call of a run returns the missed-ACK code or the full-ring code, every later call returns it too, and nothing is queued, written, parsed or called back any more |
| Timer.RunKeepsClock | lib/libdiscord.c:592-592 | With a monotone clock the timer is never restarted in the future |
| Spacing.HeartbeatsAreSpaced | lib/libdiscord.c:573-592 | Two consecutive heartbeats are more than I - 1000 ms and less than I + 1000 + P ms apart, for interval I and service calls at most P ms apart; with P up to 9 s within the 10 s of leeway |
| Spacing.TimerIsPunctual | lib/libdiscord.c:573-574 | The same bounds from the moment `last_hb` was read to the call that next finds the timer due |
| Spacing.RestartIsPunctual | lib/libdiscord.c:704-709 | The same bounds from an ESTABLISHED or an answered HELLO anywhere among the events of a service call, for the interval then in force |
| Fragmentation.RunCoalesces | lib/libdiscord.c:717-774 | A run on fragmented messages, broken-off ones included as long as the message after them has two fragments or more, with other events and service calls anywhere between the fragments, ends in the state and returns the codes of the run on whole messages |
| Fragmentation.FragmentationIndependence | lib/libdiscord.c:717-774 | Two runs that differ only in how messages are cut end in the same context with the same log (accepted payloads, wire, callbacks) and the same return codes |
| Fragmentation.PumpCoalesces | lib/libdiscord.c:734-774 | The same for one turn of the event pump, starting inside a message if need be |
| Fragmentation.SplittingsAgree | lib/libdiscord.c:717-774 | Any two splittings of the same sequence of messages leave the same context |
| Fragmentation.MessageIsParsedUnlessStale | lib/libdiscord.c:722-767 | However a message is cut, the parser gets its concatenation, once, if and only if no receive buffer is left over or the message has at least two fragments |
| Stale.DeathLeavesBuffer | lib/libdiscord.c:734-741 | A connection that dies after the first fragment of a message leaves the context disconnected with that fragment in the buffer |
| Stale.StaleBufferIsDeaf | lib/libdiscord.c:722-741 | From any reachable context with a left-over buffer, over any run whose messages come in one fragment, reconnections and writes included: the buffer stays, nothing is delivered, no ACK counts, session and interval stay, and only heartbeats are queued, at most one beyond the ACKs of before |
| Stale.StaleBufferEndsInLatch | lib/libdiscord.c:573-590 | In such a run a service call that finds the timer due reports a missed ACK once heartbeats and misses exceed the ACKs of before; until then it queues one heartbeat or finds the ring full |
| Fragmentation.StrNCpyIsPlainCopy | lib/libdiscord.c:737-748 | `strncpy` copies a text faithfully exactly if nothing but NULs follows its first NUL |
| Context.CopyText | lib/libdiscord.c:771-771 | The copy into the buffer is `strncpy`, inside the allocated block, and leaves what precedes it alone |
| Context.Context.constructor | lib/libdiscord.c:142-163 | A new context is the initial state |
| Context.Context.AppendFragment | lib/libdiscord.c:769-772 | The grown buffer holds the old text followed by the fragment, with the room asked for beyond it |
| Context.Context.FinishMessage | lib/libdiscord.c:742-767 | The terminator fits, the parser gets the whole text once, and the buffer is gone afterwards |
| Context.Context.OnReceive | lib/libdiscord.c:717-774 | The RECEIVE case on the real buffer does what the state machine says; a NULL buffer has length 0 throughout |
| Context.FindRow | lib/libdiscord.c:1155-1156 | The scan of the dispatch table stops at the first row with the name |
| Context.Context.DispatchParser | lib/libdiscord.c:1096-1173 | Dispatching does to the context what the meaning of the dispatch says, with the same return code |
| Context.Context.DispatchReady | lib/libdiscord.c:1075-1087 | The first `session_id` entry becomes the session id; without one an error and no change |
| Context.Context.DecodeEntries | lib/libdiscord.c:926-955 | The decoding loop yields the last value of each field before the first unknown key, and stores the last visited `s` |
| Context.Context.HandleHello | lib/libdiscord.c:987-1054 | HELLO sets the interval, queues the IDENTIFY whether or not there is room, restarts the timer; without an IDENTIFY it only sets the interval and fails |
| Context.Context.PayloadParser | lib/libdiscord.c:912-1069 | Parsing a message does what the state machine says for the message's reading |
| Context.Context.QueueHeartbeat | lib/libdiscord.c:1178-1202 | The heartbeat with the current `last_seq` enters the ring, or the full-ring code is returned |
| Context.Context.OnWriteable | lib/libdiscord.c:778-811 | The head of the ring is consumed and written; an empty text, a failed or a partial write return -1 |
| Context.Context.LwsCallback | lib/libdiscord.c:685-854 | Every event does to the context what the state machine says |
| Context.Context.CheckHeartbeat | lib/libdiscord.c:572-593 | The heartbeat check, with the increment taken back when the ring refuses |
| Context.Context.GatewayConnect | lib/libdiscord.c:617-678 | Connecting succeeds exactly if the websocket still exists after the events of the attempt |
| Context.Context.ServiceTick | lib/libdiscord.c:558-606 | One service call does to the context what the state machine says, with the same return code |
| Bot.Live | lib/libdiscord.c:558-606 | For any JSON reader and any run, the fields of a new context that lived through it satisfy ledger (also by opcode), conservation, session, sequence and interval bookkeeping, callback exactness and queue sufficiency |
| Dispatch.TableIsInjectiveMap | lib/libdiscord.c:1108-1142 | The scan is the lookup of a map: it finds a reason exactly if the table lists it under that name, and no two names share a reason |
| Dispatch.TableFollowsEnumeration | lib/libdiscord.h:50-89 | The scan announces every type as the enumerator of its own name, HELLO, RESUMED and INVALID_SESSION excepted, and finds no others |
| Dispatch.RowIsUnique | lib/libdiscord.c:1108-1142 | Each row is the only one with its name and the only one with its reason, only READY has a callback of the library's own, and reasons stay below the websocket's |
| Envelope.DispatchByName | lib/libdiscord.c:1096-1173 | A dispatch whose type the table does not list means nothing, READY is read by the library first, every other listed type is announced with the table's reason |
| Envelope.CreatePayload | lib/json.c:19-53 | The payload has exactly the given fields in the order op, d, t, s; without an opcode there is none |
| Envelope.EnvelopeRoundTrip | lib/json.c:19-53 | Decoding a built payload gives back all four fields, for every op and every optional d, t, s |
| Protocol.BuiltPayloadMeaning | lib/libdiscord.c:959-1065 | A built payload is such an envelope, with its own opcode and data, and asks for what that opcode says |
| Envelope.FieldsInOrder | lib/json.c:19-53 | Its fields stand in the order op, d, t, s |
| Envelope.CastsExactWhenInRange | lib/libdiscord.c:938-949 | Opcode and sequence number survive the casts exactly if they fit 32 bits unsigned and signed |
| Envelope.IntervalTakenOver | lib/libdiscord.c:994-1007 | An announced interval is taken over exactly if it is a positive 32-bit integer; zero and non-integers give 41250; exactly the non-zero multiples of 2^32 switch heartbeats off |
| Envelope.DecodeIgnoresOrder | lib/libdiscord.c:926-955 | With distinct keys, whether all keys are known, and if so all that is decoded, does not depend on the order of the entries |
| Envelope.ReadingIgnoresOrder | lib/libdiscord.c:912-955 | So two messages that are permutations of each other read the same, or are both rejected |
| Envelope.DataIgnoresOrder | lib/libdiscord.c:1079-1085 | Nor do the session id of a READY and the interval of a HELLO depend on the order of the data's entries |
| KeyOrder.KeyOrderIsInvisible | lib/libdiscord.c:912-957 | Of two messages that are permutations of each other, the parser does the same with both, state, log and return code; unless a key is unknown, when both are rejected and nothing changes but the sequence number, to the last one before the unknown key |
| Envelope.KnownPrefix | lib/libdiscord.c:936-954 | The visited entries are those before the first unknown key |
| History.PayloadKinds | lib/libdiscord.c:1183-1184 | Heartbeats and IDENTIFYs are told apart, and a receiver decodes their opcode and data |
| Entities.User.Load | lib/json.c:83-164 | For distinct keys each of the nine fields takes the value under its own key; it stays as it was if the key is absent or the value is no string (a locale is deleted, a boolean is false) |
| Entities.UserIgnoresOrder | lib/json.c:83-164 | Loading a user does not depend on the order of the entries |
| Entities.Message.Pack | lib/json.c:324-389 | For distinct keys id, channel, content, type and author take the value under their own keys and stay as they were without a string there, an author loaded into a block of its own; the texts of two ids end up in their own fields |
| Entities.MessageIgnoresOrder | lib/json.c:324-389 | Loading a message does not depend on the order of the entries |
| Decimal.IdRoundTrip | lib/json.c:12-17 | Every 64-bit id is read back from its text, which has at most 20 digits and is never cut off |
| Decimal.TextRoundTrip | lib/json.c:95-95 | Every canonical text of a 64-bit number is the text of the id it reads as |
| Decimal.OutsideULL | lib/json.c:95-95 | Larger numbers saturate, and a minus sign negates modulo 2^64 |
| Decimal.NumberInText | lib/json.c:95-95 | White space before a number is skipped, and reading stops at the first character that is no digit |
| Decimal.LongRoundTrip | lib/json.c:371-371 | Every number of 63 bits, with or without a minus sign, is read back from its text |
| Snowflake.FieldsAreBits | lib/json.c:397-412 | The masks and shifts, on binary digits, pick the quotients and remainders meant |
| Snowflake.IdFromFields | lib/json.c:392-415 | The fields of every 64-bit id fit 42, 5, 5 and 12 bits and put the id together again |
| Snowflake.FieldsFromId | lib/json.c:392-415 | All fields in range are those of exactly one 64-bit id |
| Snowflake.TimestampsAreTime | lib/json.c:399-427 | Larger ids are never older, the shift to Unix time does not wrap around, and converting back from whole seconds loses less than a second |
| Buffers.ResponseBody.Write | lib/REST.c:173-192 | A chunk is appended and the length is right; the terminator lies inside the block as allocated exactly if this is not the first chunk |
| Buffers.ResponseBody.WriteString | lib/libdiscord.c:262-276 | The same with a block that always has room for the terminator |
| Buffers.ResponseBody.WriteAll | lib/REST.c:173-192 | Any sequence of chunks leaves its concatenation, terminated inside its block exactly if there were at least two |
| Buffers.BinaryToHex | example_bots/example-hash.c:30-41 | For any content of the uncleared block: all writes stay inside and the result is terminated exactly if the block starts with a NUL; then it is 2n characters that read back as the n bytes |
| Buffers.HexRoundTrip | example_bots/example-hash.c:35-36 | The hex text of any bytes reads back as those bytes |

## Left out

- Context.Context.DispatchReady: a `session_id` that is not a string stores no id; the C code would copy from NULL.
- Context.Context.HandleHello: with a session id at hand the C code goes on with an uninitialised IDENTIFY structure, as resuming is a stub (lib/json.c:451-454); the model lets the surroundings choose any data, or none.
- Context.Context.PayloadParser: a missing `t` reads as absent; the C code leaves the variable uninitialised.
- Context.Context.LwsCallback: the close callback (lib/libdiscord.c:812-834) is not an event of the model, as it writes to per-shard state that is never set up.
- Context.Context.GatewayConnect: the REST lookups before a connection (lib/libdiscord.c:291-550) are one outcome, unreachable; the delay after a failure is not modelled.
- Context.Context.OnWriteable: the 8192 bytes of per-session memory the text is first copied to (lib/libdiscord.c:17, 793) have no limit in the model.
- Fragmentation.RunCoalesces: a one-fragment message right after a broken-off one is not a splitting that makes no difference; `Fragmentation.MessageIsParsedUnlessStale` says what happens to it.
- Allocation failures, leaked blocks and the aliasing of freed ones.
- The content of the IDENTIFY data (lib/json.c:233-274) is a given JSON value, missing exactly if there is no token.
- Payload texts: the ring holds the JSON object, and its text is produced when it is written.
- `ld_headers_put`, `ld_headers_clean`, `ld_headers2curl` (lib/REST.c:29-87): the parallel arrays of request headers and their copy into a curl list.
- The command splitting of `to_hash` (example_bots/example-hash.c:80-117) and the digest itself.
- REST requests, timestamps in text form, status strings, logging, sharding, bot programs.
