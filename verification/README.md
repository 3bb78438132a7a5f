# Verified models of the connectors, the tree restorer and the approval stores

A Dafny project that models seven parts of the repository and proves what they are
relied on for. `dafny verify dfyconfig.toml` checks all of it.

Everything from outside is an input: a socket brings its bytes in chunks of any size
and ends in a close, a timeout or an error; the clock is read into parameters; a write
or a connection attempt succeeds or fails as its parameter says; mask keys are
arbitrary bytes. Exceptions are result values. The Python classes are Dafny classes,
and each of their methods is proved equal to a function of the state before it; the
theorems over whole runs are about those functions.

## The parts

- **WebSocket** (`WebSocketFrame`, `WebSocketEvents`, `WebSocketReassembly`,
  `WebSocketSession`, `WebSocketPeer`, `WebSocketConnector`). The frame codec of RFC 6455, the receive
  loop that reassembles fragments between control frames, and the persistent connection
  with its receive queue. The receive loop accepts exactly the frame sequences that
  carry a message. Over every run, on a link that is kept, no data message is lost, and
  none is reordered except by EXCHANGE, which reads past the queue; when a request keeps
  its link is stated verb by verb.
- **MQTT 3.1.1** (`MqttCodec`, `MqttClient`). Remaining Length, strings, packets, packet
  ids, and the SUBSCRIBE exchange, against a broker that reads sections 3.1 and 3.8.
- **Modbus TCP** (`ModbusCodec`, `ModbusPdu`, `ModbusDevice`). PDUs and frames, against a
  device that parses requests by the MODBUS Application Protocol Specification V1.1b3.
- **SMS** (`Sms`, `SmsSplit`). The greedy splitter is optimal, and the gap between the
  count formula and the true count is exact.
- **Schema validator** (`Schema`, `SchemaMeaning`, `SchemaValidation`, `SchemaBounds`,
  `SchemaTwins`, `SchemaRewriting`, `SchemaReordering`, `SchemaClient`). `Schema` follows the code, with Python's recursion limit as a depth and
  a third verdict for reaching it. `SchemaMeaning` says declaratively what a schema
  accepts. The validator decides exactly that; references can be inlined and branches
  reordered without changing it.
- **Tree restorer** (`RestorePlan`, `RestoreMoves`, `RestoreRun`, `RestoreDisk`). Paths are
  sequences of names and a tree maps paths to contents. The plan is minimal, a run keeps
  every file, and a run that goes through leaves nothing to do.
- **Approval stores** (`Approvals`, `ApprovalRuns`). A single-use grant is consumed at most
  once over every run, and the durable store behaves as the in-memory one under exactly
  the conditions its lossy file format needs.

`Wire` (bytes, integers, sockets), `Utf8`, `Text` and `Wrappers` are shared.

## What the code does where one might expect otherwise

- The MQTT length encoder documents a four-byte limit but its guard lets a fifth byte
  through, which the decoder never accepts (`MqttCodec.VarintBoundary`).
- `_unpack_bits` returns one bit for a count of zero (`ModbusCodec.UnpackIsPrefix`).
- Cutting an over-long SMS body appends a character outside GSM-7, so the cut body is
  always UCS-2, and under the default limits it is refused (`SmsSplit.CutBodyIsUcs2`,
  `SmsSplit.LongBodiesRefusedExactly`). Where it is not refused, the announced count can
  exceed the number of parts (`SmsSplit.CountsOrderedExactly`).
- A PONG after a fragment of a message makes the connector forget the fragments
  (`WebSocketReassembly.PongAmongFragments`). The run theorem is for peers that send PONGs
  between messages only (`WebSocketPeer.PeerLosesNothing`).
- A PING queues the messages that arrive before its PONG, but loses them, with all queued
  before, unless the PONG comes first and in time: a CLOSE, an error or the deadline clears
  the queue (`WebSocketSession.LinkKeptExactly`, `WebSocketPeer.PingLosesMessage`).
- EXCHANGE overtakes queued messages: it keeps the order for certain only with an empty
  queue (`WebSocketPeer.ExchangeSafeExactly`).
- A broker may publish before it acknowledges a subscription; the exchange succeeds only
  if it does not (`MqttClient.SubscribeSucceedsExactly`). A password without a user name builds a CONNECT that
  a broker must reject (`MqttClient.ConnectReadsBack`).
- The durable approval store blanks or cuts ids on the way to its file, which changes
  decisions for living grants with such ids (`ApprovalRuns.DurableDecidesAlike`). A clock
  reading of zero or less lets a grant be consumed again (`ApprovalRuns.ConsumedAgain`).
- The restorer loses exactly the files it moves to a path the allowlist asks for as a
  directory (`RestoreRun.KeptExactly`, `RestoreDisk.ClaimedFileIsLost`). Its branches for
  `.venv` and `apps/chat_ui/node_modules` (`tools/restore_tree.py`, lines 334 to 343) are
  never reached (`RestoreDisk.RunsSetNothingUp`).
- The descendant test at line 180 of `tools/restore_tree.py` never decides anything
  (`RestorePlan.DescendantTestIdle`).
- `allOf: ""` accepts every value (`SchemaValidation.StringForBranches`).

## Model

| member | source | states |
|---|---|---|
| Wire.Socket.RecvExact | connectors/protocols/websocket_connector.py:641-667 | the next n bytes whatever the chunk sizes, or the error the stream ends with when fewer arrive |
| Wire.Socket.SendAll | connectors/protocols/websocket_connector.py:670-681 | the whole buffer is written as one entry, or nothing is and the caller sees the failure |
| Wire.FromToBig | connectors/protocols/websocket_connector.py:709-717 | a length written big-endian in a fixed width reads back as itself |
| Wire.ToFromBig | connectors/protocols/websocket_connector.py:738-746 | every byte string is the big-endian form of the number it reads as |
| Wire.XorTwice | connectors/protocols/websocket_connector.py:689-693 | exclusive-or with the same key byte twice gives the byte back, for all numbers |
| Utf8.DecodeEncode | connectors/protocols/mqtt.py:450-475 | decoding the encoded text gives the text back, for every string of scalar values |
| Utf8.EncodeDecode | connectors/protocols/mqtt.py:461-475 | the decoder accepts only encodings: whatever it decodes encodes to the same bytes |
| WebSocketFrame.MaskTwice | connectors/protocols/websocket_connector.py:689-693 | masking is an involution for every payload and four-byte key |
| WebSocketFrame.MaskPayload | connectors/protocols/websocket_connector.py:689-693 | the in-place loop computes the masked payload |
| WebSocketFrame.FrameRoundTrip | connectors/protocols/websocket_connector.py:696-766 | for every fin flag, opcode, payload, key and limit: the frame reads back with its parts and the following bytes untouched, or is refused exactly when it is over the limit |
| WebSocketFrame.ShortestForm | connectors/protocols/websocket_connector.py:704-717 | no accepted encoding of a frame is shorter than the one built, so the length form is the shortest of the three |
| WebSocketEvents.CloseRoundTrip | connectors/protocols/websocket_connector.py:769-803 | a close payload reads back as the code sent (1000 for a bare reason) and the reason |
| WebSocketEvents.SendFrame | connectors/protocols/websocket_connector.py:670-722 | one buffer is written which a peer reads as exactly this opcode and payload, masked; or none |
| WebSocketEvents.ReadFrame | connectors/protocols/websocket_connector.py:725-766 | on a chunked socket: the frame at the front of the stream and nothing beyond it is consumed, with the exact error and remaining bytes otherwise |
| WebSocketEvents.HandleFrame | connectors/protocols/websocket_connector.py:1441-1528 | each branch of the assembler, with the replies really written to the socket |
| WebSocketEvents.RecvEvent | connectors/protocols/websocket_connector.py:1426-1528 | the loop does to a chunked socket what the stream function says: event or error, bytes left unread, and one masked reply frame per reply, in order |
| WebSocketReassembly.MessageReceived | connectors/protocols/websocket_connector.py:1426-1528 | a stream of frames that carries a message (pings interleaved anywhere) is received as that message, with every ping answered once, in order, and the rest untouched |
| WebSocketReassembly.MessageSound | connectors/protocols/websocket_connector.py:1426-1528 | conversely, a received message was carried by frames at the front of the stream |
| WebSocketReassembly.ReceivesExactlyMessages | connectors/protocols/websocket_connector.py:1426-1528 | a message is received with a given rest if and only if some frame sequence carrying it precedes that rest |
| WebSocketReassembly.FragmentedRoundTrip | connectors/protocols/websocket_connector.py:696-766 | every split of every payload into frames built with any keys, with pings anywhere, comes back as the first opcode and the exact concatenation, consuming exactly those bytes |
| WebSocketReassembly.PongAmongFragments | connectors/protocols/websocket_connector.py:1446-1484 | for every split and every place of a PONG, which section 5.4 of RFC 6455 allows: the PONG is returned, and the next call receives the message if and only if no fragment came before it; otherwise the fragments are forgotten and the next one is an error |
| WebSocketSession.ReceiveIsLawful | connectors/protocols/websocket_connector.py:1426-1528 | the reader consumes at least one byte per event, writes no more than the socket allows, and reads the same event whatever the replies |
| WebSocketSession.HandleKeepsMessages | connectors/protocols/websocket_connector.py:1530-1825 | each operation keeps the books: delivered, queued and unread messages are those the link brought, in order unless it was EXCHANGE |
| WebSocketSession.ExchangeOrder | connectors/protocols/websocket_connector.py:1760-1825 | told before the call: EXCHANGE keeps the order if and only if the next event on the link is no data message or equals every queued one; it hands over the first message unread |
| WebSocketPeer.ExchangeOvertakes | connectors/protocols/websocket_connector.py:1760-1825 | a peer sends m then n: with m queued EXCHANGE hands over n, and RECV then m |
| WebSocketPeer.ExchangeSafeExactly | connectors/protocols/websocket_connector.py:1760-1825 | what a caller can rely on: EXCHANGE keeps the order on every link if and only if the queue is empty |
| WebSocketSession.RequestKeepsMessages | connectors/protocols/websocket_connector.py:1204-1367 | a request with all its retries keeps the books, and a failure that drops the socket leaves neither socket nor queue |
| WebSocketSession.RunKeepsMessages | connectors/protocols/websocket_connector.py:1204-1367 | so does every sequence of requests |
| WebSocketSession.NothingLost | connectors/protocols/websocket_connector.py:1544-1825 | over every run from a disconnected start, with any streams, failures and reconnections: delivered plus queued plus unread equals what the current link brings, in order unless an EXCHANGE ran on it and always as a multiset; the queue holds data messages only |
| WebSocketPeer.MessagesOfStream | connectors/protocols/websocket_connector.py:1426-1528 | what a link brings is exactly the messages the peer sends, however fragmented, with PINGs and PONGs around them |
| WebSocketPeer.PeerLosesNothing | connectors/protocols/websocket_connector.py:1544-1825 | so over every run: delivered, queued and unread are the messages of the peer, in order unless an EXCHANGE ran |
| WebSocketSession.RetriesBounded | connectors/protocols/websocket_connector.py:1289-1367 | a request dials at most once, plus once per retry if it is idempotent |
| WebSocketSession.LinkKeptExactly | connectors/protocols/websocket_connector.py:1530-1825 | a request leaves its link and queue in place if and only if the condition of its verb is met (for PING: the first event within the deadline that is no message is a PONG); otherwise every queued message is lost and nothing of the link is delivered |
| WebSocketPeer.PingLosesMessage | connectors/protocols/websocket_connector.py:1624-1690 | the condition matters: a peer sends a message, then a CLOSE; the PING that waits leaves neither link nor message |
| WebSocketConnector.Connector.CloseSocket | connectors/protocols/websocket_connector.py:1079-1094 | neither socket nor queued event survives, whether or not the close frame goes out |
| WebSocketConnector.Connector.EnsureConnected | connectors/protocols/websocket_connector.py:1118-1139 | an open socket is kept with its queue; otherwise exactly one connection is attempted and the queue starts empty |
| WebSocketConnector.Connector.AwaitPong | connectors/protocols/websocket_connector.py:1610-1690 | the waiting loop equals its specification: messages are queued in arrival order until a pong, a close, an error or the deadline |
| WebSocketConnector.Connector.Handle | connectors/protocols/websocket_connector.py:1530-1825 | every verb updates socket, queue and wire as the session machine says |
| WebSocketConnector.Connector.Attempt | connectors/protocols/websocket_connector.py:1292-1307 | connecting and handling, as one step of the session machine |
| WebSocketConnector.Connector.Request | connectors/protocols/websocket_connector.py:1204-1367 | the retry loop equals the recursive specification the run theorems are about |
| MqttCodec.VarintLength | connectors/protocols/mqtt.py:395-421 | k bytes are enough exactly below 128^k |
| MqttCodec.BuildVarint | connectors/protocols/mqtt.py:395-421 | the encoding loop, with its guard as written: negative and 128^5 and above are refused |
| MqttCodec.VarintReadsBack | connectors/protocols/mqtt.py:395-447 | an encoding within the byte limit reads back with the rest of the stream untouched; a longer one is malformed |
| MqttCodec.VarintMinimal | connectors/protocols/mqtt.py:424-447 | whatever is accepted in k bytes is below 128^k and has no shorter encoding than the one built |
| MqttCodec.VarintPrefixFree | connectors/protocols/mqtt.py:395-421 | the code is prefix-free |
| MqttCodec.VarintBoundary | connectors/protocols/mqtt.py:395-447 | the round trip holds if and only if n < 128^4; from there to 128^5 the encoder emits five bytes and the decoder always rejects them |
| MqttCodec.ReadVarint | connectors/protocols/mqtt.py:424-447 | the byte-at-a-time loop on a chunked socket computes the decoder function and consumes exactly its bytes |
| MqttCodec.ReadPacket | connectors/protocols/mqtt.py:509-535 | one packet, or the exact error, and the bytes left |
| MqttCodec.PacketRoundTrip | connectors/protocols/mqtt.py:509-535 | a packet reads back as itself and the stream goes on after it |
| MqttCodec.StreamRoundTrip | connectors/protocols/mqtt.py:509-535 | a concatenation of packets is read back as exactly that list |
| MqttCodec.StringRoundTrip | connectors/protocols/mqtt.py:450-475 | a length-prefixed string reads back at its offset, whatever surrounds it |
| MqttCodec.TopicFits | connectors/protocols/mqtt.py:296-358 | a normalised topic or filter always fits its two-byte length field |
| MqttCodec.PublishRoundTrip | connectors/protocols/mqtt.py:592-673 | a PUBLISH reads back as the normalised topic, the payload, QoS 0 and the retain flag |
| MqttClient.PacketId.Next | connectors/protocols/mqtt.py:835-840 | the stored id advances to the next one, never zero |
| MqttClient.IdsDistinct | connectors/protocols/mqtt.py:830-840 | no id is zero, and two ids are equal if and only if a multiple of 65535 calls lies between them |
| MqttClient.ConnectReadsBack | connectors/protocols/mqtt.py:538-581 | a broker reading section 3.1 of MQTT 3.1.1 recovers what was configured, exactly when a password comes with a user name |
| MqttClient.ConnectRoundTrip | connectors/protocols/mqtt.py:538-581 | the same for the packet on the wire, for every CONNECT that is built and fits the limits |
| MqttClient.SubscribeReadsBack | connectors/protocols/mqtt.py:612-628 | a broker reading section 3.8 recovers the non-zero id, the normalised filter and QoS 0 |
| MqttClient.Client.Subscribe | connectors/protocols/mqtt.py:1378-1530 | nothing is sent and no id used for a bad filter, QoS or timeout; otherwise one id, one packet, and the replies as specified |
| MqttClient.Client.ReadReplies | connectors/protocols/mqtt.py:1411-1530 | SUBACK, id, return codes and PUBLISH are checked in this order and only these packets are consumed |
| MqttClient.SubscribeDelivers | connectors/protocols/mqtt.py:1411-1530 | an acknowledgement followed by a PUBLISH is delivered unchanged, and nothing after it is read |
| MqttClient.EarlyPublishFails | connectors/protocols/mqtt.py:1416-1428 | a PUBLISH before the SUBACK, which section 3.8.4 of MQTT 3.1.1 allows, always fails the exchange |
| MqttClient.SubscribeSucceedsExactly | connectors/protocols/mqtt.py:1411-1530 | against a broker that publishes any list of messages before it acknowledges, the exchange succeeds if and only if the list is empty, and then delivers the message unchanged |
| ModbusCodec.PackRegisters | connectors/protocols/modbus_connector.py:554-565 | big-endian registers, or an error at a value out of range |
| ModbusCodec.RegisterAt | connectors/protocols/modbus_connector.py:554-565 | register i is bytes 2i and 2i+1 |
| ModbusCodec.UnpackRegisters | connectors/protocols/modbus_connector.py:568-580 | the loop reads exactly the registers of the data, or reports it short |
| ModbusCodec.PackBits | connectors/protocols/modbus_connector.py:521-538 | the accumulating loop packs the bits eight to a byte |
| ModbusCodec.PackedBit | connectors/protocols/modbus_connector.py:521-538 | bit i is bit i mod 8 of byte i div 8, and padding is zero |
| ModbusCodec.UnpackBits | connectors/protocols/modbus_connector.py:541-551 | the nested loops with their early return compute the bits of the data |
| ModbusCodec.UnpackIsPrefix | connectors/protocols/modbus_connector.py:541-551 | unpacking gives the first count bits if and only if count is positive or there is no data |
| ModbusCodec.UnpackPack | connectors/protocols/modbus_connector.py:521-551 | unpacking what was packed gives the bits back |
| ModbusPdu.PduFits | connectors/protocols/modbus_connector.py:583-709 | every PDU built has 1 to 253 bytes, and its byte count says how many bytes follow |
| ModbusPdu.TransactionId.Next | connectors/protocols/modbus_connector.py:863-866 | the stored id advances modulo 65536 |
| ModbusPdu.TidsDistinct | connectors/protocols/modbus_connector.py:858-866 | two transaction ids are equal if and only if a multiple of 65536 calls lies between them |
| ModbusPdu.AduRoundTrip | connectors/protocols/modbus_connector.py:923-1090 | a response frame is read as its unit and PDU exactly when it fits the limit and answers this transaction, with the error otherwise |
| ModbusPdu.ExchangeAdu | connectors/protocols/modbus_connector.py:904-1107 | one frame out under a new id, one in, with the checks in the order of the code; nothing is sent when the request is too large or connecting fails |
| ModbusPdu.Transact | connectors/protocols/modbus_connector.py:1319-1352 | one attempt: build, exchange, decode; a request that does not build uses no id |
| ModbusDevice.RequestUnderstood | connectors/protocols/modbus_connector.py:583-709 | a device parsing by the specification recovers function, address, quantity and values from every PDU built |
| ModbusDevice.ReplyUnderstood | connectors/protocols/modbus_connector.py:712-841 | decoding the device's reply gives exactly the cells addressed, in order, or the echo of the write |
| ModbusDevice.RoundTrip | connectors/protocols/modbus_connector.py:583-841 | through any device: the cells are read or written as meant if they exist, and otherwise the device is unchanged and the caller sees "illegal data address" |
| ModbusDevice.TransactionRoundTrip | connectors/protocols/modbus_connector.py:928-941 | the same over the wire for every limit of at least 260 bytes: neither the request nor the framed reply is ever too large |
| ModbusDevice.WriteThenRead | connectors/protocols/modbus_connector.py:583-841 | registers written are the registers read back, and nothing else in the device changes |
| Sms.Gsm7SeptetLen | connectors/communication/sms.py:354-370 | the septets if every character is in the tables, else none |
| Sms.Ucs2UnitsLen | connectors/communication/sms.py:373-385 | the UTF-16 code units |
| Sms.GetSegmentInfo | connectors/communication/sms.py:400-431 | encoding, count, limit and total as the arithmetic of the module gives them |
| Sms.ReachIsLongest | connectors/communication/sms.py:475-505 | a greedy piece is the longest prefix that fits |
| Sms.PiecesDivide | connectors/communication/sms.py:472-507 | the pieces concatenate to the body, each is non-empty and within the limit, no character is split |
| Sms.SuffixNeedsNoMore | connectors/communication/sms.py:472-507 | dropping characters from the front never needs more pieces |
| Sms.GreedyIsOptimal | connectors/communication/sms.py:472-507 | no division into consecutive pieces within the limit has fewer pieces |
| Sms.SplitGreedily | connectors/communication/sms.py:472-507 | the loop with its buffer and running total computes the greedy pieces, in either encoding |
| Sms.EachPieceUnits | connectors/communication/sms.py:472-507 | every piece but the last holds the limit or one unit less, the last at most the limit |
| Sms.PieceUnits | connectors/communication/sms.py:472-507 | so the number of pieces bounds the units of the body from both sides |
| Sms.FormulaGap | connectors/communication/sms.py:400-507 | the true count lies between ceil(units/per) and ceil(units/(per-1)) |
| Sms.UniformPieces | connectors/communication/sms.py:400-507 | for characters of one width the count is exactly the ceiling over the largest multiple of it |
| Sms.FormulaExtremes | connectors/communication/sms.py:400-507 | the formula is exact for width 1, and the upper bound is reached for width 2 |
| SmsSplit.SplitSegments | connectors/communication/sms.py:434-516 | the whole function: NUL check, cut, formula check, single part, split and final check |
| SmsSplit.SplitIsMinimal | connectors/communication/sms.py:434-516 | what is returned is a legal division and none has fewer parts |
| SmsSplit.SplitSucceedsExactly | connectors/communication/sms.py:434-516 | the function succeeds if and only if some legal division within the segment limit exists and no NUL is refused |
| SmsSplit.CutBodyIsUcs2 | connectors/communication/sms.py:453-455 | a cut body is never GSM-7, because of the ellipsis that marks the cut |
| SmsSplit.CutBodyRefused | connectors/communication/sms.py:453-467 | so a cut body too long for the limits in UCS-2 is always refused |
| SmsSplit.DefaultsRefuseLongBodies | connectors/communication/sms.py:136-156 | with the default limits every body over 4000 characters is refused rather than cut |
| SmsSplit.CountsOrdered | connectors/communication/sms.py:716-743 | within the character limit `segments` is at most `parts_count`, with equality for width 1 |
| SmsSplit.LongBodiesRefusedExactly | connectors/communication/sms.py:453-467 | every over-long body is refused if and only if the limits admit no cut body |
| SmsSplit.CountsOrderedExactly | connectors/communication/sms.py:716-743 | `segments` is at most `parts_count` for every accepted text if and only if the limits admit no cut body |
| SmsSplit.LettersOvercounted | connectors/communication/sms.py:716-743 | the counts of a run of letters that is accepted cut: of the whole, and of the cut |
| SmsSplit.CountsOfCutBody | connectors/communication/sms.py:716-743 | for example an input announced as 3 segments and sent as 1 part |
| SchemaMeaning.ReferenceForms | connectors/custom/custom_protocol_builder.py:291-314 | each documented form of a reference resolves to the named definition, and to nothing when it is not defined |
| SchemaMeaning.SameIsEqual | connectors/custom/custom_protocol_builder.py:393-402 | the comparison by canonical form is equality of numbers by value, lists by position and dictionaries by key |
| SchemaValidation.AllOfLoop | connectors/custom/custom_protocol_builder.py:345-355 | the allOf loop accepts exactly when every branch does |
| SchemaValidation.AnyOfLoop | connectors/custom/custom_protocol_builder.py:357-370 | the anyOf loop accepts exactly when some branch does |
| SchemaValidation.OneOfLoop | connectors/custom/custom_protocol_builder.py:372-391 | the oneOf loop accepts exactly when the accepting branches number one |
| SchemaClient.CountMatches | connectors/custom/custom_protocol_builder.py:372-391 | the loop with its `matches` counter |
| SchemaValidation.ValidateDecides | connectors/custom/custom_protocol_builder.py:317-460 | for definitions acyclic outside properties, items and additionalProperties, the validator ends within some stack depth, and from there on its verdict is the declarative meaning |
| SchemaBounds.DecidesWithin | connectors/custom/custom_protocol_builder.py:317-574 | how much stack is enough, from the heights of value and schema, the level of the schema and the ranks and heights of the definitions |
| SchemaBounds.DepthIsEnough | connectors/custom/custom_protocol_builder.py:317-574 | at most (h + 1)(ranks + 2)(height + 1) calls are ever nested, and with so many the verdict is the meaning |
| SchemaBounds.BoundsExist | connectors/custom/custom_protocol_builder.py:317-574 | every schema, value and set of acyclic definitions has such bounds |
| SchemaValidation.MoreStack | connectors/custom/custom_protocol_builder.py:317-460 | more stack never changes a verdict other than overflow |
| SchemaValidation.ValidatorIsRight | connectors/custom/custom_protocol_builder.py:317-574 | at every stack depth the verdict is overflow or the meaning, and it is the meaning from some depth on |
| SchemaValidation.CycleOverflows | connectors/custom/custom_protocol_builder.py:339-391 | the condition matters: a schema that leads into a cycle of definitions, of any length, by references or first branches, overflows at every depth |
| SchemaValidation.ReferenceCycleOverflows | connectors/custom/custom_protocol_builder.py:339-342 | in particular every definition of a cycle of references, of any length |
| SchemaValidation.StringForBranches | connectors/custom/custom_protocol_builder.py:345-391 | a string in the place of branches: allOf accepts every value if it is empty and none otherwise, anyOf and oneOf none |
| SchemaClient.AnyRanking | connectors/custom/custom_protocol_builder.py:317-460 | the meaning does not depend on the ranking that shows it well-founded |
| SchemaRewriting.InlineMeans | connectors/custom/custom_protocol_builder.py:291-342 | replacing every reference throughout an acyclic schema leaves the accepted values unchanged, with no definitions left |
| SchemaRewriting.InlineKeepsVerdicts | connectors/custom/custom_protocol_builder.py:291-342 | so with enough stack the validator gives the same verdict on both, never overflow |
| SchemaRewriting.ReorderMeans | connectors/custom/custom_protocol_builder.py:345-391 | any permutation of the branches of allOf, anyOf or oneOf leaves the accepted values unchanged |
| SchemaReordering.StillRanked | connectors/custom/custom_protocol_builder.py:291-314 | reordering keeps definitions acyclic, by the same ranking |
| SchemaReordering.ReorderThroughout | connectors/custom/custom_protocol_builder.py:317-574 | reordering branches at any depth, in a schema and in its definitions, leaves the accepted values unchanged |
| SchemaReordering.ReorderKeepsVerdicts | connectors/custom/custom_protocol_builder.py:317-574 | so with enough stack the validator gives the same verdict, never overflow |
| SchemaClient.Client.Call | connectors/custom/custom_protocol_builder.py:630-672 | the connector is called once if the operation is known and its input valid, and otherwise not, with the identity and the caller's timeout or else the operation's; results are validated before they are returned |
| RestorePlan.NormalizeRelative | tools/restore_tree.py:49-64 | outside the root and parent references are refused; otherwise the named parts remain |
| RestorePlan.NamedTwice | tools/restore_tree.py:57-64 | normalising is idempotent |
| RestorePlan.BuildAllowSets | tools/restore_tree.py:143-151 | the allowed directories are exactly the root, the entries and their ancestors |
| RestorePlan.CollectActual | tools/restore_tree.py:87-101 | the walk lists exactly the files and directories with no pruned directory on the way |
| RestorePlan.CoveredByTopmost | tools/restore_tree.py:171-185 | every unwanted directory lies at or below a reported one |
| RestorePlan.ExtraDirsApart | tools/restore_tree.py:171-185 | and no reported directory lies below another |
| RestorePlan.PickExtraDirs | tools/restore_tree.py:173-185 | the loop reports exactly the topmost unwanted directories, each once, whatever the order within a depth |
| RestorePlan.DescendantTestIdle | tools/restore_tree.py:176-181 | the test for allowlisted paths at or below a directory never decides |
| RestoreDisk.AnalyzeTree | tools/restore_tree.py:167-195 | the report lists exactly the extra files, the extra directories and the missing entries |
| RestoreMoves.TriesRunOut | tools/restore_tree.py:298-304 | each taken name uses up one existing path, so the search ends |
| RestoreMoves.FreshIsFirst | tools/restore_tree.py:298-304 | the suffix found is the least whose name is free |
| RestoreDisk.Disk.FindUniqueDest | tools/restore_tree.py:298-304 | the loop finds that name |
| RestoreMoves.MoveFiles | tools/restore_tree.py:307-321 | a move keeps every file with its content, under its new path, and no other |
| RestoreMoves.MoveWellFormed | tools/restore_tree.py:307-321 | and the tree stays a tree |
| RestoreDisk.Disk.Quarantine | tools/restore_tree.py:308-321 | one turn of the moving loops, including the failure of mkdir |
| RestoreDisk.Disk.Restore | tools/restore_tree.py:322-333 | one turn of the restoring loop: directory entry, present, from version control, or empty |
| RestoreDisk.RunsSetNothingUp | tools/restore_tree.py:307-343 | the branches that build the virtual environment and install packages are never reached: no run depends on what they would do |
| RestoreDisk.Disk.ApplyActions | tools/restore_tree.py:307-343 | the whole apply step on the disk, ending at the first failure |
| RestoreRun.ReportMayMove | tools/restore_tree.py:171-185 | a reported path is unprotected and has nothing existing and allowlisted at or below it |
| RestoreRun.MoveAllGood | tools/restore_tree.py:308-321 | moving, step by step, keeps the tree, the allowlisted paths and every file, each where the destinations chosen on the way put it |
| RestoreRun.RestoreAllGood | tools/restore_tree.py:322-333 | restoring keeps them too, apart from files whose place a directory entry claims |
| RestoreRun.PlacesApart | tools/restore_tree.py:307-321 | every run gives each file a place of its own; only files at or below an extra path move, those go below the quarantine, allowlisted files stay |
| RestoreRun.KeptExactly | tools/restore_tree.py:307-333 | every run, also one that raises, keeps the content of a file at the place it is moved to if and only if it creates no directory there |
| RestoreRun.NothingLostExactly | tools/restore_tree.py:307-333 | a run that goes through loses nothing if and only if no file is moved to a missing directory entry |
| RestoreRun.RestoreAllExact | tools/restore_tree.py:322-333 | restoring keeps a file if and only if no directory entry it creates claims its path |
| RestoreRun.NothingLost | tools/restore_tree.py:307-333 | no file is lost when no missing directory entry lies below the quarantine of the run |
| RestoreDisk.ClaimedFileIsLost | tools/restore_tree.py:322-328 | the condition matters: a tree and an allowlist for which the run goes through and the file is nowhere |
| RestoreRun.LeavesNothingToDo | tools/restore_tree.py:167-195 | after a run that goes through, the same analysis finds no extra file, no extra directory and nothing missing |
| Approvals.ConstructTwice | src/francis/compute_substrate_types.py:352-430 | constructing a grant from a grant changes nothing |
| Approvals.PayloadReadsBack | src/francis/compute_substrate_approvals.py:395-484 | what is read back from the file is the grant with its ids bounded, nothing else changed |
| Approvals.InMemoryApprovalStore.Add | src/francis/compute_substrate_approvals.py:50-52 | the grant is stored under its id, others unchanged |
| Approvals.InMemoryApprovalStore.Consume | src/francis/compute_substrate_approvals.py:68-93 | two evaluations and a stamp, each with its own clock reading |
| Approvals.LocalJsonApprovalStore.Add | src/francis/compute_substrate_approvals.py:142-144 | a failed write raises and leaves the files as they were |
| Approvals.LocalJsonApprovalStore.Consume | src/francis/compute_substrate_approvals.py:170-211 | one evaluation, then the write; a failed write denies |
| ApprovalRuns.StepKeyed | src/francis/compute_substrate_approvals.py:213-239 | every operation keeps each grant stored under its own id |
| ApprovalRuns.SpendingStep | src/francis/compute_substrate_approvals.py:68-93 | a consumption spends an unspent grant, and only an add of the same id makes a spent grant unspent |
| ApprovalRuns.AtMostOnce | src/francis/compute_substrate_approvals.py:68-93 | over every run with positive stamps, any other clock readings and no add of the id, on either store, with any write failures, the grant is consumed at most once, and never if spent |
| ApprovalRuns.ConsumedAgain | src/francis/compute_substrate_approvals.py:82-91 | the clock matters: any later request for a consumed grant consumes it again if and only if the stamp was zero or negative and the grant as it was permits the request |
| ApprovalRuns.DurableConsumedAgain | src/francis/compute_substrate_approvals.py:186-209 | the same for the durable store, where the write must succeed as well and the grant is the one written |
| ApprovalRuns.SafeSteps | src/francis/compute_substrate_approvals.py:156-211 | authorize changes nothing, a failed write changes nothing and consumes nothing, revoked or expired grants are never allowed |
| ApprovalRuns.DurableDecidesAlike | src/francis/compute_substrate_approvals.py:395-508 | a grant read back from its file decides every envelope at every time as the original does if and only if it is dead or its ids survive bounding |
| ApprovalRuns.StepRefines | src/francis/compute_substrate_approvals.py:142-211 | one operation has the same outcome on both stores and keeps them mirroring each other |
| ApprovalRuns.DurableRefinesMemory | src/francis/compute_substrate_approvals.py:57-211 | every run of comparable operations has the same outcomes on both stores |
| ApprovalRuns.CleanRunsAlike | src/francis/compute_substrate_approvals.py:57-211 | so from empty stores every run with well-formed ids of at most 160 characters, equal clock readings and no failed write has the same outcomes on both |
| ApprovalRuns.AuthorizeAlikeExactly | src/francis/compute_substrate_approvals.py:57-168 | mirroring stores give the same answer, reason included, if and only if the approval id is blank or safe |
| ApprovalRuns.TickBetweenReadings | src/francis/compute_substrate_approvals.py:68-93 | the second clock reading of the in-memory store matters exactly when the grant expires between the two |

## Left out

- HTTP upgrade handshake, TLS, SHA-1 and base64, serial ports, subprocesses: foreign calls.
- Real time: a deadline is a number of loop rounds, a timeout an ending of the stream, and the backoff between retries is not modelled.
- Wire.Socket.SendAll: a buffer is written whole or not at all; a failed write may in truth have sent a part of it.
- WebSocketConnector.Connector.EnsureConnected: has one target, so the comparison of target URLs is not modelled.
- WebSocketConnector.Connector.Handle: takes messages as bytes; coercing text, mappings and other objects to bytes, and the per-request mode, are not modelled.
- WebSocketConnector.Connector.Request: has no per-request target, no per-request mode and no waiting between retries.
- MqttClient.Client.Subscribe: takes its options; looking them up in the request and its metadata, and converting them, is not modelled.
- ModbusPdu.ExchangeAdu: opens its own connection; the branch for a kept socket is never taken, because the exchange closes every socket it has opened and so hands none back.
- RestoreDisk.Disk.Restore: version control brings back single files (see RestoreMoves.GitRestore).
- Response envelopes, statistics, redaction, fingerprints and logging: no property depends on them.
- Target, header and operation-string normalisation of the protocol connectors: field checks.
- Strings are sequences of Unicode scalar values; a lone surrogate in a Python string is not modelled.
- Text.Lower: lowers ASCII letters only; no keyword or level it is compared with has others.
- `str.isalnum` is an abstract character test, of which only that no space passes is assumed.
- MQTT persistent mode with PING and keep-alive, and the CONNACK exchange: the model has the packets of CONNECT and the whole SUBSCRIBE exchange.
- Modbus values given as text or bytes, and the retry loop around the exchange: values are flags and integers, and a socket carries one exchange.
- SMS payload fields other than `segments` and `parts_count`.
- Python's recursion limit counts interpreter frames; the model counts calls of the validator, so overflow depths differ while verdicts do not.
- NaN and rounding of `float`: numbers are integers and reals, and `float(x)`, `int(x)`, `str(x)` and regular-expression search are arbitrary functions in `Schema.Runtime`.
- Mapping keys that are not strings, and the order of one dictionary value changing between uses.
- Building and normalising a protocol spec (`build_protocol_spec`): field checks.
- Symbolic links, junctions, case-insensitive file systems, permissions and concurrent changes of the tree: a tree is a map of files and a set of directories.
- The report files a run writes under `data/logs/operations`, and printing: protected paths that no theorem looks at.
- RestoreMoves.GitRestore: version control brings back one file and the directories above it and nothing else; restoring a path that is a directory in the repository, and replacing a file that stands in the way, are not modelled.
- A quarantine path with parent references: the prefix test of the code is lexical, and model paths have none.
- Descriptive fields of grants (subject, notes, reason, source, timestamps of creation) and evidence in results: no decision reads them.
- A durable approval file edited or corrupted from outside, and file names that collide on a case-insensitive file system.
- Two processes on one durable store: the code itself claims no atomic reservation between processes.
