# A verified model of vaux

vaux is an MQTT 5.0 broker, client and codec written in Rust. This project models its hard parts in Dafny and proves
what they promise. `dafny verify dfyconfig.toml` checks everything.

| file | what it models |
|---|---|
| `Mqtt.dfy` | types shared by the other files |
| `Topics.dfy` | the broker's topic index: an arena of nodes searched with `+` and `#` |
| `VarInt.dfy` | variable byte integers |
| `Codec.dfy`, `Body.dfy`, `Packets.dfy` | the generated codec: one schema per packet, interpreted as size, encoder and decoder; fixed header and framing |
| `Wire.dfy` | the packets byte by byte, without the schemas |
| `Prefixes.dfy`, `Suffixes.dfy` | frames cut short, and readers with more bytes after their input |
| `Streams.dfy`, `Reassembly.dfy` | packets reassembled from socket reads; the stream knows `decode` by a contract only, which the codec then meets |
| `QoSTrace.dfy`, `ClientSession.dfy` | the client's QoS 1 and QoS 2 state, quotas and packet identifiers |
| `ClientLoop.dfy` | the client's `select!` loop under back-pressure |
| `Delivery.dfy`, `Broker.dfy` | the broker's session pool, routing, acknowledgement and redelivery: steps on values, and the classes that refine them |
| `Redelivery.dfy` | redelivery in small steps, interleaved with everything else that touches the session |
| `Copies.dfy` | routed copies against the codec: what a subscriber decodes |
| `Takeover.dfy` | the locks a takeover holds while it waits for the old connection |
| `Will.dfy`, `WillRaces.dfy` | will messages as a protocol of small interleaved steps of connection handlers, and two of its races |

The main results, each over every input or every run:

- After any subscriptions and removals, the index lists each matching subscription exactly once, for a topic without
  wildcard levels. For every other topic there is an index for which it does not (`Topics.ExactIffNoWildcards`).
- A packet comes back from its bytes, whatever follows them, if and only if a condition on the packet holds that a
  caller can check (`Packets.RoundTripIff`). Such packets are reassembled in order from any split of
  their bytes (`Reassembly.Transmit`).
- The encoder writes, and the decoder reads, every packet in a layout given by literal bytes
  (`Wire.FrameIsBytes`, `Wire.BytesAreRead`).
- Every strict prefix of a frame with a body below 2^21 asks for more data if and only if no subscription identifier
  needs five bytes, or the one that does ends the packet (`Prefixes.AsksForMoreIff`).
- In every client run each packet identifier's send history is a prefix of complete QoS exchanges, and the stored
  state lets through exactly the events that keep it so (`ClientSession.ExpectsIffLegal`).
- While it runs, the client loop neither loses nor reorders packets on any consumer channel (`ClientLoop.Client.Run`).
  When it ends, at most the last packet has not reached the consumer.
- In every broker run the pool stays well formed and within its limit, each publish is routed by the subscriptions of
  its moment, and no copy above QoS 0, be it there before or routed during the run, is forgotten before its
  acknowledgement or a clean start, while redelivery writes succeed and fewer than 65,535 further identifiers are
  allocated (`Broker.BrokerState.RunAll`), not even when redelivery is interleaved with routing,
  acknowledgements and the redelivery of another handler (`Redelivery.RetainedInterleaved`).
- Each will is published at most once in every interleaving (`Will.AtMostOnce`). Exactly these can still be published:
  wills a handler holds, wills left to a task that has not given up, and stored wills whose session has a handler that
  will look again (`Will.PublishableIff`).

Where the program stops short of MQTT or of its own comments, the model follows the program:

- `decode_variable_byte_int` refuses the four byte form (vaux-mqtt/src/codec/mod.rs:729); `VarInt.RoundTrip` gives the
  exact bound 2^21.
- `UserProperty::decode` counts four bytes too many for each pair (vaux-mqtt/src/property.rs:181-188). A packet whose
  user properties are all collected is read as it is, but with too great a length (`Packets.UserPropertiesOvercounted`),
  so that the stream discards the start of the next frame (`Reassembly.NextFrameCut`). `Codec.KeptAllIff` says when all
  are collected.
- A PUBACK, PUBREC, PUBREL or PUBCOMP with a reason description but no reason is written without a reason byte and is
  misread (`Packets.DescriptionWithoutReason`). A decoded response carries a default fixed header.
- The generated size counts a subscription identifier from 2^28 up as four bytes, and five are written. The frame then
  announces one byte too few (`Prefixes.ElevenBytesRefused`, `Prefixes.ElevenBytesWait`).
- A topic with a level `+` or `#` makes the search visit one node along two branches.
- End of stream inside a packet makes the read loop spin; the model reports it as `Spinning`.
- The client never decrements its send quota, may use packet identifier 0 (`ClientSession.ZeroIff` says when, `ClientSession.ZeroIsUsed` gives a case) and does
  not check the receive quota for QoS 2.
- A publish downgraded to QoS 0 keeps the publisher's packet identifier (`Broker.BrokerState.RouteOne`). Its
  subscriber takes the identifier for the start of the properties, and decodes the content of the publish only by
  coincidence (`Copies.DowngradedContentIff`): without properties, for the identifier 32,896 alone (`Copies.BareIff`).
- After a takeover the earlier connection's handler still deactivates by session identifier. In the runs of
  `Broker.BrokerState.RunAll` a `ClientLeaves` may therefore come at any time, for any session.
- A redelivery whose write fails loses the entries it has not reached (`Broker.Session.Redeliver`).
- A handler that ends through a failed write does not take the will of its session, which then stays stored and out of
  reach (`Will.FailedWriteStrandsWill`).
- A client that returns before the token of its delayed will is registered does not stop the will
  (`WillRaces.ReopenCancelsIff`), and the close of a taken-over connection publishes the will of the new one
  (`WillRaces.TakesAnothersIff`).
- A takeover holds two locks while it waits for room in the old session's channel, and never ends if the old handler
  waits for one of them and the channel is full (`Takeover.CompletesIff`, `Takeover.StuckReachable`).
- A client without an identifier that is assigned one by the server waits for a lock it holds
  (`ClientSession.Session.HandleConnAck`).
- Topics that begin with `$` get no special treatment.

## Model

| member | source | states |
|---|---|---|
| `Topics.JoinSplit` | vaux-broker/src/topic.rs:50-50 | joining the levels of a filter gives the filter back |
| `Topics.SplitIff` | vaux-broker/src/topic.rs:50-50 | the levels of a filter are the one non-empty sequence of slash-free parts that gives the filter when joined by slashes |
| `Topics.MatchesIff` | vaux-broker/src/topic.rs:107-146 | the match rule level by level: same number of levels, each equal or `+`, and a final `#` for any number of levels |
| `Topics.SplitInjective` | vaux-broker/src/topic.rs:50-50 | two filters with the same levels are the same filter |
| `Topics.MatchSplits` | vaux-broker/src/topic.rs:107-146 | a filter matches below a path exactly if it goes on with `#`, with the next level or with `+`, and these exclude each other for a level that is no wildcard |
| `Topics.CollectSound` | vaux-broker/src/topic.rs:107-146 | from any node, the recursive search appends exactly the subscriptions below that node that match the remaining levels, each once |
| `Topics.SearchExact` | vaux-broker/src/topic.rs:100-105 | from the root, the search lists the flat table filtered by the match relation, each entry exactly once |
| `Topics.CollectAppends` | vaux-broker/src/topic.rs:107-146 | the shared result buffer is only appended to, whatever the topic |
| `Topics.ExactIffNoWildcards` | vaux-broker/src/topic.rs:100-146 | the search is exact for all trees if and only if no level of the topic is `+` or `#` |
| `Topics.ListedTwice` | vaux-broker/src/topic.rs:115-145 | with a wildcard level in the topic, a table of one suitable subscription yields at least two results |
| `Topics.AddChildShape` | vaux-broker/src/topic.rs:148-167 | adding a missing child keeps the arena a tree in which nodes and level sequences correspond one to one, children after parents |
| `Topics.UpsertStores` | vaux-broker/src/topic.rs:52-71 | replacing or appending a subscriber in a node's list is an update of the flat table at one key |
| `Topics.WithoutStores` | vaux-broker/src/topic.rs:74-90 | filtering a node's list is the removal of one key from the flat table |
| `Topics.DistinctCount` | vaux-broker/src/topic.rs:177-179 | a duplicate-free sequence of level sequences has as many members as its set |
| `Topics.TopicTree.EnsurePath` | vaux-broker/src/topic.rs:148-167 | returns the node of the path; existing nodes keep their index; exactly the missing prefixes are added |
| `Topics.TopicTree.FindPath` | vaux-broker/src/topic.rs:169-175 | finds the node of a path if and only if there is one |
| `Topics.TopicTree.Subscribe` | vaux-broker/src/topic.rs:43-72 | the index represents the table with this one entry set; wildcard lists only on `#` nodes, exact lists only elsewhere |
| `Topics.TopicTree.Unsubscribe` | vaux-broker/src/topic.rs:74-90 | the entry is removed, the answer tells whether it was there, no node moves |
| `Topics.TopicTree.UnsubscribeAll` | vaux-broker/src/topic.rs:92-98 | exactly the session's entries are removed |
| `Topics.TopicTree.CollectMatches` | vaux-broker/src/topic.rs:107-146 | the in-place search computes the specification of the search |
| `Topics.TopicTree.MatchingSubscribers` | vaux-broker/src/topic.rs:100-105 | every current subscription that matches, each exactly once, for a topic without wildcard levels |
| `Topics.TopicTree.NodeCount` | vaux-broker/src/topic.rs:177-179 | one node for each distinct prefix of a filter ever subscribed, the empty one included |
| `VarInt.EncodeLoop` | vaux-mqtt/src/codec/mod.rs:738-752 | the loop writes the base-128 digits, continuation bit on all but the last |
| `VarInt.DecodeLoop` | vaux-mqtt/src/codec/mod.rs:704-736 | the loop computes the recursive reader, its two error cases included |
| `VarInt.EncodeForm` | vaux-mqtt/src/codec/mod.rs:738-752 | the encoding is well formed and denotes the value |
| `VarInt.Minimal` | vaux-mqtt/src/codec/mod.rs:738-752 | no byte sequence with the same value is shorter than the encoding |
| `VarInt.EncodeLength` | vaux-mqtt/src/codec/mod.rs:677-684 | the size function is exact below 2^28 and one short above |
| `VarInt.TurnReads` | vaux-mqtt/src/codec/mod.rs:704-736 | every well-formed sequence of at most three bytes is read to its value, any longer one is refused |
| `VarInt.RoundTrip` | vaux-mqtt/src/codec/mod.rs:704-752 | decoding undoes encoding, leaves the suffix and consumes the size, if and only if the value is below 2^21; above it reports a malformed packet |
| `Codec.DecEnc` | vaux-mqtt/src/codec/mod.rs:544-675 | each field value is read back from its bytes with the exact count, whatever follows, if and only if it is not a variable byte integer from 2^21 up, which is refused |
| `Codec.EncSize` | vaux-macro/src/size.rs:283-330 | the size of a field value is what its encoder writes, if and only if it is not a variable byte integer from 2^28 up |
| `Codec.FieldsRoundTrip` | vaux-macro/src/decode.rs:220-319 | a sequence of fields is read back in declaration order with the exact byte count, when presence agrees with the QoS bits |
| `Codec.FieldsSizeExact` | vaux-macro/src/size.rs:8-100 | the accumulated field sizes are the bytes written |
| `Codec.DecodeProperties` | vaux-mqtt/src/publish.rs:291-348 | the property loop, with its fields and counters, computes its recursive specification |
| `Codec.LoopOverEntries` | vaux-mqtt/src/publish.rs:291-348 | reading encoded properties applies them in wire order and advances the counter by their exact length |
| `Codec.LoopOverUser` | vaux-mqtt/src/property.rs:181-188 | the loop over user property pairs collects a known number of them in order, leaves the others unread and overcounts by four for each collected |
| `Codec.KeptAllIff` | vaux-mqtt/src/property.rs:181-188 | all pairs are collected if and only if, at each, the bytes still to come exceed four for each pair before it |
| `Codec.LoopCount` | vaux-mqtt/src/property.rs:181-188 | a finished property loop has counted the bytes it consumed plus four for each user property it collected |
| `Codec.ApplyOrder` | vaux-mqtt/src/publish.rs:291-348 | properties at distinct positions give the same fields in any order |
| `Codec.EntriesRestore` | vaux-macro/src/encode.rs:26-51 | the properties that are written restore all property fields from the defaults |
| `Codec.EntriesSizeExact` | vaux-macro/src/size.rs:102-181 | the property size is the bytes written, if and only if every value is sizable |
| `Codec.UserSizeExact` | vaux-mqtt/src/property.rs:153-179 | the size of the user properties is the bytes written |
| `Codec.EncLengthOrder` | vaux-macro/src/encode.rs:26-51 | reordering properties keeps the length of the block |
| `Body.DecodeItems` | vaux-macro/src/decode.rs:429-515 | the payload loop computes its recursive specification |
| `Body.ItemsRoundTrip` | vaux-macro/src/decode.rs:429-515 | a list payload is read back item by item to the end of the body |
| `Body.PayloadRoundTrip` | vaux-mqtt/src/codec/mod.rs:777-820 | every payload is read back, an absent one as an empty one, and its size is exact |
| `Body.SizeExact` | vaux-macro/src/lib.rs:295-337 | property block and body have exactly the generated sizes, user properties included, if and only if no variable byte integer property reaches 2^28; otherwise they are one byte longer |
| `Body.BodyRoundTrip` | vaux-macro/src/decode.rs:198-215 | a restorable body is read back with the exact length, in full and in abbreviated form |
| `Body.ReadsBackIff` | vaux-macro/src/decode.rs:198-215 | for every schema, a body is read back if and only if presence agrees with the QoS, the reason is given or the form abbreviated, there are no user properties and no property value reaches 2^21 |
| `Body.RestWithUser` | vaux-mqtt/src/property.rs:181-188 | with readable properties, the reader gets them and the collected user properties, and the bytes of the others become payload |
| `Body.ReasonMisread` | vaux-macro/src/decode.rs:198-215 | without the reason byte the property length is read in its place: whatever comes out is not Success |
| `Body.HeadKept` | vaux-mqtt/src/publish.rs:279-290 | a packet identifier at QoS 0, or none above it, is not read back |
| `Body.PropertyOrder` | vaux-mqtt/src/publish.rs:291-348 | any permutation of distinct properties gives the same packet and byte count, and the loop stops exactly at the property length |
| `Body.BodyCount` | vaux-mqtt/src/property.rs:181-188 | any body with a payload that is read reports its length plus four for each user property |
| `Packets.FirstByteRead` | vaux-mqtt/src/codec/fixed.rs:80-137 | packet type and flags are recovered from the first byte |
| `Packets.DecodePacket` | vaux-mqtt/src/codec/mod.rs:434-541 | the framing loop and dispatch compute the specification of `decode` |
| `Packets.FrameSize` | vaux-macro/src/encode.rs:177-191 | a frame is one byte, the remaining length and the body, for sizes up to 268,435,455; the body has the generated size if and only if no variable byte integer property reaches 2^28 |
| `Packets.DecodeFrame` | vaux-mqtt/src/codec/mod.rs:434-455 | for any header: a remaining length from 2^21 up is refused, a short body is insufficient data, otherwise exactly that many bytes go to the packet's decoder |
| `Packets.PrefixInsufficient` | vaux-mqtt/src/codec/mod.rs:434-455 | anything non-empty and shorter than the announced length is reported as insufficient data, for a body below 2^21 |
| `Prefixes.AsksForMoreIff` | vaux-mqtt/src/codec/mod.rs:434-455 | for packets whose identifier agrees with their QoS: every strict non-empty prefix of the frame asks for more if and only if no integer needs five bytes or the one that does ends the packet |
| `Prefixes.AsksForMoreShifted` | vaux-mqtt/src/publish.rs:279-348 | for the others: if and only if no integer needs five bytes or the reader runs out in the bytes that it takes for the properties |
| `Prefixes.SmallIdentifierDecodes` | vaux-mqtt/src/publish.rs:279-348 | there an identifier below 256 at QoS 0 makes the cut frame pass for a packet, also when the integer ends it |
| `Prefixes.CutBody` | vaux-macro/src/size.rs:283-330 | a body one byte short after an integer of five bytes asks for more if the integer ends it, and is refused otherwise |
| `Prefixes.WaitsForever` | vaux-mqtt/src/codec/mod.rs:434-455 | if the integer ends the packet, the whole frame asks for more too, whatever follows it |
| `Prefixes.ElevenBytesRefused` | vaux-mqtt/src/publish.rs:81-81 | a frame of twelve bytes whose first eleven are refused as malformed |
| `Prefixes.ElevenBytesWait` | vaux-mqtt/src/publish.rs:81-81 | the same packet without payload, for which the reader asks for more for ever |
| `Suffixes.LoopSuffix` | vaux-mqtt/src/publish.rs:291-348 | the property loop does the same with more bytes after its input, and needs none of them if it leaves them all |
| `Packets.RoundTrip` | vaux-mqtt/src/codec/mod.rs:434-541 | `decode(encode(p) ++ rest)` is p with length exactly `encode(p)` |
| `Packets.RoundTripIff` | vaux-mqtt/src/codec/mod.rs:434-541 | a packet of any of the modelled types is read back if and only if its body is below 2^21 and the body condition holds |
| `Packets.PublishCondition` | vaux-mqtt/src/publish.rs:279-356 | for PUBLISH the condition is: body below 2^21, packet identifier if and only if QoS above 0, no user properties, subscription identifier below 2^21 |
| `Packets.PubRespCondition` | vaux-mqtt/src/pubresp.rs:20-60 | for the four responses the condition is: body below 2^21, no user properties, and a reason whenever there is a description |
| `Packets.DescriptionWithoutReason` | vaux-mqtt/src/pubresp.rs:20-60 | a concrete PUBACK that is not read back |
| `Packets.UserPropertiesOvercounted` | vaux-mqtt/src/property.rs:181-188 | a packet whose user properties are all collected is read back with them, with a length four too great for each |
| `Packets.UserPropertyOvercounted` | vaux-mqtt/src/property.rs:181-188 | a concrete PUBLISH of ten bytes with one user property is read as it is, with length fourteen |
| `Wire.VariableForm` | vaux-mqtt/src/codec/mod.rs:738-752 | the one to four bytes of a variable byte integer, digit by digit |
| `Wire.BlockIs` | vaux-macro/src/encode.rs:26-51 | the property block of every packet type: literal identifiers, order and integer forms, and its size |
| `Wire.LayoutIs` | vaux-macro/src/encode.rs:177-191 | the body of every packet type, in full and in short form |
| `Wire.FrameIsBytes` | vaux-mqtt/src/codec/fixed.rs:80-86 | the encoder writes the literal first byte, remaining length and body, for sizes up to 268,435,455 |
| `Wire.BytesAreRead` | vaux-mqtt/src/codec/mod.rs:434-541 | the decoder reads that layout for every packet that satisfies the round trip condition, whatever follows it |
| `Wire.OneFilter` | vaux-mqtt/src/subscribe.rs:80-84 | the body of a SUBSCRIBE with one filter: identifier, no properties, filter, options |
| `Wire.FirstByteAccepted` | vaux-mqtt/src/codec/fixed.rs:88-137 | the first bytes whose flags are accepted |
| `Wire.FirstByteRefused` | vaux-mqtt/src/codec/fixed.rs:88-137 | any other first byte is refused as malformed |
| `Wire.ReasonCodes` | vaux-mqtt/src/codec/mod.rs:156-208 | the 43 reason codes |
| `Wire.PropertyIds` | vaux-mqtt/src/property.rs:110-148 | the 27 property identifiers |
| `Wire.PropertyRefused` | vaux-mqtt/src/publish.rs:291-348 | a property that a packet type does not have is refused, as malformed or as not supported |
| `Wire.CutField` | vaux-mqtt/src/codec/mod.rs:544-675 | what each field type answers to its bytes cut short |
| `Streams.NextFrame` | vaux-async/src/stream/packet.rs:97-136 | with the contract of `decode`, the buffer either holds the next whole frame, which is decoded, or a strict prefix of it that fits the limit |
| `Streams.PacketStream.Fill` | vaux-async/src/stream/packet.rs:137-156 | a socket read appends to the buffer, which grows when full; received bytes stay frames returned followed by the buffer |
| `Streams.PacketStream.Take` | vaux-async/src/stream/packet.rs:110-118 | after a packet, the leftover bytes move to the front |
| `Streams.PacketStream.Read` | vaux-async/src/stream/packet.rs:90-166 | packets come out in order and no fitting frame is refused; a whole frame that waits is returned without a look at the socket, otherwise events are taken until a frame is complete or one is no successful read, which fixes the answer; nothing is read after the frame is complete |
| `Streams.PacketStream.ReadAll` | vaux-async/src/stream/packet.rs:90-166 | however the bytes are split into non-empty reads, successive reads return exactly the packets sent |
| `Reassembly.CodecContract` | vaux-mqtt/src/codec/mod.rs:434-541 | the codec meets the contract of the stream for every restorable packet |
| `Reassembly.Transmit` | vaux-async/src/stream/packet.rs:90-166 | end to end: the bytes of any restorable packets, split in any way, are read back as those packets in order |
| `Reassembly.NextFrameCut` | vaux-async/src/stream/packet.rs:110-118 | after such a packet, four bytes of what follows are discarded for each user property |
| `QoSTrace.LegalIffPrefix` | vaux-client/src/session.rs:52-67 | the automaton of the stored states accepts exactly the prefixes of (PUBLISH1 PUBACK or PUBLISH2 PUBREC PUBREL PUBCOMP)* |
| `QoSTrace.RunExchanges` | vaux-client/src/session.rs:52-67 | a history after which nothing is in flight is a sequence of complete exchanges |
| `ClientSession.StepRefines` | vaux-client/src/session.rs:283-554 | an event the automaton allows, applied to the map at its identifier, keeps history and map in agreement |
| `ClientSession.TraceRefinement` | vaux-client/src/session.rs:283-554 | in every reachable state each identifier's accepted events are a prefix of complete exchanges |
| `ClientSession.ExpectsIffLegal` | vaux-client/src/session.rs:379-546 | the pending map lets an event through if and only if it continues the identifier's history legally |
| `ClientSession.FreeIdExists` | vaux-client/src/session.rs:288-295 | pigeonhole: with at most 65,535 sends pending, one of the 65,536 identifiers is free |
| `ClientSession.ZeroIff` | vaux-client/src/session.rs:306-315 | the search yields the reserved identifier 0 if and only if it is free and everything above the last identifier is in flight |
| `ClientSession.ZeroIsUsed` | vaux-client/src/session.rs:306-315 | with nothing in flight and 65,535 used last, the search yields 0 |
| `ClientSession.Session.FindPacketId` | vaux-client/src/session.rs:306-315 | the wrapping search terminates with the first free identifier after the last one |
| `ClientSession.Session.WriteNext` | vaux-client/src/session.rs:283-357 | exactly when a publish is refused, without effect; otherwise it is put in flight under a free identifier, kept even if the write fails, and the answer is that of the write |
| `ClientSession.Session.HandlePacket` | vaux-client/src/session.rs:359-554 | out-of-order control packets are errors that change nothing; packets in order advance one exchange; the receive quota plus pending receives is conserved if and only if the peer does not reuse an identifier in flight or exceed the maximum |
| `ClientSession.Session.Release` | vaux-client/src/session.rs:402-456 | PUBREC in order: PUBREL is due, and after its write PUBCOMP; a failed write leaves it due |
| `ClientSession.Session.Complete` | vaux-client/src/session.rs:477-519 | PUBREL in order: the receive ends when the PUBCOMP is written, otherwise nothing changes |
| `ClientSession.Session.HandleRecvPublish` | vaux-client/src/session.rs:604-703 | the acknowledgement each QoS causes, the pending receive it leaves and the quota, for success and failure of the send |
| `ClientSession.Session.HandleConnAck` | vaux-client/src/session.rs:556-602 | a refusal is an error; without a client identifier the connect fails or, if one is assigned, never returns; otherwise receive maximum, keep-alive and session expiry replace the session's settings where given, and nothing changes on an error |
| `ClientLoop.SentIsMeant` | vaux-client/src/client.rs:400-404 | what a channel was sent is, in order, what is routed to it |
| `ClientLoop.OrderedOnEveryChannel` | vaux-client/src/client.rs:363-466 | order over all channels with one parked packet gives, for each channel, sent followed by parked equal to what was meant for it |
| `ClientLoop.Client.ReadOne` | vaux-client/src/client.rs:394-437 | which of the three happens: the packet is handed over, parked or ends the loop, by the session's and the channel's answer |
| `ClientLoop.Client.ForwardOne` | vaux-client/src/client.rs:377-393 | the parked packet leaves the slot only when its channel takes it; a cancelled attempt changes nothing |
| `ClientLoop.Client.Turn` | vaux-client/src/client.rs:364-466 | each branch has its answer, commands and pings reach the wire, every packet is accounted for; the socket is not read while a packet is parked; if the loop ends, at most the last packet is undelivered |
| `ClientLoop.Client.Run` | vaux-client/src/client.rs:363-466 | any interleaving: on each channel, packets sent then the parked one are exactly the packets read for it, in order; no command is passed over; the QoS histories stay legal |
| `ClientLoop.RouteIff` | vaux-client/src/client.rs:400-404 | a type with a registered channel goes to that channel alone, any other to the common one |
| `ClientLoop.KindIff` | vaux-mqtt/src/codec/mod.rs:360-381 | packets have the same kind if and only if they are of the same type |
| `Delivery.IdSucc` | vaux-broker/src/session.rs:277-284 | the sixteen bit increment that skips zero steps through ((k-1) mod 65535) + 1 |
| `Delivery.SameIdIff` | vaux-broker/src/session.rs:277-284 | two allocations share an identifier if and only if a multiple of 65,535 lies between them |
| `Delivery.ConsecutiveDistinct` | vaux-broker/src/session.rs:277-284 | any 65,535 consecutive identifiers are distinct |
| `Delivery.LowerIsMinimum` | vaux-broker/src/lib.rs:668-669 | the granted QoS is the minimum of the two |
| `Delivery.ConnectIs` | vaux-broker/src/lib.rs:522-583 | turned away at the limit, else an empty session on clean start or first connect, and the old one otherwise |
| `Delivery.CleanStartForgets` | vaux-broker/src/lib.rs:536-549 | after an accepted clean start nothing of the old session is kept |
| `Delivery.EntriesAfter` | vaux-broker/src/session.rs:286-300 | leaving, acknowledging and redelivering, entry by entry |
| `Delivery.StepElsewhere` | vaux-broker/src/lib.rs:522-583 | the steps of one session leave the others alone |
| `Delivery.RunOk` | vaux-broker/src/lib.rs:658-700 | in every run, what waits for an acknowledgement is above QoS 0 and stored under the identifier it carries |
| `Delivery.CapacityKept` | vaux-broker/src/lib.rs:522-534 | in every run, active sessions stay within the configured maximum |
| `Delivery.RoutedTracks` | vaux-broker/src/lib.rs:658-700 | routing gives an active session exactly what it is owed, in order, and leaves other sessions alone |
| `Delivery.RoutedKeeps` | vaux-broker/src/lib.rs:671-678 | each copy owed is remembered under its own identifier |
| `Delivery.Retained` | vaux-broker/src/session.rs:277-300 | at least once: without a releasing step and with fewer than 65,535 later allocations, the publish stays under its identifier, at most marked as a duplicate |
| `Delivery.RunSplit` | vaux-broker/src/lib.rs:204-306 | a run is a run followed by another from where it ended |
| `Delivery.RoutedRetained` | vaux-broker/src/lib.rs:658-700 | at least once from the routing on: every copy that any step of a run owes an active session is there when the run ends, unless a later step releases it or 65,535 more identifiers are issued |
| `Delivery.OverwrittenIff` | vaux-broker/src/session.rs:277-288 | a later allocation takes the identifier over if and only if it is the 65,535th |
| `Delivery.OwedCount` | vaux-broker/src/lib.rs:658-700 | the copies owed for the index's answer are one for each table entry that is owed one |
| `Delivery.OwedForKey` | vaux-broker/src/lib.rs:664-698 | every table entry that is owed a copy gets one, at the lower of the two QoS levels |
| `Broker.Session.NextPacketId` | vaux-broker/src/session.rs:277-284 | the k-th call returns ((k-1) mod 65535) + 1 |
| `Broker.Session.Redeliver` | vaux-broker/src/lib.rs:260-274 | in any drain order, every waiting publish is put back with DUP set and written once; if a write fails, exactly those not reached are lost |
| `Broker.SessionPool.Add` | vaux-broker/src/session.rs:76-91 | the session is filed by its connected flag under its own identifier; the pool stays well formed if and only if the identifier was not in it |
| `Broker.SessionPool.Remove` | vaux-broker/src/session.rs:96-106 | the session leaves the map that holds it, without underflow of the counters |
| `Broker.SessionPool.RemoveActive` | vaux-broker/src/session.rs:120-127 | only an active session is removed |
| `Broker.SessionPool.Activate` | vaux-broker/src/session.rs:136-150 | an inactive session becomes active with its waiting publishes kept; the maps stay disjoint and counted |
| `Broker.SessionPool.Deactivate` | vaux-broker/src/session.rs:159-174 | an active session becomes inactive with its waiting publishes kept; the maps stay disjoint and counted |
| `Broker.SessionPool.ActiveCount` | vaux-broker/src/session.rs:57-70 | the counter is the number of connected sessions |
| `Broker.BrokerState.HandleConnect` | vaux-broker/src/lib.rs:522-583 | turned away if and only if a new active session would pass the limit, with the pool unchanged; a clean start or first connect gives an empty session, any other connect the old one with its waiting publishes |
| `Broker.BrokerState.RouteOne` | vaux-broker/src/lib.rs:664-698 | a copy at the lower QoS is offered exactly to active sessions, not to the publisher under No Local; above QoS 0 what is offered is what is remembered, at QoS 0 the publisher's identifier is kept |
| `Broker.BrokerState.RoutePublish` | vaux-broker/src/lib.rs:658-700 | from index to sessions: every matching subscription of an active session is offered a copy at the lower QoS, and each active session allocates one identifier for each of its matching subscriptions that is owed a copy above QoS 0 |
| `Broker.RunRetains` | vaux-broker/src/lib.rs:260-274 | retention over a whole script, for publishes waiting before it |
| `Broker.RunRetainsRouted` | vaux-broker/src/lib.rs:658-700 | retention over a whole script, for every copy that one of its publishes is owed |
| `Broker.CopyForSubscription` | vaux-broker/src/lib.rs:658-700 | at any publish of a script, each subscription of that moment that matches, belongs to an active session and is granted a QoS above 0 is owed such a copy |
| `Broker.BrokerState.RunAll` | vaux-broker/src/lib.rs:204-306 | in any run of connects, takeovers, departures, subscriptions, publishes, acknowledgements and redeliveries the pool stays well formed and within its limit, publishes are routed by the subscriptions of their moment, and copies are retained, whether waiting before the run or routed in it |
| `Redelivery.StepWaits` | vaux-broker/src/lib.rs:260-274 | each small step moves a waiting publish between the session and one handler's hands, and loses it if and only if it releases it |
| `Redelivery.RetainedInterleaved` | vaux-broker/src/lib.rs:260-274 | in every interleaving of draining, putting back, routing, acknowledging and failing handlers, a publish stays in exactly one place under its identifier until it is released or 65,535 more identifiers are issued |
| `Redelivery.TrackWaitsIff` | vaux-broker/src/lib.rs:675-678 | a newly routed publish has its identifier to itself if and only if no handler holds an older publish under it |
| `Redelivery.UninterruptedIsOneStep` | vaux-broker/src/lib.rs:260-274 | draining and putting back in any order without interruption is the one-step redelivery: nothing is lost if all is put back, and exactly the rest if a write fails |
| `Copies.CopyReadBackIff` | vaux-broker/src/lib.rs:672-689 | a subscriber gets its copy back, identifier included, if and only if the copy is above QoS 0 or the publisher gave no identifier, and the conditions on every PUBLISH hold |
| `Copies.DecodedHasId` | vaux-mqtt/src/publish.rs:279-290 | a PUBLISH above QoS 0 that was read carries a packet identifier |
| `Copies.ContentReadIff` | vaux-mqtt/src/publish.rs:279-348 | topic, properties, payload and length of a QoS 0 copy with an identifier are decoded if and only if identifier, property length and properties, read as property length and properties, give the same properties and end where the payload begins |
| `Copies.DowngradedContentIff` | vaux-broker/src/lib.rs:672-689 | a publish read above QoS 0 and routed to a QoS 0 subscription loses its identifier, and its content is decoded only under that condition |
| `Copies.BareIff` | vaux-mqtt/src/publish.rs:279-348 | for a copy without properties the condition is that the identifier is 32,896 |
| `Copies.Coincidence` | vaux-mqtt/src/publish.rs:291-348 | the condition holds for subscription identifier 7 and packet identifier 0x040b, with any payload |
| `Takeover.StuckForever` | vaux-broker/src/lib.rs:599-608 | channel full, connect waiting for room and old handler waiting for a lock: nothing moves again |
| `Takeover.CompletesIff` | vaux-broker/src/lib.rs:536-583 | a takeover that has begun can end if and only if it is not in that state |
| `Takeover.StuckReachable` | vaux-broker/src/lib.rs:599-608 | a run into that state, for channels of any size |
| `Takeover.StuckPossibleIff` | vaux-broker/src/lib.rs:599-608 | before the connect begins, such a run exists if and only if the old handler has not ended |
| `Will.StepPlaces` | vaux-broker/src/lib.rs:610-637 | each step moves a will from one place to another: stored, taken, left to a task, published, cleared or dropped |
| `Will.AtMostOnce` | vaux-broker/src/lib.rs:610-637 | in every interleaving no will is published twice, and each is in exactly one place |
| `Will.TakenIsPublished` | vaux-broker/src/lib.rs:610-637 | keep-alive expiry, DISCONNECT and close publish the stored will at once or by a task with a registered token, and the handler goes on unless the socket is closed |
| `Will.PublishedBy` | vaux-broker/src/lib.rs:616-636 | a will with a delay goes out by its task alone, one without by a handler that took it |
| `Will.ClearedNeverPublished` | vaux-broker/src/lib.rs:366-372 | a will that a normal DISCONNECT finds stored is never published afterwards |
| `Will.PublishableIff` | vaux-broker/src/lib.rs:204-306 | a will can be published in some continuation if and only if it has been, a handler holds it, a task has it and has not given up, or it is stored and its session has a handler that will look again |
| `Will.FailedWriteStrandsWill` | vaux-broker/src/lib.rs:281-281 | after a failed write of the only handler the will is stored, neither cleared nor replaced, and can never be published |
| `WillRaces.ReopenCancelsIff` | vaux-broker/src/lib.rs:622-635 | a connect to a session cancels a waiting delayed will if and only if the will was brought to that session and its token is registered |
| `WillRaces.PublishedAfterReturn` | vaux-broker/src/lib.rs:622-635 | a run in which the client is back before the registration, its will is not cancelled and goes out |
| `WillRaces.TakesAnothersIff` | vaux-broker/src/lib.rs:559-569 | a handler finds the will of another connection in its session if and only if there has been a later connect to it |
| `WillRaces.TakeoverPublishesNewWill` | vaux-broker/src/lib.rs:284-291 | a run in which the close of the old connection publishes the new connection's will, whose handler is there |

## Left out

- Sockets, TLS, DNS, timers and the accept loop: reads, write successes and timer expiries are inputs of the model.
- CONNECT, CONNACK and will header codecs: further schemas with many fields and flag bits, nothing harder than the ones here. The derived decoding of a byte vector property adds to the wrong counter (vaux-macro/src/decode.rs:456-459), which only these use.
- UTF-8 validity of strings, which are byte sequences of at most 65,535 bytes in the codec.
- `read_raw` and the branch of the stream that returns the packet's bytes.
- A maximum buffer size below the initial one.
- User properties are a list of pairs in wire order, not the map of lists the program groups them into.
- Topics.TopicTree.Subscribe: node indices are unbounded, so the truncation of an index to 32 bits after 2^32 nodes is not modelled.
- Streams.PacketStream.Read: the caller gives the contract of `decode` for the packets sent; bytes that are no packets are covered by the outcome of `decode` alone.
- The client without automatic acknowledgement: pending entries and quotas are not maintained there.
- ClientSession.Session.HandlePacket: the conservation of the receive quota is stated for a quota below 2^64 - 1, which every run without misuse by the peer keeps.
- Session counters are unbounded, so their overflow after 2^32 sessions is not modelled.
- Session objects that a clean start has detached from the pool: their handlers can change them, but not the pool's sessions.
- Broker.BrokerState.RunAll: redelivery is one step there; its interleaving is the subject of `Redelivery.dfy`, for one session.
- The bounded control channel of a session: what routing offers is modelled, not whether the channel has room for it.
- The broker's session expiry and keep-alive intervals, and the content of the CONNACK it sends.
- The will model lets a connect reopen any session, also one that a clean start has detached; the results hold for the larger set of runs.
