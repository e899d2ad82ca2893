# PicoBroker in Dafny

PicoBroker is an MQTT 3.1.1 broker for small devices: clients' packets enter bounded
receive queues, one call drains all of them, matches publications against a bounded
topic index, and appends replies to bounded transmit queues. Packets travel in a
hand-written binary format. This project models that core and proves what it promises.

`dafny verify dfyconfig.toml` checks everything.

## How the model is built

| files | what they hold |
|---|---|
| `Basics`, `Utf8`, `Packets` | bytes, options, sequence facts; UTF-8; packets, capacities, errors |
| `Heapless`, `HeaplessStrings` | the fixed-capacity containers, as classes over arrays |
| `TopicFilter` | the level iterator, the matching loop, the rule of section 4.7.1 |
| `TopicIndex`, `TopicRegistry` | the topic index as a value, and the class that updates it |
| `SessionModel`, `SessionRegistry` | sessions as values, and the class with the optional slots |
| `BrokerModel`, `BrokerInvariant`, `PacketEffects`, `OperationEffects` | the broker as a pure state machine, its laws, and the exact effect of each packet and operation |
| `Broker` | the class that mutates both registries, proved equal to the state machine |
| `Runs`, `MessageOrder`, `QueueHistory`, `Deliveries` | any sequence of public operations: invariant, order, conservation, delivery exactly once |
| `Subscriptions`, `SubscriptionHistory`, `Crowding` | over the same runs: where subscriptions come from and how long they last, from SUBSCRIBE to delivery, and exactly which capacities lose none |
| `RemainingLength`, `WireFormat`, `RoundTrip` | the wire format and its round trips |
| `WireLiterals`, `Rejections` | the format byte by byte, and the error for every defect |
| `Encoders`, `Decoders`, `Framing` | buffer-writing encoders, offset-walking decoders, stream framing |

The registries hold the contents of their `HeaplessVec`s as sequences; that the vectors
behave like bounded sequences is proved in `Heapless`. Received packets carry the number
under which the broker accepted them, packets to be sent carry their cause. This
bookkeeping is ghost in the classes, and no decision depends on it.

Capacities are parameters. A `HeaplessString` capacity is at most 255 and a `HeaplessVec`
capacity at most 65535, since their lengths are a `u8` and a `u16`
(`FaithfulIffCapacityFits` shows that the first bound is sharp); the classes require
these bounds, the laws of the pure state machine hold without them. Clocks are
parameters, the socket is the list of non-empty pieces it will deliver, and each call
under the broker lock is one step. Encoders and decoders take every buffer and every
slice. Where the code panics the model returns `OutOfBounds` (an index past the end) or
`Overflow` (a subtraction below zero, in builds with overflow checks), which are no error
values of the library. Whether a build has overflow checks is a parameter; they are on by
default and off in release builds.

## Where the code does not do what one would expect

Each of these is stated as the exact condition under which the expectation holds.

- A stored string is shown through `as_str`, which is empty for bytes that are not UTF-8,
  but most encoders size it with its stored length. What is written is the packet's frame
  if and only if every string field is UTF-8 (`WireIsFrameIff`), and has the length that
  it announces if and only if every one but the will topic is (`WireIsFramedIff`). A
  topic [0xC3] is written as four bytes that announce five (`CutTopicIsMisframed`). Such
  strings arise exactly when `write_str` cuts inside a character (`WriteStr`); decoded
  packets have none (`FrameReverse`, `WellFormedWire`).
- Topics and filters are matched as what they show, too. Section 4.7.1 then holds of the
  strings that the clients sent if all packets were decoded (`DecodedFanOut`), and of
  what they show in any case (`ReachableFanOut`).
- `topic_matches` agrees with section 4.7.1 for every filter if and only if the topic is
  not empty and has no level that is a bare `#` (`AgreesIffPublishable`). The lookahead
  behind a non-final `#` swallows a level, so topic `a/#/c` is matched by `a/#/b/c`.
- `get_subscribers` ignores subscribers that do not fit its list. No run loses one if and
  only if the list has room for all sessions, or there is room for at most one filter (one
  topic, or topics without a byte), or nobody can be subscribed at all (`NeverDropsIff`). Likewise for subscriptions refused for a
  full list (`NeverRefusedIff`).
- `read_packet` parses the Remaining Length as soon as two bytes are buffered. A list of
  frames is read back if and only if no boundary of a piece, or of the bytes already
  buffered, lies within a length field behind its first byte; otherwise reading ends in
  front of the first such frame with an incomplete packet (`ReadListExact`). Frames with
  a body under 128 bytes are safe (`ShortFramesAreSafe`).
- `validate_remaining_length` subtracts the size of a length from the size of the packet.
  In a build with overflow checks this panics on every PINGREQ, PINGRESP or DISCONNECT
  with a body of 128 bytes or more, and on every PUBACK, PUBREC, PUBREL, PUBCOMP, UNSUBACK
  or CONNACK with one of 2097152 bytes or more, which any client can send
  (`FramedPanicsIff`, `TooLongIff`, `ReadOnePanicsIff`); the shortest is `C0 80 01` with
  128 bytes behind it (`LongPingPanics`). Other builds reject these packets.
- `PublishPacket::decode` panics on exactly the slices whose topic or identifier reaches
  beyond the announced length while that lies within the slice (`DecodePanicsIff`); the
  server passes none of these (`ReadOnePanicsIff`). `ConnectPacket::encode` panics on
  buffers that end within ten bytes behind the header but after the protocol name, and on
  an empty one (`EncodeConnect`).
- `encode_frame`'s buffer has no room for a packet identifier, so some well-formed
  PUBLISH never fits, whatever the capacities (`SomePublishDoesNotFit`, `PublishFits`).
- Re-encoding a decoded frame gives the same bytes if and only if its length was minimal
  and its flag bits are those of its kind: the decoders accept other flags, and the
  packets of fixed size are read at fixed places even behind a longer length
  (`FrameReverse`).
- The two readers of the Remaining Length accept the same inputs, but give different
  reasons for rejecting four bytes that all announce another one (`ReadersAgree`).
- A SUBSCRIBE whose SUBACK does not fit is reported as failed, yet the subscription
  stays (`SubscribeExact`); a PUBLISH that fails has reached the subscribers before the
  first full queue (`PublishExact`).

## Model

| member | source | states |
|---|---|---|
| `MessageOrder.MessagesInOrder` | src/broker.rs:111-209 | over every run, the PUBLISH copies from one publisher that a client ever got or is about to get stem from strictly increasing accepted packets and equal the packets the publisher sent: no reordering, duplication or corruption |
| `Deliveries.PublishedExactlyOnce` | src/broker.rs:129-209 | in every reachable state, of each PUBLISH that draining handles without error (all waiting ones if the call succeeds), each session that matches when its turn comes has exactly one copy among what it got or is about to get, and no other session has one |
| `Deliveries.CopyIsGained` | src/broker.rs:187-209 | a PUBLISH handled without error is queued for exactly its subscribers |
| `Deliveries.PublishedByRule` | src/broker.rs:187-209 | with room for all sessions and a publishable topic, a handled PUBLISH reaches, in exactly one copy, the sessions that have a filter matching by section 4.7.1 when its turn comes, and no other |
| `SubscriptionHistory.DeliveredIffAskedFor` | src/broker.rs:129-228 | from request to delivery: such a PUBLISH reaches a session, once, iff it exists and, since its registration and before the PUBLISH, a SUBSCRIBE of it with a matching filter was handled and not refused |
| `SubscriptionHistory.DecodedDelivery` | src/broker.rs:129-228 | the same for decoded packets, topic and filters compared as the clients sent them |
| `MessageOrder.HandleGain` | src/broker.rs:166-237 | handling one packet appends to each transmit queue only replies caused by it, at most one of them a PUBLISH copy, and touches no receive queue |
| `QueueHistory.LogIsEverythingQueued` | src/session.rs:87-111 | over any run that does not end a session, what was handed to its client followed by what waits is what it was before plus everything queued for it since, in order, whatever other sessions do |
| `QueueHistory.ProcessGain` | src/broker.rs:129-164 | draining appends to each transmit queue exactly what the handled packets emit for it |
| `BrokerInvariant.ProcessExact` | src/broker.rs:129-164 | draining handles all received packets in registry order; after an error at packet k exactly the first k + 1 are gone and the rest wait in order; the invariant survives and only a capacity is to blame |
| `BrokerInvariant.HandleKeepsInv` | src/broker.rs:134-158 | handling any packet keeps unique ids, queue bounds, distinct filters, duplicate-free subscriber lists and live subscribers, on success and on failure |
| `BrokerInvariant.HandleKeepsInvIff` | src/broker.rs:134-158 | for any session id, registered or not, handling a packet keeps the invariant iff the session exists or the packet leaves no subscription behind |
| `Runs.EveryRunKeepsInv` | src/broker.rs:77-237 | the invariant holds after every sequence of public operations |
| `Runs.ReachableProcessing` | src/broker.rs:129-164 | in every reachable state draining can fail only with a full queue, a full topic index or a full subscriber list, never with a missing session; the last is impossible if a topic has room for all sessions |
| `Runs.ReachableFanOut` | src/topics.rs:148-168 | in every reachable state, with room for all sessions per topic, a publication goes to exactly the sessions with a filter that matches by section 4.7.1, each once, topic and filters taken as what `as_str` shows of them |
| `Subscriptions.EverySubscriptionWasAskedFor` | src/broker.rs:211-228 | in every reachable state, each subscription belongs to an existing session that asked for that filter in an accepted SUBSCRIBE |
| `SubscriptionHistory.SubscribedIff` | src/broker.rs:77-94 | in every reachable state, a session is subscribed to a filter iff it exists and, since its last registration, a SUBSCRIBE of it for that filter was handled and not refused |
| `Subscriptions.DecodedFanOut` | src/topics.rs:148-168 | if all packets came from the decoder, a publication goes to exactly the sessions with a filter that matches by section 4.7.1, as sent |
| `Crowding.NeverDropsIff` | src/topics.rs:148-168 | over all runs with packets that fit: none loses a matching subscriber to the ignored push failure iff the list has room for all sessions, or there is at most one topic, or topics hold no byte, or nothing can be subscribed at all |
| `Crowding.NeverRefusedIff` | src/topics.rs:72-83 | over all runs with packets that fit: none meets the per-topic limit iff the list has room for all sessions or nothing can be subscribed to or received at all |
| `BrokerInvariant.NoSubscriberDropped` | src/topics.rs:148-168 | pigeonhole across both registries: the ignored push failure never drops a matching subscriber |
| `BrokerInvariant.SubscribeNeverCrowded` | src/topics.rs:72-83 | with room for all sessions, or with no topics, a live session never meets the per-topic limit |
| `BrokerInvariant.ProcessNeverCrowded` | src/broker.rs:129-164 | nor does draining |
| `PacketEffects.PublishExact` | src/broker.rs:187-209 | a PUBLISH succeeds iff every matched subscriber has room and the publisher has room for a due PUBACK after its own copy; exact new queues on success and on failure; nothing else changes |
| `PacketEffects.ConnectExact` | src/broker.rs:166-185 | exact new state after CONNECT, including when the CONNACK does not fit |
| `PacketEffects.SubscribeExact` | src/broker.rs:211-228 | exact new relation and queues after SUBSCRIBE on each of its three outcomes |
| `PacketEffects.StrangerExact` | src/broker.rs:134-237 | CONNECT, PINGREQ and DISCONNECT of an unknown session give SessionNotFound and change nothing; its SUBSCRIBE is recorded unless refused, and fails in any case |
| `OperationEffects.RegisterExact` | src/session.rs:234-257 | registration fails when the registry is full, else when the id is taken; a new session comes last with the given keep-alive, heard from now, in state Connecting, without client id and with empty queues |
| `OperationEffects.RegisteredSurvives` | src/session.rs:62-72 | a session registered at some moment survives a cleanup pass at that moment |
| `OperationEffects.ReceiveExact` | src/broker.rs:111-120 | a packet of a known session is accepted iff its receive queue has room, and then comes last in it; in any case the session was heard from; nothing else changes |
| `OperationEffects.ReceiveUnknown` | src/broker.rs:111-120 | an unknown id gives SessionNotFound and changes nothing |
| `OperationEffects.MarkDisconnectedExact` | src/broker.rs:87-89 | only this session's state changes, to Disconnected |
| `OperationEffects.MarkUnknown` | src/broker.rs:87-89 | an unknown id gives SessionNotFound and changes nothing |
| `OperationEffects.SendExact` | src/broker.rs:122-127 | handing over takes the oldest waiting packet of this session and nothing else |
| `OperationEffects.RemoveExact` | src/broker.rs:91-94 | this session leaves the registry, its pairs leave the relation, nothing else changes |
| `BrokerModel.DeliverExact` | src/session.rs:330-345 | queueing a list of messages stops at exactly the first without room, counting those queued before it; every session gains the messages before that one addressed to it, in order |
| `Brokers.PicoBroker.ProcessAllSessionPackets` | src/broker.rs:129-164 | the nested loops compute the fold of the pure step over all receive queues and keep the invariant |
| `Brokers.PicoBroker.DrainSession` | src/broker.rs:133-160 | the inner loop takes one session's packets front to back, each handled by the pure step, and terminates by the number of packets left |
| `Brokers.PicoBroker.HandlePacket` | src/broker.rs:134-159 | the dispatch computes the pure step for any session id, and keeps the invariant unless it subscribes a session that does not exist |
| `Brokers.PicoBroker.HandlePublish` | src/broker.rs:187-209 | the fan-out loop with its early return computes the pure step for any publisher id and keeps the invariant |
| `Brokers.PicoBroker.HandleConnect` | src/broker.rs:166-185 | computes the pure step for any session id, including SessionNotFound, and keeps the invariant |
| `Brokers.PicoBroker.HandleSubscribe` | src/broker.rs:211-228 | computes the pure step for any session id and keeps the invariant for one that exists |
| `Brokers.PicoBroker.RegisterNewSession` | src/broker.rs:77-85 | computes the pure step and keeps the invariant |
| `Brokers.PicoBroker.MarkSessionDisconnected` | src/broker.rs:87-89 | computes the pure step and keeps the invariant |
| `Brokers.PicoBroker.RemoveSession` | src/broker.rs:91-94 | removes the session and exactly its subscriptions; everything else keeps its order |
| `Brokers.PicoBroker.QueuePacketReceivedFromClient` | src/broker.rs:111-120 | the client counts as heard from even if its packet does not fit |
| `Brokers.PicoBroker.DequeuePacketToSendToClient` | src/broker.rs:122-127 | hands over the oldest waiting packet and removes it |
| `Brokers.PicoBroker.GetSessionsWithPendingPackets` | src/broker.rs:239-251 | lists exactly the sessions with waiting packets, each once, in registry order |
| `Brokers.PicoBroker.CleanupPass` | examples/tokio_mqtt_server/src/server.rs:242-275 | collecting and removing expired, then disconnected sessions removes all doomed sessions at once |
| `Runs.CleanupExact` | examples/tokio_mqtt_server/src/server.rs:242-275 | a session survives iff it is not disconnected and its keep-alive is zero or it was heard from within one and a half times it, in whole seconds; survivors keep contents and subscriptions, nobody else has any |
| `Runs.CleanupKeepsOrder` | examples/tokio_mqtt_server/src/server.rs:242-275 | survivors stay in registry order |
| `SessionModel.ExpiryBounds` | src/session.rs:42-54 | heard from within the keep-alive: never expired; silent beyond one and a half times it: always; zero: never |
| `SessionModel.ExpiredIff` | src/session.rs:42-54 | the exact threshold: a positive keep-alive k, and silence of more than k + k / 2 seconds in nanoseconds |
| `SessionModel.WithoutFind` | src/session.rs:259-272 | removal leaves exactly the other sessions, with everything they had |
| `SessionRegistries.SessionRegistry.FindSession` | src/session.rs:383-396 | the search over optional slots finds the session with this id |
| `SessionRegistries.SessionRegistry.RegisterNewSession` | src/session.rs:234-257 | registers unless full or known, in that order of checks; all slots stay filled |
| `SessionRegistries.SessionRegistry.RemoveSession` | src/session.rs:259-272 | removal by position is removal by id |
| `SessionRegistries.SessionRegistry.QueueRxPacket` | src/session.rs:313-328 | appends if there is room; all queue slots stay filled |
| `SessionRegistries.SessionRegistry.QueueTxPacket` | src/session.rs:330-345 | appends if there is room; all queue slots stay filled |
| `SessionRegistries.SessionRegistry.DequeueRxPacket` | src/session.rs:347-356 | takes the oldest packet; nothing is returned only when the queue is empty |
| `SessionRegistries.SessionRegistry.DequeueTxPacket` | src/session.rs:358-367 | takes the oldest packet; nothing is returned only when the queue is empty |
| `SessionRegistries.SessionRegistry.GetExpiredSessions` | src/session.rs:184-200 | the expiration data of the registry filtered for expired sessions |
| `SessionRegistries.SessionRegistry.GetDisconnectedSessions` | src/session.rs:202-214 | the ids of the registry filtered for disconnected sessions |
| `SessionModel.FilteredSessions` | src/session.rs:184-214 | such a list holds exactly the chosen sessions |
| `SessionModel.FilteredInOrder` | src/session.rs:184-214 | each once, in registry order |
| `SessionRegistries.SessionRegistry.GetAllSessions` | src/session.rs:170-182 | all ids, in registry order |
| `TopicFilter.AgreesIffPublishable` | src/topics.rs:219-247 | the matcher agrees with section 4.7.1 for all UTF-8 filters iff the topic is not empty and has no level `#` |
| `TopicFilter.FoolingFilter` | src/topics.rs:227-233 | for every topic with a level `#`, a filter that the matcher accepts and section 4.7.1 rejects |
| `TopicFilter.SmallestMismatch` | src/topics.rs:227-233 | the shortest instance: topic `#`, filter `#/x` |
| `TopicFilter.SplitBytes` | src/topics.rs:263-293 | levels are what stands between bytes 47 |
| `TopicFilter.MatchesAll` | src/topics.rs:227-233 | filter [35] matches every topic |
| `TopicFilter.MatchesOneLevel` | src/topics.rs:219-247 | one level against one: [35], [43] or the same bytes |
| `TopicFilter.MatchesLevelByLevel` | src/topics.rs:219-247 | level by level: [43] stands for any level, every other level but [35] for itself |
| `TopicFilter.MatchesParent` | src/topics.rs:219-247 | a filter with further levels matches a topic of one only by a final [35] |
| `TopicFilter.MatchesDeeperTopic` | src/topics.rs:234-236 | a filter of one level matches a deeper topic only if it is [35] |
| `TopicFilter.MatchesTrailingSlash` | src/topics.rs:279-283 | the empty level behind a trailing slash counts |
| `TopicFilter.LoopMatchIsRule` | src/topics.rs:219-247 | without a level `#` in the topic, the swallowed level never matters |
| `TopicFilter.TopicMatches` | src/topics.rs:219-247 | the loop over two stateful iterators with lookahead, and its termination by remaining bytes and the pending flag |
| `TopicFilter.LevelIterator.Next` | src/topics.rs:263-293 | yields the levels of the slash split one by one, with the empty level behind a trailing slash |
| `TopicIndex.SubscribeAddsOnePair` | src/topics.rs:122-146 | success adds one pair to the relation; failure changes nothing; MaxTopicsReached exactly for a new filter in a full index, MaxSubscribersPerTopicReached exactly for a new pair whose list has no room |
| `TopicIndex.SubscribeAppends` | src/topics.rs:122-146 | a new subscriber comes last on its list, a new filter last in the index; nothing else moves |
| `TopicIndex.UnsubscribeRemovesOnePair` | src/topics.rs:170-190 | removes exactly one pair |
| `TopicIndex.UnsubscribeExact` | src/topics.rs:170-190 | one entry loses the session, or goes if nobody else is left on it; all others stay where they were |
| `TopicIndex.RestrictRemovesPairs` | src/topics.rs:192-204 | removing sessions removes exactly their pairs |
| `TopicIndex.RestrictKeepsWellFormed` | src/topics.rs:192-204 | and leaves distinct filters with non-empty, duplicate-free lists |
| `TopicIndex.WithoutInOrder` | src/topics.rs:85-92 | the others on a list keep their order |
| `TopicIndex.RestrictInOrder` | src/topics.rs:192-204 | the remaining filters keep their order |
| `TopicIndex.CountIsPairs` | src/topics.rs:210-212 | the subscription count is the size of the relation |
| `TopicRegistries.TopicRegistry.SubscriptionCount` | src/topics.rs:210-212 | the loop computes the size of the relation |
| `TopicIndex.MatchingIsJoin` | src/topics.rs:148-168 | a session is matched iff one of its filters matches, both sides taken as what `as_str` shows |
| `TopicIndex.SubscribersAreMatches` | src/topics.rs:148-168 | each session at most once; all matches unless the list is full |
| `TopicIndex.DedupInOrder` | src/topics.rs:159-163 | the collected list is in the order of first occurrence |
| `TopicIndex.MatchingInOrder` | src/topics.rs:155-165 | lists are collected entry by entry |
| `TopicRegistries.TopicRegistry.GetSubscribers` | src/topics.rs:148-168 | the nested loops compute the first elements, up to capacity, of the first-occurrence deduplication of all matching lists |
| `TopicRegistries.TopicRegistry.Subscribe` | src/topics.rs:122-146 | updates the index as specified and keeps it well formed |
| `TopicRegistries.TopicRegistry.Unsubscribe` | src/topics.rs:170-190 | updates the index as specified; reports whether the pair was there |
| `TopicRegistries.TopicRegistry.UnregisterAll` | src/topics.rs:192-204 | removes all pairs of the session, keeps the rest in order, returns exactly the drop in the subscription count |
| `TopicIndex.RemoveSubscriber` | src/topics.rs:85-92 | on a duplicate-free list, removing one occurrence removes the session |
| `Heapless.HeaplessVec.Push` | src/protocol/heapless.rs:167-174 | appends iff below capacity, else unchanged |
| `Heapless.HeaplessVec.Pop` | src/protocol/heapless.rs:176-186 | removes the last element |
| `Heapless.HeaplessVec.ExtendFromSlice` | src/protocol/heapless.rs:200-214 | appends all or nothing |
| `Heapless.HeaplessVec.Retain` | src/protocol/heapless.rs:216-234 | in-place compaction is the stable filter; the predicate sees each original element once, in order |
| `Heapless.HeaplessVec.Remove` | src/protocol/heapless.rs:236-249 | deletes one position, the rest keeps its order |
| `Heapless.HeaplessVec.DequeueFront` | src/protocol/heapless.rs:251-267 | takes the first element, the rest keeps its order |
| `Heapless.HeaplessVecIntoIterator.Next` | src/protocol/heapless.rs:356-373 | yields the next element even though it resets the vector's length at the end |
| `Heapless.DrainByIteration` | src/protocol/heapless.rs:339-373 | consuming iteration yields every element once, in order |
| `HeaplessStrings.FaithfulIffCapacityFits` | src/protocol/heapless.rs:27-42 | the derived whole-buffer equality is string equality iff the capacity is at most 255 |
| `HeaplessStrings.HeaplessString.TryFrom` | src/protocol/heapless.rs:27-42 | fails iff too long; all bytes past the length are zero |
| `HeaplessStrings.HeaplessString.Repeat` | src/protocol/heapless.rs:52-68 | as many whole characters as fit; zero tail |
| `HeaplessStrings.HeaplessString.Clear` | src/protocol/heapless.rs:86-89 | empties and zeroes |
| `HeaplessStrings.HeaplessString.PushStr` | src/protocol/heapless.rs:104-112 | appends all or nothing; zero tail; text stays text |
| `HeaplessStrings.HeaplessString.WriteStr` | src/protocol/heapless.rs:116-126 | appends what fits; zero tail; what is stored is still UTF-8 iff the cut is not inside a character |
| `HeaplessStrings.CutCharacterShowsNothing` | src/protocol/heapless.rs:70-72 | the first byte of a two-byte character, kept alone, shows as the empty string |
| `Utf8.PrefixValidIff` | src/protocol/heapless.rs:116-126 | a prefix of text is text iff it does not end inside a character |
| `Utf8.ConcatValidIff` | src/protocol/heapless.rs:104-112 | behind text, exactly text makes text |
| `Utf8.ValidIffEncoded` | src/protocol/heapless.rs:70-72 | exactly the encodings of sequences of Unicode scalar values count as text |
| `HeaplessStrings.HeaplessString.Equals` | src/protocol/heapless.rs:4-8 | the derived comparison decides equality of the visible strings |
| `RemainingLength.WriteThenRead` | src/protocol/utils.rs:5-90 | for every value up to 268435455 and any trailing bytes, write then read gives the value and consumes exactly its size |
| `RemainingLength.RereadIffMinimal` | src/protocol/utils.rs:17-90 | writing a value that was read reproduces its bytes iff they were minimal |
| `RemainingLength.EncodeBytes` | src/protocol/utils.rs:58-90 | the one to four bytes of every length |
| `RemainingLength.ReadersAgree` | examples/tokio_mqtt_server/src/io.rs:8-37 | both readers accept the same inputs with the same result, and where their rejections differ |
| `RemainingLength.ReadVariableLength` | src/protocol/utils.rs:17-56 | the loop computes the base-128 value of the bytes up to the terminator among the first four, or says why not |
| `RemainingLength.ParseRemainingLength` | examples/tokio_mqtt_server/src/io.rs:8-37 | the server's loop computes the same, with its own rejection |
| `Encoders.WriteVariableLength` | src/protocol/utils.rs:58-90 | writes the shortest encoding in place and nothing else, iff it fits |
| `Encoders.WriteField` | src/protocol/utils.rs:112-127 | writes a length-prefixed field in place and nothing else, iff it fits |
| `Decoders.ReadString` | src/protocol/utils.rs:92-110 | reads a field and checks its UTF-8 |
| `Decoders.ReadBinary` | src/protocol/utils.rs:129-145 | reads a length-prefixed field |
| `RoundTrip.FrameRoundTrip` | src/protocol/packets/mod.rs:180-224 | every well-formed packet of every kind is read back from its frame, whatever follows it in the slice |
| `RoundTrip.CutFrameIsRejected` | src/protocol/packets/mod.rs:199-224 | no proper prefix of any packet's frame is taken for a packet |
| `Rejections.CutFrameReason` | src/protocol/packets/mod.rs:199-224 | the error for every proper prefix of a frame: IncompletePacket for the kinds of variable size and SUBACK, else BufferTooSmall |
| `RoundTrip.DecodePanicsIff` | src/protocol/packets/mod.rs:199-224 | exactly the slices on which decoding panics: the empty one, a PUBLISH that overruns its length, and in builds with overflow checks a kind of fixed size whose length alone exceeds it |
| `RoundTrip.FramedPanicsIff` | src/protocol/packets/mod.rs:84-94 | on slices that hold exactly one frame it panics iff overflow checks are on and the length alone exceeds the fixed size |
| `RoundTrip.TooLongIff` | src/protocol/packets/mod.rs:84-94 | which is from 128 bytes of body on for the kinds of two bytes and from 2097152 on for those of four |
| `RoundTrip.LongPingPanics` | src/protocol/packets/pingreq.rs:31-37 | PINGREQ `C0 80 01` with 128 bytes panics with overflow checks and is rejected without |
| `RoundTrip.FrameReverse` | src/protocol/packets/mod.rs:199-224 | what decodes is well formed, and re-encodes to the same bytes iff its length is minimal and its flags are those of its kind |
| `RoundTrip.PublishFrameReverse` | src/protocol/packets/publish.rs:120-202 | a decoded PUBLISH re-encodes to the same bytes iff its length is minimal |
| `RoundTrip.LongLengthMisreadsId` | src/protocol/packets/puback.rs:36-43 | behind a length of two bytes a PUBACK with identifier [a, b] is read with identifier [0, a] |
| `RoundTrip.ConnectRoundTrip` | src/protocol/packets/connect.rs:75-269 | CONNECT with flags consistent with its optional fields survives the round trip, whatever follows |
| `RoundTrip.ConnectReverse` | src/protocol/packets/connect.rs:126-269 | a decoded CONNECT body is the body of the packet, whose flags match its optional fields |
| `RoundTrip.PublishRoundTrip` | src/protocol/packets/publish.rs:15-34 | PUBLISH with its flag bits survives the round trip, whatever follows |
| `RoundTrip.PublishReverse` | src/protocol/packets/publish.rs:120-202 | a decoded PUBLISH body is the body of the packet, with the received flag bits |
| `RoundTrip.SubscribeRoundTrip` | src/protocol/packets/subscribe.rs:29-136 | SUBSCRIBE survives the round trip, whatever follows |
| `RoundTrip.UnsubscribeRoundTrip` | src/protocol/packets/unsubscribe.rs:31-118 | UNSUBSCRIBE survives the round trip, whatever follows |
| `RoundTrip.SubscribeReverse` | src/protocol/packets/subscribe.rs:69-136 | a decoded SUBSCRIBE body is the body of a well-formed packet |
| `RoundTrip.UnsubscribeReverse` | src/protocol/packets/unsubscribe.rs:62-118 | a decoded UNSUBSCRIBE body is the body of a well-formed packet |
| `RoundTrip.SmallRoundTrip` | src/protocol/packets/puback.rs:25-44 | all kinds of fixed size, CONNACK and SUBACK survive the round trip, whatever follows |
| `WireLiterals.FieldBytes` | src/protocol/utils.rs:112-127 | two bytes of length, most significant first, then the contents |
| `WireLiterals.FirstByteOf` | src/protocol/packet_type.rs:3-36 | the first byte of every packet, type code and flags |
| `WireLiterals.ConnectBytes` | src/protocol/packets/connect.rs:75-124 | CONNECT: the ten fixed bytes, then client id, will topic, will payload, username, password |
| `WireLiterals.PublishBytes` | src/protocol/packets/publish.rs:94-115 | PUBLISH: topic, identifier above QoS 0, payload |
| `WireLiterals.FilterBytes` | src/protocol/packets/subscribe.rs:44-66 | SUBSCRIBE and UNSUBSCRIBE: identifier, filter, QoS code 0, 1 or 2 |
| `WireLiterals.SmallBodyBytes` | src/protocol/packets/connack.rs:9-34 | the bodies of all other kinds, with return codes 0 to 5 |
| `WireLiterals.FlagBits` | src/protocol/packets/connect.rs:18-27 | which bit of the flags byte means what |
| `WireLiterals.WellFormedConnect` | src/protocol/packets/connect.rs:126-269 | which CONNECT packets are well formed, in numbers |
| `WireLiterals.DecodedFlags` | src/protocol/packets/connect.rs:162-171 | of every decoded CONNECT: username iff flags >= 128, password iff flags % 128 >= 64, will iff flags % 8 >= 4, reserved bit clear, empty client id only with a clean session, client id of at most 23 bytes |
| `Rejections.KindReason` | src/protocol/packets/mod.rs:199-224 | exactly the type codes 0 and 15 are refused as such |
| `Rejections.PublishRejectedFor` | src/protocol/packets/publish.rs:120-202 | the error for every PUBLISH that can be written: not UTF-8, empty or too long topic, identifier 0, payload too large, in that order; none iff well formed |
| `Rejections.PublishQosReason` | src/protocol/packets/publish.rs:26-33 | InvalidQosLevel iff both QoS bits are set |
| `Rejections.SubscribeRejectedFor` | src/protocol/packets/subscribe.rs:69-136 | the error for every SUBSCRIBE with any QoS byte and any announced length |
| `Rejections.UnsubscribeRejectedFor` | src/protocol/packets/unsubscribe.rs:62-118 | the error for every UNSUBSCRIBE with any announced length |
| `Rejections.ConnectHeadRejectedFor` | src/protocol/packets/connect.rs:126-186 | the error for any protocol name, level, flags and client id |
| `Rejections.ConnectRejectedFor` | src/protocol/packets/connect.rs:126-269 | the error for every CONNECT whose flags announce its fields, with any announced length; none iff well formed with its own length |
| `Rejections.ConnAckRejectedFor` | src/protocol/packets/connack.rs:68-88 | the error for any two bytes of CONNACK body |
| `Rejections.SubAckRejectedFor` | src/protocol/packets/suback.rs:37-58 | the error or packet for any three bytes of SUBACK body |
| `Rejections.FixedLengthReason` | src/protocol/packets/mod.rs:77-94 | the error for a short slice or a wrong length of the other kinds of fixed size |
| `Rejections.EndlessLengthReason` | src/protocol/utils.rs:17-56 | InvalidPacketLength for four length bytes that all announce another one |
| `Encoders.Encode` | src/protocol/packets/mod.rs:180-197 | for every packet value and every buffer: the exact result (size, which error, or panic), the exact bytes written, each string as what `as_str` shows, and no change behind them |
| `Encoders.WireIsFrameIff` | src/protocol/heapless.rs:70-72 | the bytes written are the packet's frame iff every string field is UTF-8 |
| `Encoders.WireIsFramedIff` | src/protocol/packets/connect.rs:75-124 | the bytes written have the length they announce iff every string field but the will topic is UTF-8 |
| `Encoders.WellFormedWire` | src/protocol/packets/mod.rs:180-224 | well-formed packets, so all decoded ones, are written as their frame |
| `Encoders.WrittenDecodes` | src/protocol/packets/mod.rs:180-224 | whatever encoding wrote into a buffer decodes to the same packet, from the bytes it counts and from the whole buffer |
| `Encoders.CutTopicIsMisframed` | src/protocol/packets/publish.rs:68-94 | topic [0xC3] is written as [0x30, 3, 0, 0] |
| `Encoders.EncodePublish` | src/protocol/packets/publish.rs:68-118 | the same for PUBLISH; above QoS 0 without identifier, MissingPacketId if header, topic and two bytes fit, else BufferTooSmall |
| `Encoders.MissingIdInNumbers` | src/protocol/packets/publish.rs:68-108 | without identifier above QoS 0, how large a buffer gives MissingPacketId |
| `Encoders.EncodeSubscribe` | src/protocol/packets/subscribe.rs:29-67 | the same for SUBSCRIBE |
| `Encoders.EncodeUnsubscribe` | src/protocol/packets/unsubscribe.rs:31-60 | the same for UNSUBSCRIBE |
| `Encoders.EncodeConnect` | src/protocol/packets/connect.rs:75-124 | the same for CONNECT; panics exactly on an empty buffer and on one that ends 6 to 9 bytes behind the header |
| `Encoders.ConnectInNumbers` | src/protocol/packets/connect.rs:75-124 | the announced length as a sum, and the buffer sizes on which the code panics |
| `Encoders.EncodeSmall` | src/protocol/packets/puback.rs:26-34 | the same for all kinds of fixed size |
| `Encoders.EncodeFrame` | examples/tokio_mqtt_server/src/io.rs:78-93 | returns the written bytes iff they fit the server's buffer; for a well-formed packet other than CONNECT, its frame iff that fits |
| `Encoders.PublishFits` | examples/tokio_mqtt_server/src/io.rs:83-87 | exactly which PUBLISH packets fit that buffer |
| `Encoders.SomePublishDoesNotFit` | examples/tokio_mqtt_server/src/io.rs:83-87 | for all capacities some well-formed PUBLISH does not |
| `Decoders.DecodePacket` | src/protocol/packets/mod.rs:199-224 | the dispatch computes the meaning of every slice in both kinds of build, error kinds and panics included |
| `Decoders.DecodeConnectPacket` | src/protocol/packets/connect.rs:126-269 | the walk over any slice computes its meaning |
| `Decoders.DecodePublishPacket` | src/protocol/packets/publish.rs:120-202 | the walk over any slice computes its meaning |
| `Decoders.DecodeSubscribePacket` | src/protocol/packets/subscribe.rs:69-136 | the walk over any slice computes its meaning |
| `Decoders.DecodeUnsubscribePacket` | src/protocol/packets/unsubscribe.rs:62-118 | the walk over any slice computes its meaning |
| `Decoders.DecodeIdPacket` | src/protocol/packets/puback.rs:36-43 | size, type, length and identifier of the five acknowledgements, with their errors in that order, and the overflow in the length check |
| `Decoders.DecodeConnAckPacket` | src/protocol/packets/connack.rs:68-88 | the checks and fields of CONNACK, and the overflow in the length check |
| `Decoders.DecodeSubAckPacket` | src/protocol/packets/suback.rs:37-58 | the checks and fields of SUBACK |
| `Decoders.DecodeEmptyPacket` | src/protocol/packets/pingreq.rs:31-37 | the checks of the three kinds without body, and the overflow in the length check |
| `Framing.ReadOneExact` | examples/tokio_mqtt_server/src/io.rs:40-75 | a frame cut into pieces in any way is read, leaving exactly what follows, iff its length field arrives whole with the first two bytes |
| `Framing.ReadListExact` | examples/tokio_mqtt_server/src/io.rs:40-75 | for every list of well-formed packets and every way of cutting their frames: the list is read back up to the end of the stream iff no boundary lies within a length field behind its first byte; otherwise exactly the packets in front of the first such frame, then IncompletePacket |
| `Framing.ShortFramesAreSafe` | examples/tokio_mqtt_server/src/io.rs:45-58 | bodies under 128 bytes are safe however they are cut |
| `Framing.ReadOnePanicsIff` | examples/tokio_mqtt_server/src/io.rs:40-75 | exactly the inputs on which the server panics while reading a packet: with overflow checks, those that announce and hold a frame of fixed size with such a length; none without |
| `Framing.CutInsideLengthIsRejected` | examples/tokio_mqtt_server/src/io.rs:45-55 | every frame with a body of 128 bytes or more is rejected when its first piece ends after two bytes |
| `Framing.StreamEndsEarly` | examples/tokio_mqtt_server/src/io.rs:45-66 | a stream that ends inside a frame, however cut: the end of the stream below two bytes, else IncompletePacket |
| `Framing.EndlessLengthIsRejected` | examples/tokio_mqtt_server/src/io.rs:26-33 | four length bytes that all announce another one are refused as soon as they are there |
| `Framing.PrefixFree` | examples/tokio_mqtt_server/src/io.rs:8-75 | frames are a prefix code |
| `Decoders.ReadPacket` | examples/tokio_mqtt_server/src/io.rs:40-75 | the two waiting loops, decoding and advancing compute one framing step |
| `Decoders.ReadAll` | examples/tokio_mqtt_server/src/handler.rs:168-180 | reading packet after packet from any input computes the list of the specification and what ended it |

## Left out

- Sockets, timers, notification channels, the select loops and the rp2040 server: runtime
  plumbing around the calls modelled here.
- QoS 2 handshakes, retained messages, wills, UNSUBSCRIBE handling, the leading `$` rule
  and gating on the connection state: the broker does not implement them.
- The numbers inside error values (buffer sizes, maxima): only the kind of error, and
  which session's queue is full, is modelled.
- `HeaplessVec`s inside the registries: they hold sequences, so that a registry entry
  shares storage with nothing is not a separate statement.
- The bytes that a failing encoder has already written.
- RemainingLength.ReadVariableLength: a `usize` is taken to have 64 bits; with 32 the sum
  overflows at a fifth length byte, which no slice that the server cuts has.
- `hex_to_bytes`, `bytes_to_hex`, display code and the tokio client: nothing hard.
