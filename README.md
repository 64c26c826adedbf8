# iotbroker core in Dafny

This project models the core of iotbroker, a small MQTT 3.1.1 broker written in C. It covers five parts of the broker:

- **protocol.c**: reading one control packet from a client's stream, handing it to the packet handler and writing its reply (`iotbroker_read_packet`), and draining a client's queue of outgoing PUBLISH packets (`iotbroker_write_packet`). It also covers the fixed-header codec and `write_packet`.
- **packet_handle.c**: the handlers for CONNECT, PUBLISH, PUBACK, PUBREC, PUBREL, PUBCOMP, SUBSCRIBE, UNSUBSCRIBE, PINGREQ and DISCONNECT, the reply builders, and the cursor helpers that read and write fields of a packet.
- **session.c**: the session table of connected clients, keyed by socket fd.
- **message.c**: the reference-counted message store.
- **subtree.c**: the subscription index, and the fan-out of a published message to every matching subscriber.

Each global table is a class whose methods change its fields:

- `Session.Table` holds the clients, by fd and by identity.
- `MessageStore.Registry` holds the message store.
- `SubTree.Index` holds the subscription hash table of filter to subscriber list.

A `Codec.Packet` is the `Packet` struct. Its load is an `array`, and the cursor helpers move `loadPos` over it.

Every state-changing method is proved against a specification function on values:

- `PacketHandle.World` is the whole state: the client heap, the message records, the next message handle and the subscription nodes.
- `PacketHandle.Outcome` is a new World, together with the handler's return value and its optional reply frame.

The properties are then proved about those functions:

- round trips of the wire codec;
- what each handler does to each part of the state;
- soundness and completeness of the fan-out against `SubTree.Matches`, the source's own filter relation, which is wider than MQTT topic matching (see Left out);
- reference-count bookkeeping, and a store-wide invariant (`SubTree.RefsMatch`, `PacketHandle.Consistent`): each message's reference count equals the number of queue entries pointing at it. Every handler, the fan-out, a drain, session add and session clean keep it;
- the end state of draining a queue.

Four modelling choices apply throughout:

- A C pointer is a `Ref` (clients) or a `Handle` (stored messages), and NULL is `None`.
- C strings are byte sequences that end at their first NUL, as `CStr` defines.
- The socket is a byte sequence: what `read()` would return next, or what `write()` is given.
- UINT8, UINT16 and UINT32 fields are subset types of `int`, and their wrap-around is written out where the source relies on it.

Modules, in dependency order: `CTypes` (ctypes.dfy), `Codec` (codec.dfy), `MessageStore` (message_store.dfy), `Session` (session.dfy), `SubTree` (subtree.dfy), `PacketHandle` (packet_handle.dfy), `Protocol` (protocol.dfy).

## Model

| member | source | states |
|---|---|---|
| CTypes.Inc16 | packet_handle.c:727 | `packet_id_source++` on a UINT16 adds one below 0xFFFF and wraps 0xFFFF to 0 |
| CTypes.CStr | session.c:53-57 | the string strlen/strncpy see is the longest NUL-free prefix, and is followed by a NUL whenever it is shorter than the buffer |
| CTypes.CStrPrefix | subtree.c:216 | whatever follows the first NUL does not change the C string |
| CTypes.Be16OfU16Bytes | packet_handle.c:93-100 | the two bytes write_uint16 stores are read back by read_uint16 as the same value |
| Codec.HeaderRoundTrip | protocol.c:34-58 | type and flags packed into the first byte are recovered by get_packet_type and get_packet_flag |
| Codec.HeaderTypeRange | protocol.c:34-47 | get_packet_type succeeds exactly for type nibbles 1..14 (fails iff the byte is below 0x10 or at least 0xF0), and the byte is rebuilt from type and flags |
| Codec.Varint | protocol.c:61-77 | the remaining-length encoding of set_packet_remainlength takes at least one byte |
| Codec.VarintMarks | protocol.c:61-77 | every byte but the last has the continuation bit 128 set, and the last has it clear |
| Codec.VarintDenotes | protocol.c:61-77 | the encoded digits denote the encoded length |
| Codec.VarintStep | protocol.c:61-77 | each byte holds `n % 128` plus the continuation bit, and the tail encodes `n / 128` |
| Codec.VarintLength | protocol.c:61-77 | the encoding takes at most k bytes iff n < 128^k |
| Codec.VarintFits | protocol.h:7 | every length up to 268435455 takes at most MAX_REMAIN_BYTE_LEN bytes |
| Codec.DecodeLengthFrom | protocol.c:152-168 | a decoded length reports a byte count past the start that stays inside the input |
| Codec.ReadRemainLength | protocol.c:152-168 | the loop computes the corrected 4-byte decoder DecodeLength (value and byte count, closed stream, too long), not the source's loop (see Findings) |
| Codec.DecodeVarint | protocol.c:152-168 | with a limit of k bytes, the encoding of any n < 128^k is read back as n with its byte count, and any larger n is rejected as too long |
| Codec.DecodeLengthBound | protocol.c:162-167 | a decoded value is below 128^k for a k-byte limit |
| Codec.DecodedLengthFits | protocol.c:152-168 | every length the corrected reader accepts is at most 268435455 |
| Codec.LengthRoundTrip | protocol.c:152-168 | every length up to 268435455 written by set_packet_remainlength is read back by the corrected reader, with its byte count, whatever follows it |
| Codec.FourthLengthByteRejected | protocol.c:163-167 | the reader as written accepts a length exactly when it is below 0x200000, and rejects 0x200000..268435455, which the corrected reader accepts as 4-byte lengths |
| Codec.NonMinimalLengthAccepted | protocol.c:152-168 | the reader accepts the non-minimal length encoding `80 00` as 0 in 2 bytes |
| Codec.EncodeFrame | protocol.c:80-125 | write_packet emits the header byte, then the remaining-length bytes, then the payload, and nothing else |
| Codec.ReadU8At | packet_handle.c:51-58 | read_uint8 succeeds iff a byte is left, returns it and advances the cursor by one |
| Codec.ReadU16At | packet_handle.c:36-48 | read_uint16 succeeds iff two bytes are left, and advances the cursor by two |
| Codec.ReadStrAt | packet_handle.c:61-74 | read_str stays inside the load, and returns a NUL-free string no longer than its length prefix |
| Codec.ReadRemainStrAt | packet_handle.c:77-90 | read_remain_str succeeds iff the cursor is inside the load, and returns a NUL-free string shorter than 65536 |
| Codec.U16RoundTrip | packet_handle.c:36-48 | two bytes written big-endian at a position are read back as the same UINT16 |
| Codec.ReadStrConsumes | packet_handle.c:61-74 | read_str consumes the 2-byte prefix plus the prefixed length, even when the string stops at an earlier NUL |
| Codec.ReadRemainStrEnds | packet_handle.c:77-90 | read_remain_str always succeeds inside the load, and reaches its end iff fewer than 65536 bytes remain |
| Codec.Str | packet_handle.c:108-117 | write_str emits the 2-byte length and the bytes, 2 + n in all |
| Codec.StrRoundTrip | packet_handle.c:61-74 | a NUL-free string shorter than 65536 written by write_str is read back by read_str, whatever surrounds it |
| Codec.Packet.Inbound | protocol.c:193-201 | the packet iotbroker_read_packet builds: type, flags, remaining length, a fresh load holding the payload, `current_pos` at the header length, cursor 0 |
| Codec.Packet.Outbound | packet_handle.c:595-624 | a reply packet: type, flags, remaining length, a fresh load of the given capacity, both positions 0 |
| Codec.Packet.ReadUint8 | packet_handle.c:51-58 | the method returns and advances exactly as ReadU8At says, and leaves the cursor on failure |
| Codec.Packet.ReadUint16 | packet_handle.c:36-48 | the method returns and advances exactly as ReadU16At says |
| Codec.Packet.ReadStr | packet_handle.c:61-74 | the method returns and advances exactly as ReadStrAt says |
| Codec.Packet.ReadRemainStr | packet_handle.c:77-90 | the method returns and advances exactly as ReadRemainStrAt says |
| Codec.Packet.WriteUint8 | packet_handle.c:103-106 | stores one byte at the cursor and advances it by one, with the rest of the load unchanged |
| Codec.Packet.WriteUint16 | packet_handle.c:93-100 | stores the big-endian bytes at the cursor and advances it by two |
| Codec.Packet.WriteRemainStr | packet_handle.c:119-126 | appends the bytes at the cursor and keeps everything before it |
| Codec.Packet.WriteStr | packet_handle.c:108-117 | appends the length prefix and the bytes at the cursor and keeps everything before it |
| Codec.Packet.SetRemainLength | protocol.c:61-77 | inserts exactly the remaining-length encoding at `current_pos` and advances it by the encoding's length |
| Codec.CopyInto | protocol.c:112 | the memcpy copies n bytes to the target offset and leaves the bytes before it alone |
| Codec.WritePacket | protocol.c:80-125 | the bytes handed to write() are exactly EncodeFrame of the packet |
| MessageStore.Released | message.c:56-88 | deref never adds a message to the store |
| MessageStore.ReleasedCounts | message.c:56-88 | deref lowers the message's count by one and removes it iff the count was 1; every other message is untouched |
| MessageStore.ReleasedAtZeroWraps | message.c:60-63 | a deref at count 0 wraps the UINT32 count to 2^32-1 and keeps the message |
| MessageStore.ReleaseUndoesReference | message.c:56-88 | a reference then a deref give back the store, or drop a message whose count was 0 |
| MessageStore.ReleaseAll | session.c:137-146 | dereferencing every entry of a queue never adds a message |
| MessageStore.ReleaseAllCounts | session.c:137-146 | if a queue holds m entries for a message with count c ≥ m, the message survives iff m = 0 or c > m, with count c - m |
| MessageStore.ReleaseAllAbsent | session.c:137-146 | releasing a queue does not bring back an absent message |
| MessageStore.Registry.constructor | message.c:29-35 | the store starts empty |
| MessageStore.Registry.Insert | message.c:37-54 | the new message gets a handle not already in use, with count 0, and nothing else changes |
| MessageStore.Referenced | subtree.c:145 | `refer_count++` raises exactly that record's count by one, keeps its message, and changes no other record |
| MessageStore.Registry.Reference | subtree.c:145 | `refer_count++` on one record |
| MessageStore.Registry.Deref | message.c:56-88 | the store becomes Released of the old store, as ReleasedCounts describes |
| Session.NewClient | session.c:47-68 | a new session waits for CONNECT, has packet_id_source 1, an empty queue, no id or credentials, the address as strlen/strncpy copy it and the port |
| Session.Find | session.c:29-34 | a found client is the one the fd maps to and exists |
| Session.Enqueued | subtree.c:143 | adding to a client's queue keeps the set of clients |
| Session.SetterFrames | session.c:95-176 | setid changes only the client id of the fd's client, state_mod keeps its queue, and other clients are unchanged |
| Session.EnqueuedRefs | subtree.c:143-145 | one queued entry adds exactly one queue reference to its message |
| Session.Table.constructor | session.c:36-77 | the table starts empty |
| Session.Table.Get | session.c:29-34 | the lookup finds a client iff the fd is in the table, that client has that fd, and the result is Find's |
| Session.Table.Add | session.c:36-77 | a known fd leaves the table as it was; otherwise a fresh identity maps the fd to NewClient |
| Session.Table.Auth | session.c:79-93 | returns SUCESS iff the fd is known; the credentials are stored on that client only |
| Session.Table.SetId | session.c:95-106 | stores the client id on the fd's client, if any |
| Session.Table.StateMod | session.c:158-176 | sets the state of the fd's client, if any |
| Session.Table.Enqueue | subtree.c:143 | puts a delivery at the head of one client's queue |
| Session.Table.Put | packet_handle.c:340-374 | replaces one client's record, keeping its fd |
| Session.Table.Clean | session.c:108-156 | an unknown fd changes nothing; otherwise every entry of the client's queue is dereferenced in the store, and the client leaves both maps |
| SubTree.Tokens | subtree.c:16-52 | a topic splits into at least one level |
| SubTree.SplitFirst | subtree.c:16-52 | the first level is what comes before the first '/', and the rest is the levels of what follows it |
| SubTree.JoinTokens | subtree.c:16-52 | joining the levels with '/' gives back the topic |
| SubTree.TokensCount | subtree.c:16-52 | there is one level more than there are slashes |
| SubTree.TokensHaveNoSlash | subtree.c:16-52 | no level contains a '/' |
| SubTree.TokensOfJoin | subtree.c:16-52 | slash-free levels joined with '/' split back into the same levels |
| SubTree.GetTopicTokens | subtree.c:16-52 | the token list built by get_topic_tokens is the levels of the topic's C string |
| SubTree.SplitLevels | subtree.c:16-52 | the scanning loop computes exactly Tokens |
| SubTree.FirstSame | subtree.c:266-282 | finds the first subscriber with the same client id, and none exists before it; None means none at all |
| SubTree.SubscribeEffect | subtree.c:227-291 | after subscribe, the filter holds an entry for the client with the new QoS; the list grows by one unless the client was already there; other filters are unchanged |
| SubTree.SubscribeIdempotent | subtree.c:227-291 | subscribing twice with the same QoS is the same as once |
| SubTree.UnsubscribeUndoesSubscribe | subtree.c:293-328 | unsubscribing a client that was not subscribed to a filter undoes its subscribe exactly |
| SubTree.UnsubscribeEffect | subtree.c:293-328 | an absent filter changes nothing; the filter loses one entry if the client is there, and the key goes when its list empties; other filters are unchanged |
| SubTree.SubscribeKeepsLists | subtree.c:319-324 | no filter key is ever left with an empty list |
| SubTree.PublishedExtends | subtree.c:202-225 | fan-out only prepends entries to queues, keeps every client and message, and never lowers a count |
| SubTree.PublishedKeepsClient | subtree.c:202-225 | every client survives fan-out with its old queue as a suffix |
| SubTree.DeliverKeysNone | subtree.c:109-123 | looking up only filters with no subscribers changes nothing |
| SubTree.PublishedUnmatched | subtree.c:202-225 | a message nobody's filter matches leaves queues and store untouched, so the message stays at count 0 |
| SubTree.DeliveredDomains | subtree.c:125-146 | delivering to a filter's subscribers keeps the sets of clients and messages |
| SubTree.DeliveredCount | subtree.c:125-146 | the message's count rises by exactly the number of live subscribers, and no other record changes |
| SubTree.DeliveredQueue | subtree.c:125-146 | each client gets exactly its own new entries in front of its old queue |
| SubTree.DeliveredOncePerSubscriber | subtree.c:125-146 | with distinct subscribers, each gets one entry waiting to publish at MIN(message QoS, subscription QoS) |
| SubTree.RefsMatchReleasable | message.c:56-63 | under the invariant no queue holds more references on a record than its count, and every queued entry's record has count ≥ 1, so no deref starts at 0 |
| SubTree.EnqueueKeeps | subtree.c:143-145 | list_add of an entry together with its `refer_count++` keeps the invariant |
| SubTree.DeliverOneKeeps | subtree.c:125-146 | fan-out to one subscriber keeps the invariant and the set of records |
| SubTree.DeliveredKeeps | subtree.c:125-146 | delivery to a whole subscriber list keeps the invariant |
| SubTree.DeliverKeysKeeps | subtree.c:151-200 | delivery to every candidate filter keeps the invariant |
| SubTree.PublishedKeeps | subtree.c:202-225 | iotbroker_subtree_pub keeps the invariant |
| SubTree.StoredKeeps | message.c:37-54 | storing an accepted message at count 0 under an unused handle keeps the invariant |
| SubTree.RemoveReleaseKeeps | packet_handle.c:404-426 | unlinking one entry and dereferencing its record keeps the invariant |
| SubTree.ReplaceKeeps | packet_handle.c:379-402 | replacing an entry by one on the same record keeps the invariant, whatever else of the session changes |
| SubTree.SameQueuesKeep | session.c:79-176 | setters that change no queue keep the invariant |
| SubTree.CleanKeeps | session.c:108-156 | iotbroker_session_clean keeps the invariant: the session's references are released, and a record that leaves the store is one no other session points at |
| SubTree.AddKeeps | session.c:36-77 | a new session with an empty queue under a fresh Ref keeps the invariant |
| SubTree.LookupsUnfold | subtree.c:151-200 | at each level the buffer looks up the literal level, then '+', then '#', and descends past a level only if its key has subscribers |
| SubTree.LookupsComplete | subtree.c:151-200 | every filter in the source's relation Matches for the topic (each level the topic's or '+', the last possibly '#', possibly shallower than the topic) whose proper prefixes all have subscribers is looked up by the corrected lookups |
| SubTree.LookupsSound | subtree.c:151-200 | every key the corrected lookups look up is a filter in Matches for the topic, reached through prefixes with subscribers |
| SubTree.FindSame | subtree.c:266-282 | the strcmp scan computes FirstSame |
| SubTree.Index.constructor | subtree.c:227-291 | the index starts empty |
| SubTree.Index.Subscribe | subtree.c:227-291 | the subscription table becomes Subscribed of the old table |
| SubTree.Index.Unsubscribe | subtree.c:293-328 | the subscription table becomes Unsubscribed of the old table |
| SubTree.Index.Deliver | subtree.c:109-149 | returns SUCESS iff the key has subscribers, and delivers to them; otherwise nothing changes |
| SubTree.Index.PubFrom | subtree.c:151-200 | the recursion performs exactly the corrected lookups that Lookups lists, in order (see Findings) |
| SubTree.Index.Pub | subtree.c:202-225 | publishing a stored message with the corrected lookups leaves exactly Published of the old state |
| SubTree.LookupsTwoLevelsPruned | subtree.c:172-176 | with no subscribers on the first level or '+', a two-level topic looks up only its first level, '+' and '#' |
| SubTree.DeepFilterAloneMisses | subtree.c:172-176 | a subscriber on "a/b" alone does not receive a message on "a/b", because "a" has no subscribers |
| SubTree.ParentFilterGetsChild | subtree.c:109-123 | a subscriber on "a" is looked up and delivered for a message on "a/b" |
| SubTree.HashSkipsParent | subtree.c:193-199 | a subscriber on "a/#" gets nothing for a message on "a" |
| SubTree.BufLen | subtree.c:162 | strlen of the topic buffer stops at the first NUL inside the buffer |
| SubTree.WriteAt | subtree.c:174 | a byte store succeeds iff it lands inside the buffer |
| SubTree.CopyAt | subtree.c:167 | memcpy succeeds iff it fits, and changes only the target range |
| SubTree.ZeroAt | subtree.c:177 | memset succeeds iff it fits, and zeroes only the target range |
| SubTree.StraySlashMissesHash | subtree.c:172-177 | as written, with subscribers on "a" and "#", a message on "a/b" is looked up as "a", "a/b", "a/+", "a/#", "+/", "#/", so "#" is missed although it matches |
| SubTree.LongLevelKeepsHash | subtree.c:172-177 | as written, with subscribers on "ab" and "#", a message on "ab/b" is looked up as "ab", "ab/b", "ab/+", "ab/#", "+", "#": after a two-byte level the zeroed byte ends the '+' and '#' keys before the stray '/', so "#" is reached |
| SubTree.EmptyLastLevelOverreads | subtree.c:216-217 | as written, with a subscriber on "a", the topic "a/" writes past the topic buffer |
| SubTree.OneLetterTopicOverreads | subtree.c:216-217 | as written, with a subscriber on "a", the topic "a" itself leaves no NUL in the buffer for its '+' lookup |
| PacketHandle.IdFrameBytes | packet_handle.c:595-624 | a packet with only a packet id encodes as `type<<4, 2, msb, lsb`, and its id reads back |
| PacketHandle.ConnackBytes | packet_handle.c:257-277 | CONNACK encodes as `20 02 sp rc` |
| PacketHandle.SubackCovers | packet_handle.c:660-688 | the corrected SUBACK's remaining length equals its payload: the id, then one return code per filter, in order |
| PacketHandle.SubackLengthWraps | packet_handle.c:660-671 | as written, 65536 filters make remain_len 2 while 65538 payload bytes are written |
| PacketHandle.SendConnack | packet_handle.c:257-277 | the reply packet is the CONNACK frame |
| PacketHandle.BuildPacketWithPacketId | packet_handle.c:595-624 | the reply packet is the id-only frame of the given type |
| PacketHandle.SendPingresp | packet_handle.c:626-638 | the reply packet is PINGRESP with no payload |
| PacketHandle.SendSuback | packet_handle.c:660-688 | the reply packet is the corrected SUBACK frame |
| PacketHandle.ReadOptStr | packet_handle.c:201-233 | an optional field is read iff its flag is set, and the cursor stays inside the load |
| PacketHandle.ReadOptionalStr | packet_handle.c:201-233 | the method reads an optional field as ReadOptStr says |
| PacketHandle.ReadWillFields | packet_handle.c:201-211 | the method reads will topic and message as ReadWill says |
| PacketHandle.ReadCredentialFields | packet_handle.c:214-233 | the method reads username and password as ReadCredentials says, in the corrected form that reads the password under its own flag 0x80 (see Findings) |
| PacketHandle.ReadConnectFields | packet_handle.c:184-233 | the method reads keepalive, client id, will and credentials as ReadConnectTail says, with the corrected password gate 0x80 (see Findings) |
| PacketHandle.ReadConnect | packet_handle.c:128-233 | the field reads of handle_connect compute the corrected ParseConnect: refused, level rejected or accepted |
| PacketHandle.HandleConnect | packet_handle.c:128-255 | the new state, return value and reply are ConnectSpec's, built on the corrected ParseConnect |
| PacketHandle.Connect | packet_handle.c:235-249 | setid, auth and state_mod together leave exactly Connected |
| PacketHandle.ConnectRoundTrip | packet_handle.c:128-233 | every well-formed CONNECT payload is parsed back into the request it encodes by the corrected parser (see Findings) |
| PacketHandle.LevelAboveMaxRejected | packet_handle.c:161-173 | the corrected parser answers a level byte above 4 with LevelRejected |
| PacketHandle.SignedLevelAccepted | packet_handle.c:161-168 | as written, level byte 0x80 reads as a negative INT8 and is accepted; the corrected parser rejects it |
| PacketHandle.UsernameWithoutPasswordOverreads | packet_handle.c:225-233 | as written, a CONNECT with the username flag and no password reads a password past the load and is refused; the corrected parser accepts it |
| PacketHandle.ConnectedEffect | packet_handle.c:235-249 | after CONNECT only the fd's client changes: client id set, state CONNECTING, credentials replaced when either is given |
| PacketHandle.ConnectFailurePaths | packet_handle.c:142-181 | an unreadable or wrong protocol name, or the reserved flag set, closes the client with no reply and no change; a level above 4 answers CONNACK `20 02 00 01` with no change |
| PacketHandle.ConnectAccepted | packet_handle.c:235-254 | a well-formed CONNECT answers CONNACK `20 02 00 00`, sets the client id and CONNECTING, keeps the queue, and touches nothing else |
| PacketHandle.IdField | packet_handle.c:310-313 | the packet id is present, as 2 bytes, exactly for QoS 1 and 2 |
| PacketHandle.ReadIdAt | packet_handle.c:310-313 | reading the optional id stays inside the load |
| PacketHandle.ReadPublish | packet_handle.c:289-326 | the field reads of handle_publish compute ParsePublish |
| PacketHandle.StorePublish | packet_handle.c:328-374 | storing and dispatching a parsed PUBLISH leaves the state, return value and reply of PublishAccepted |
| PacketHandle.PublishStored | packet_handle.c:340-352 | fanning out a stored message leaves Published |
| PacketHandle.HandlePublish | packet_handle.c:289-377 | the new state, return value and reply are PublishSpec's |
| PacketHandle.PublishPayloadParses | packet_handle.c:289-326 | a PUBLISH payload of topic, optional id and content is parsed back, with flags decoded and the id 0 at QoS 0 |
| PacketHandle.PublishRoundTrip | packet_handle.c:289-326 | a well-formed message encoded with its own flags is parsed back whole |
| PacketHandle.PublishQos3Closes | packet_handle.c:302-306 | QoS 3 closes the client with no reply and no change |
| PacketHandle.PublishEffect | packet_handle.c:328-374 | the message is stored under a fresh handle; QoS 2 queues one inbound entry waiting for PUBREL, with count 1, and answers PUBREC; QoS 0 and 1 fan out, and QoS 1 answers PUBACK |
| PacketHandle.PublishUnmatchedKeepsRecord | packet_handle.c:340-352 | a QoS 0/1 message nobody subscribes to stays in the store at count 0, and the clients are untouched |
| PacketHandle.WireStr | packet_handle.c:108-117 | write_str writes a 2-byte length of strlen mod 65536, then that many bytes |
| PacketHandle.WireRemainStr | packet_handle.c:119-126 | write_remain_str writes strlen mod 65536 bytes |
| PacketHandle.AppendStr | packet_handle.c:108-117 | the load gains exactly WireStr after the cursor |
| PacketHandle.AppendRemainStr | packet_handle.c:119-126 | the load gains exactly WireRemainStr after the cursor |
| PacketHandle.AppendUint16 | packet_handle.c:93-100 | the load gains exactly the two big-endian bytes after the cursor |
| PacketHandle.WritePublishPayload | packet_handle.c:723-729 | the load holds topic, optional id and content, in that order |
| PacketHandle.BuildPublish | packet_handle.c:695-754 | the built packet is PublishFrame of the message, QoS and id |
| PacketHandle.PublishFrameReadsBack | packet_handle.c:695-754 | the PUBLISH send_publish builds has remain_len equal to its payload, and parses back into the message with the given QoS and id |
| PacketHandle.SendPublish | packet_handle.c:695-754 | the new state, return value and reply are SendPublishSpec's |
| PacketHandle.HandleMessageQueue | packet_handle.c:756-773 | the new state, return value and reply are MessageQueueSpec's |
| PacketHandle.SentPublishCarriesId | packet_handle.c:725-749 | the PUBLISH sent for a queue entry parses back with the client's next packet id at QoS 1/2; the entry records that id, and packet_id_source advances with UINT16 wrap |
| PacketHandle.FirstMatch | packet_handle.c:379-402 | finds the first entry awaiting this id in this state, and no earlier one; None means none at all |
| PacketHandle.FindAwaiting | packet_handle.c:379-402 | the queue scan computes FirstMatch |
| PacketHandle.Without | packet_handle.c:420 | list_del removes exactly one entry and keeps the order of the rest |
| PacketHandle.HandleCompletion | packet_handle.c:404-426 | PUBACK and PUBCOMP leave AckSpec's state and return value, with no reply |
| PacketHandle.HandlePubrec | packet_handle.c:379-402 | PUBREC leaves AckSpec's state, return value and reply |
| PacketHandle.Unlink | packet_handle.c:445 | removing the PUBREL'd entry and answering PUBCOMP leaves Unlinked |
| PacketHandle.Relay | packet_handle.c:428-452 | fan-out then unlink leaves Relayed |
| PacketHandle.FanOut | packet_handle.c:440-444 | the fan-out inside PUBREL leaves Published, and locates the entry in the grown queue |
| PacketHandle.HandlePubrel | packet_handle.c:428-452 | PUBREL leaves AckSpec's state, return value and reply |
| PacketHandle.UnmatchedAckIgnored | packet_handle.c:379-593 | an acknowledgement whose id no entry awaits in the expected state changes nothing and sends nothing |
| PacketHandle.AckTouchesFirstMatchOnly | packet_handle.c:379-593 | PUBREC changes only the first matching entry, to inbound and waiting for PUBCOMP, and answers PUBREL; PUBACK and PUBCOMP remove that entry and deref its message |
| PacketHandle.PubackCompletesSent | packet_handle.c:571-593 | after sending a QoS 1 entry, the PUBACK carrying the id it was sent with removes that entry and derefs the message |
| PacketHandle.HandleSubscribe | packet_handle.c:454-526 | the new index, return value and reply are SubscribeSpec's, whose SUBACK is the corrected `2 + n` frame (see Findings) |
| PacketHandle.SubscribeFiltersAt | packet_handle.c:467-511 | the loop over well-formed filters subscribes each one, in order, and collects their QoS values |
| PacketHandle.SubscribeRoundTrip | packet_handle.c:454-526 | a SUBSCRIBE of well-formed filters subscribes each, and answers the corrected SUBACK with the packet id and their QoS values (see Findings) |
| PacketHandle.SubscribeBadQosStops | packet_handle.c:482-486 | a filter with QoS above 2 closes the client, keeps the earlier filters' subscriptions and sends no SUBACK |
| PacketHandle.HandleUnsubscribe | packet_handle.c:528-562 | the new index, return value and reply are UnsubscribeSpec's |
| PacketHandle.UnsubscribeTopicsAt | packet_handle.c:528-562 | the loop unsubscribes every listed topic, in order |
| PacketHandle.UnsubscribeRoundTrip | packet_handle.c:528-562 | an UNSUBSCRIBE unsubscribes each topic and answers UNSUBACK with its id |
| PacketHandle.SubscribeThenUnsubscribe | packet_handle.c:454-562 | subscribing a new filter and then unsubscribing it gives back the original state |
| PacketHandle.HandlePacket | packet_handle.c:775-829 | dispatch on the type gives PacketSpec's state, return value and reply |
| PacketHandle.PublishKeepsHandles | packet_handle.c:328-338 | PUBLISH keeps every stored handle below the next fresh handle |
| PacketHandle.AckKeepsHandles | packet_handle.c:379-593 | acknowledgements keep every stored handle below the next fresh handle |
| PacketHandle.PacketSpecKeepsHandles | packet_handle.c:775-829 | every packet keeps every stored handle below the next fresh handle |
| PacketHandle.StartConsistent | message.c:29-35 | the broker with no session and an empty store satisfies the invariant |
| PacketHandle.ParsedPublishFits | packet_handle.c:289-326 | every message handle_publish reads is at QoS ≤ 2 and fits one PUBLISH |
| PacketHandle.ConnectedQueues | packet_handle.c:235-249 | an accepted CONNECT keeps every session and every queue |
| PacketHandle.ConnectKeeps | packet_handle.c:128-255 | handle_connect keeps the invariant |
| PacketHandle.PublishKeeps | packet_handle.c:289-377 | handle_publish keeps the invariant: the record starts at 0 and gains one reference per entry queued for it |
| PacketHandle.AckKeeps | packet_handle.c:379-593 | the four acknowledgement handlers keep the invariant |
| PacketHandle.RelayKeeps | packet_handle.c:428-452 | the PUBREL fan-out and unlink keep the invariant |
| PacketHandle.PacketSpecKeeps | packet_handle.c:775-829 | every packet handle_packet dispatches keeps the invariant |
| Protocol.Zeros | protocol.c:175 | the memset buffer is all zero |
| Protocol.DecodePacket | protocol.c:127-201 | with the corrected length decoder, a decoded packet consumed at least its header, stays inside the stream, and has a payload of at most 268435455 bytes |
| Protocol.ReadPacket | protocol.c:144-201 | the reads of iotbroker_read_packet, with the corrected length decoder, compute DecodePacket |
| Protocol.FrameReadsBack | protocol.c:127-201 | a frame write_packet emits is read back by the corrected reader as the same type, flags and payload, with its header length and size |
| Protocol.AckReplyWritable | packet_handle.c:379-593 | every acknowledgement reply fits write_packet's buffer |
| Protocol.SubscribeRetsBound | packet_handle.c:467-511 | each SUBACK return code costs at least 3 payload bytes |
| Protocol.SubscribeReplyWritable | packet_handle.c:660-688 | the SUBACK for a payload that fits a frame fits one |
| Protocol.PacketReplyWritable | packet_handle.c:775-829 | every handler reply fits write_packet's buffer |
| Protocol.Serve | protocol.c:127-282 | the state, return code and bytes written are ServeSpec's |
| Protocol.ServePacket | protocol.c:219-239 | handing a read packet to handle_packet and writing its reply gives Answer of PacketSpec |
| Protocol.Emit | protocol.c:226-239 | the bytes written are EncodeFrame of the reply |
| Protocol.PingExchange | protocol.c:127-282 | PINGREQ `C0 00` from a known client gets `D0 00` and changes nothing |
| Protocol.DisconnectExchange | protocol.c:127-282 | DISCONNECT `E0 00` sends nothing, reports a closed client and leaves the state for the caller to clean |
| Protocol.ServeFrame | protocol.c:127-282 | with the corrected length decoder, any frame sent by a known client is served as its handler says |
| Protocol.DrainStep | protocol.c:307-315 | one outgoing entry always yields a writable PUBLISH; QoS 0 leaves the queue, releasing its message, and QoS 1/2 turn inbound in place; other clients are untouched and the queue stays drainable |
| Protocol.DrainFrom | protocol.c:298-330 | every frame the drain emits fits write_packet's buffer |
| Protocol.DrainEntry | protocol.c:305-329 | one loop step leaves DrainNext and writes the encoded reply |
| Protocol.DrainAt | protocol.c:298-330 | the steps from an entry on write exactly the frames DrainFrom lists and reach the same state |
| Protocol.EncodeAllAppend | protocol.c:317-321 | writing two runs of frames in sequence writes their concatenation |
| Protocol.Drain | protocol.c:284-348 | an unknown fd returns NOEXIST and changes nothing; otherwise the state is DrainFrom's, and the bytes written are its frames one after another |
| Protocol.DrainOutcome | protocol.c:298-330 | after a drain no outgoing entry is left, exactly the QoS 0 ones were removed, the others kept their place, and one frame was sent per outgoing entry |
| Protocol.DrainFrames | protocol.c:298-330 | a drain changes only the drained client, and neither the index nor the handle counter |
| Protocol.DrainQuiet | protocol.c:307-310 | a queue with nothing outgoing drains to nothing |
| Protocol.DrainIdempotent | protocol.c:284-348 | draining a drained queue sends nothing and changes nothing |
| Protocol.ConsistentDrainable | protocol.c:298-330 | under the invariant every session's queue is Drainable, which is what iotbroker_write_packet relies on |
| Protocol.DrainNextKeeps | protocol.c:305-329 | writing one outgoing entry keeps the invariant |
| Protocol.DrainFromKeeps | protocol.c:298-330 | iotbroker_write_packet keeps the invariant |
| Protocol.ServeKeeps | protocol.c:127-282 | iotbroker_read_packet keeps the invariant, whatever bytes arrive |

## Left out

I/O and the rest of the program:
- Sockets: `read` and `write` are modelled on byte sequences. A write always succeeds. The `-1` error of `read`/`write`, partial writes and the `handle_write_error` mapping of protocol.c are not modelled.
- net.c, main.c, memmanager.c and debug.c are not part of this model. Neither are list.h and uthash.h: their lists and hash tables are sequences and maps.
- Memory: allocation never fails, and leaks, `free` and debug printing are left out. Pointers are `Ref`s and `Handle`s; a handle is never reused.
- Will content and retained flags are parsed but not stored. `resend_count` and the `qs` field are dropped.

Undefined behaviour in the source, given a definite meaning here:
- A read past the end of a packet's load returns None, and the handler then closes the client. In the source it reads whatever memory follows.
- A short payload read leaves the zeroed tail of the buffer in place, as the source's memset does. A payload that arrives in several `read` calls is not modelled: one `read` is taken to return all that is available.
- The CONNACK `session_present` byte is uninitialised in the source; it is modelled as 0.
- Two NULL client ids compare equal in the `strcmp` of subscribe and unsubscribe. A client that was freed compares as different.
- Clean of a client leaves its subscriptions behind; fan-out skips such a dangling subscriber (a use-after-free in the source).
- The packet id of a fan-out entry is left unset in the source; it is 0 here, and send_publish overwrites it.
- The `list_del` inside `list_for_each` of iotbroker_write_packet is taken to leave `pos->next` intact, as the Linux list does without poisoning.

Simplified contracts and restrictions:
- Protocol.Serve: a handler failure is reported as CLIENT_CLOSE, because `ret` still holds the type check's SUCESS when the error mapping runs. The session lookup is Table.Get.
- Protocol.Drain: requires every outgoing entry to be waiting to publish, at QoS ≤ 2, with its message stored and holding enough references (Drainable). Any other entry leaves `packet` unset in the source. ConsistentDrainable derives Drainable from the store-wide invariant, which every operation keeps.
- PacketHandle.SendPublish: requires QoS ≤ 2 and the message in the store. The `qos > 2` branch of send_publish is not modelled; fan-out QoS is a MIN of values ≤ 2.
- PacketHandle.HandleSubscribe: requires the packet's remaining length to equal its load length, as iotbroker_read_packet guarantees. The same holds for HandleUnsubscribe.
- PacketHandle.HandleCompletion: requires the client to be in the table, as handle_packet guarantees. The same holds for HandlePubrec and HandlePubrel.
- PacketHandle.UnmatchedAckIgnored: a second PUBREL for the same id is covered only when no entry still awaits that id. Idempotence is not proved when a second matching entry exists.
- PacketHandle.SendSuback: the payload length is the true `2 + n`, not the UINT16-truncated `size` (see Findings).
- Codec.Packet.SetRemainLength: `remain_len` is unbounded. The INT32 wrap of a remaining length is not modelled.
- MessageStore.Registry.Deref: at count 0 it wraps, as ReleasedAtZeroWraps states. The methods do not require count ≥ 1.
- Session.NewClient: the address is stated only when the ip string is shorter than 256 bytes. A longer one is truncated through the UINT8 `ip_len`.
- Session.Table.Auth: the source's assertion that a username or password is given is not required.
- SubTree.Lookups: a topic level that is literally '+' or '#' looks up the same keys as the wildcard. The model reproduces this, since the source does not distinguish the two.
- Topic matching follows the source's prefix pruning: only filters whose every proper prefix has subscribers are reached (LookupsComplete/LookupsSound). It is not full MQTT matching (DeepFilterAloneMisses, HashSkipsParent).
- SubTree.Matches: it is the source's relation, not topic matching as in section 4.7 of MQTT 3.1.1. A filter shallower than the topic that does not end in '#' also matches: "a" and "+" receive a message on "a/b" (ParentFilterGetsChild). LookupsComplete and LookupsSound are stated against this wider relation. A matcher that follows section 4.7 is not modelled.
- MessageStore.Referenced: counts are unbounded. The UINT32 wrap of `refer_count++` past 2^32-1 is not modelled; it would take 2^32 queue entries on one message.
- SubTree.RefsMatch: the store-wide invariant covers the model's operations on values. Its preservation by Session.Table.Add and Session.Table.Clean is proved on the values their contracts name (AddKeeps, CleanKeeps), not inside the methods.

Members that compute a corrected behaviour (see Findings), not the source as written:
- Codec.ReadRemainLength: computes the corrected 4-byte decoder. The source's loop rejects every length from 2097152 on (Findings row protocol.c:163-167; as written: FourthLengthByteRejected).
- Protocol.DecodePacket: uses the corrected length decoder, so it accepts lengths 2097152..268435455 that the source fails on (Findings row protocol.c:163-167).
- Protocol.ReadPacket: computes DecodePacket, with the corrected length decoder (Findings row protocol.c:163-167).
- Protocol.FrameReadsBack: holds for the corrected reader. As written, a frame with remaining length 2097152 or more does not read back (Findings row protocol.c:163-167).
- Protocol.ServeFrame: holds for the corrected reader, like FrameReadsBack. ServeSpec, Serve, PingExchange, DisconnectExchange and ServeKeeps use the same reader.
- SubTree.Index.PubFrom: performs the corrected lookups of Lookups. The source looks up "+/" and "#/" after a live one-byte literal level, when "+/" has no subscribers (Findings row subtree.c:172-177), and overreads its buffer on an empty last level or a live one-byte last level (Findings row subtree.c:216-217). PubLookupsAsWritten models the source's walk.
- SubTree.Index.Pub: leaves Published, which is built on the corrected Lookups, as for PubFrom.
- PacketHandle.ReadCredentialFields: reads the password under its own flag 0x80. The source reads it under the username flag 0x40 (Findings row packet_handle.c:225-233; as written: ParseConnectAsWritten).
- PacketHandle.ReadConnect: computes the corrected ParseConnect. The source accepts level bytes 0x80..0xFF (Findings row packet_handle.c:161-168) and reads the password under flag 0x40 (Findings row packet_handle.c:225-233).
- PacketHandle.HandleConnect: follows ConnectSpec, which is built on the corrected ParseConnect. ConnectFailurePaths, ConnectAccepted and ConnectKeeps use the same parser.
- PacketHandle.ReadConnectFields: reads the password under its own flag 0x80 through ReadCredentialFields. The source reads it under the username flag 0x40 (Findings row packet_handle.c:225-233).
- PacketHandle.ConnectRoundTrip: holds for the corrected ParseConnect only. As written, a CONNECT with flag 0x80 and without 0x40 loses its password, and one with 0x40 and without 0x80 reads past the load (Findings row packet_handle.c:225-233; as written: ParseConnectAsWritten, UsernameWithoutPasswordOverreads).
- PacketHandle.HandleSubscribe: replies with the corrected SUBACK, whose remaining length is the true `2 + n`. As written, 65536 or more filters wrap the UINT16 count and `size` (Findings row packet_handle.c:660-671; as written: SubackLengthWraps).
- PacketHandle.SubscribeRoundTrip: states the corrected SUBACK for any number of filters. As written, it holds only below 65536 filters (Findings row packet_handle.c:660-671).

## Findings

| source | as written | input that shows it | evidently intended | confidence | as-written member | corrected member |
|---|---|---|---|---|---|---|
| protocol.c:163-167 | a fourth length byte is read, and then the loop always fails because `multiplier` now exceeds 128³, so no 4-byte length is ever accepted, although MAX_REMAIN_BYTE_LEN (protocol.h:7) allows 4 | length bytes `80 80 80 01` (2097152) | every length up to 268435455 in up to 4 bytes is accepted | not executed | Codec.FourthLengthByteRejected | Codec.LengthRoundTrip |
| subtree.c:172-177 | after a live level the `'/'` written at the level's end is not cleared; the memset zeroes only the level's own bytes. For a live one-byte literal level the `'+'` lookup therefore reads "+/", and, when "+/" has no subscribers, the `'#'` lookup reads "#/". A longer level leaves a zeroed byte before the `'/'`, so its keys are "+" and "#" | subscribers on "a" and "#", a message on "a/b" | the keys "+" and "#" at every level | not executed | SubTree.StraySlashMissesHash | SubTree.LookupsComplete |
| subtree.c:216-217 | the topic buffer has `strlen(topic) + 1` bytes, but a key built in it can be longer than the topic: a '+' written for an empty level, or a '/' written after a live level and never cleared, adds a byte. When that pushes a key onto the buffer's last byte, the lookup finds no NUL, so strlen and the hash lookup read past the buffer. Two examples: an empty last level puts its '+' into the last byte, and a one-byte live last level puts the '/' after it there. An empty middle level whose '+' key has subscribers does the same deeper down: with subscribers on "a" and "a/+", topic "a//b" fills the 5-byte buffer with "a/+/b" | subscriber on "a", topic "a/" or topic "a" (the examples proved) | every last level is looked up like any other level, in a buffer that holds the longest key | not executed | SubTree.EmptyLastLevelOverreads, SubTree.OneLetterTopicOverreads | SubTree.LookupsSound |
| packet_handle.c:660-671 | send_suback takes the number of filters as UINT16 `size` (counted in a UINT16 at line 510) and sets remain_len to `2 + size` | 65536 filters give remain_len 2 and 65538 payload bytes | remain_len equals the payload length | not executed | PacketHandle.SubackLengthWraps | PacketHandle.SubackCovers |
| packet_handle.c:161-168 | the protocol level is read into an INT8, so bytes 0x80..0xFF are negative and pass the `> 4` check | CONNECT level byte 0x80 | only levels ≤ 4 are accepted; others get return code 1 | not executed | PacketHandle.SignedLevelAccepted | PacketHandle.LevelAboveMaxRejected |
| packet_handle.c:225-233 | the password is read when the username flag 0x40 is set, not the password flag 0x80 | payload `00 04 'M' 'Q' 'T' 'T' 04 40 00 00 00 00 00 00` | the password is read iff flag 0x80 is set | not executed | PacketHandle.UsernameWithoutPasswordOverreads | PacketHandle.ConnectRoundTrip |
