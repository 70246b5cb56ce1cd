# Verified model of the physics-replication wire protocol

This project is a Dafny model of the small wire protocol that the shared
networking crate of physics-replication runs over QUIC streams, with proofs
of what it does. The protocol has three layers:

- **16-bit reader** (`U16Reading`): the incremental reader of one big-endian
  `u16` from partial deliveries (`U16Reader`).
- **Stream purpose headers** (`StreamHeaders`): every stream starts with a
  2-byte big-endian tag. On the receiving side, each connection keeps a table
  from stream id to `Reading` / `HeaderReceived`. A pass accepts new streams
  and reads exactly the missing header bytes of each one. `take_stream` later
  claims a classified stream by its tag. The sending side,
  `HeaderedStreamState`, writes the tag before any data and resumes partial
  writes. The only tag is `StreamHeader::Messages`, which is 0 (`MESSAGES`).
- **Message framing** (`MessageFraming`, `RecvPass`, `MessageRecv`,
  `MessageInbox`, `MessageSend`, `MessageRegistry`):
  - A message travels as `id (u16 BE) | length (u16 BE) | payload`.
  - The receiver is a three-phase state machine (`ReadingId`, `ReadingLength`,
    `ReadingMessage`). Each read asks for exactly the bytes the phase needs.
    Completed payloads go to the back of a FIFO per message id.
  - `deserialize_messages` decodes one id's FIFO into the typed inbox
    `ReceivedMessages<T>`.
  - The sender frames messages into a byte buffer. It gates on congestion
    unless asked to queue, and flushes as much of the buffer as the transport
    accepts.
  - `add_message` hands out ids from a counter.

The transport is modelled by `Transport.Connection`. Each direction has a
queue of streams the peer has opened. Each receive stream has a finite script
of read outcomes: data, end of stream, would block, reset, or another error.
Writes meet a script of capacities, and the bytes each send stream has
accepted are logged. A read consumes one scripted outcome. An exhausted
script reads as "would block", and a chunk longer than requested is cut to
the request. The serializer is a pair of parameters, `encode` and `decode`.

Where the protocol works by changing state in place, the model is a class:
`U16Reader`, `RecvStreamHeaders`, `HeaderedStreamState`, `MessageRecvBuffers`,
`ReceivedMessages`, `MessageSendStreamState` and `MessageRegistry`. Each
method is proved against pure specification functions:

- `ReadHeader`: the header reading loop of one stream.
- `ReadMessages`: the message reading loop of one stream.
- `Passes`, `StatesAfter`, `RestAfter`, `Emitted` and `Finished`: one pass
  over every stream, in whatever order the map is iterated.
- `Absorb` and `Assemble`: the 16-bit reader.
- `DecodeAll`: decoding one queue.
- `Assigned`: the registry.

The properties are proved about these functions as lemmas.

The receive state machine has a defect, recorded under Findings: after a
completed payload it stays in the payload phase. `Step` and `ReadMessages`
therefore take a `Revision`. `AsWritten` is the code as it stands;
`Intended` goes back to reading an id. The imperative pass takes the
revision as a parameter. The round-trip and end-to-end results (`RoundTrip`,
`ScriptRoundTrip`, `Delivered`) are proved for `Intended`. For `AsWritten`
the model proves what still holds: the two revisions agree up to the first
completed message, a single frame with a non-empty payload round-trips, and
after that first message only payloads are read. The misreading of a second
frame and the repeated empty message are proved for `AsWritten` as concrete
cases.

## Model

| member | source | states |
|---|---|---|
| Wire.FromToBE | crates/common/src/networking/u16_reader.rs:28 | decoding a value's big-endian bytes gives back the value |
| Wire.ToFromBE | crates/common/src/networking/u16_reader.rs:28 | encoding the value of two bytes gives back those two bytes |
| Wire.ToBEInjective | crates/common/src/networking/messages.rs:356-360 | distinct `u16` values have distinct big-endian encodings |
| Transport.Clip | crates/common/src/networking/messages.rs:172 | a read returns at most the bytes requested, taken from the head of what was available; other outcomes pass through unchanged |
| Transport.WriteResult | crates/common/src/networking/stream_headers.rs:159 | a write accepts at most the bytes offered, and fails exactly when the transport refuses it |
| Transport.Connection.AcceptStream | crates/common/src/networking/stream_headers.rs:40 | yields the next stream the peer opened in that direction, removing it from that direction's queue only; `None` exactly when that queue is empty |
| Transport.Connection.ReadRecvStream | crates/common/src/networking/messages.rs:172 | the outcome is the stream's next scripted read, cut to the request; only that stream's script advances |
| Transport.Connection.WriteSendStream | crates/common/src/networking/stream_headers.rs:170 | the accepted prefix of the data is appended to that stream's delivered bytes and to no other stream's |
| U16Reading.Absorb | crates/common/src/networking/u16_reader.rs:15-21 | the reader keeps exactly `min(|data|, 2 - |held|)` bytes from the head of the data after what it held, and never more than 2 |
| U16Reading.Assemble | crates/common/src/networking/u16_reader.rs:23-29 | a value exists exactly when two bytes are held, and its big-endian encoding is those bytes |
| U16Reading.AbsorbTwice | crates/common/src/networking/u16_reader.rs:15-21 | two successive writes keep the same bytes as one write of both pieces |
| U16Reading.AbsorbAllIsAbsorb | crates/common/src/networking/u16_reader.rs:15-21 | chunking invariance: any split of the bytes into successive writes leaves what one write of all of them leaves |
| U16Reading.ChunkedFinish | crates/common/src/networking/u16_reader.rs:15-29 | a fresh reader fed any split of at least two bytes finishes with the big-endian value of the first two |
| U16Reading.U16Reader.constructor | crates/common/src/networking/u16_reader.rs:7-9 | a new reader holds nothing and needs 2 bytes |
| U16Reading.U16Reader.BytesNeeded | crates/common/src/networking/u16_reader.rs:11-13 | needed plus held is always 2, and nothing is needed exactly when `Finish` yields a value |
| U16Reading.U16Reader.Write | crates/common/src/networking/u16_reader.rs:15-21 | appends `min(|data|, bytes_needed)` head bytes of the data; the reader stays within 2 bytes; a full reader is unchanged |
| U16Reading.U16Reader.Finish | crates/common/src/networking/u16_reader.rs:23-29 | `None` unless exactly 2 bytes are held; then the big-endian value of those bytes |
| StreamHeaders.InsertReading | crates/common/src/networking/stream_headers.rs:39-49 | every accepted stream is inserted as `Reading` with its direction and an empty buffer; other entries are kept; the table stays well formed |
| StreamHeaders.ReadHeader | crates/common/src/networking/stream_headers.rs:58-101 | the loop keeps the direction; a stream that stays `Reading` holds its old bytes plus what it read, under 2 bytes; a classified stream's tag encodes exactly those bytes; a fatal error leaves it `Reading` |
| StreamHeaders.HeaderRecognised | crates/common/src/networking/stream_headers.rs:65-78 | once the second byte of a tag arrives, the stream is classified with that tag and its direction, and nothing after the header is read |
| StreamHeaders.HeaderByteByByte | crates/common/src/networking/stream_headers.rs:58-78 | a header delivered as two one-byte reads classifies the stream with that tag |
| StreamHeaders.RecvStreamHeaders.constructor | crates/common/src/networking/stream_headers.rs:4-7 | a connection's header table starts empty |
| StreamHeaders.RecvStreamHeaders.AcceptStreams | crates/common/src/networking/stream_headers.rs:40-48 | accepts every pending stream of one direction, in order, as a fresh `Reading` entry; the other direction's queue is untouched |
| StreamHeaders.RecvStreamHeaders.ReadStreamHeader | crates/common/src/networking/stream_headers.rs:58-101 | the entry, the stream's remaining reads and the fatal flag are those of `ReadHeader`; other streams' reads are untouched |
| StreamHeaders.RecvStreamHeaders.ReadStreamHeaders | crates/common/src/networking/stream_headers.rs:25-106 | accepts all pending streams (unidirectional first), then runs the reading pass and reports the order it visited the streams in: the pass succeeds exactly when no stream's loop meets a fatal error; a successful pass visited every stream with no fatal loop; an aborted one stopped at the first fatal stream, every earlier one being non-fatal; each visited stream holds its loop's outcome with its reads consumed up to there, and every unvisited stream keeps its entry and its pending reads; no entry is removed |
| StreamHeaders.RecvStreamHeaders.ReadAcceptedHeaders | crates/common/src/networking/stream_headers.rs:51-103 | the reading pass over the table in an undetermined order, returned as a visiting order without repeats: classified entries are skipped; each visited stream holds its loop's outcome with its reads consumed up to there; the pass returns at the first stream whose loop is fatal, after non-fatal streams only, and otherwise visits every stream; unvisited streams keep entry and reads; it succeeds exactly when no stream's loop is fatal |
| StreamHeaders.RecvStreamHeaders.TakeStream | crates/common/src/networking/stream_headers.rs:109-128 | returns `(id, dir)` only for an entry classified with the tag and removes exactly that entry; `None` only when no entry matches, with the table unchanged |
| StreamHeaders.HeaderedStreamState.constructor | crates/common/src/networking/stream_headers.rs:138-143 | a new sender owes the tag's two big-endian bytes |
| StreamHeaders.HeaderedStreamState.Advance | crates/common/src/networking/stream_headers.rs:161-167 | the accepted count leaves the front of the owed header; an emptied header becomes `None` |
| StreamHeaders.HeaderedStreamState.WriteHeader | crates/common/src/networking/stream_headers.rs:158-168 | the owed header is offered to one transport write: exactly the count the transport accepts leaves the front of it, a refusal is passed on with the transport's error and the header left owed, and one capacity is used up; `Ok(true)` exactly when the whole header is out; the delivered bytes followed by the owed header bytes do not change |
| StreamHeaders.HeaderedStreamState.Write | crates/common/src/networking/stream_headers.rs:153-171 | the result, the header still owed and the capacities left are exactly those of `HeaderedWrite`; so while header bytes are owed 0 is reported, and once none are owed the result is the transport's for the data; the delivered bytes plus the owed header grow by exactly the data reported written |
| StreamHeaders.HeaderedWrite | crates/common/src/networking/stream_headers.rs:152-171 | one `write` against the transport's capacities: the count reported never exceeds the data, data is reported written only once no header is owed, and what stays owed is a tail of what was owed |
| StreamHeaders.HeaderFirst | crates/common/src/networking/stream_headers.rs:158-170 | the bytes one `write` hands to the transport, the accepted header bytes then the accepted data bytes, are a prefix of the header followed by the data, and what is left of both follows them; data goes out only after the whole header |
| MessageFraming.Frame | crates/common/src/networking/messages.rs:355-363 | the frame of a message is four bytes longer than its payload |
| MessageFraming.FrameParts | crates/common/src/networking/messages.rs:355-363 | a frame (`Frame`) is the id, then the payload length, both big-endian, then the payload, four bytes longer than the payload |
| MessageFraming.FrameSplit | crates/common/src/networking/messages.rs:355-363 | frames are self-delimiting: a frame followed by anything determines both the message and the rest |
| MessageFraming.FlattenInjective | crates/common/src/networking/messages.rs:355-363 | different message sequences never travel as the same bytes |
| MessageFraming.Need | crates/common/src/networking/messages.rs:164-170 | the id and length phases ask for the reader's missing bytes (1 or 2); the payload phase asks for length minus bytes held |
| MessageFraming.Step | crates/common/src/networking/messages.rs:195-238 | one chunk keeps the state sound; it completes a message exactly when the payload reaches its length, and then that message is the id and the buffered bytes and the state is `AfterMessage`: as written, the payload phase with the same id and length and an empty buffer; as intended, reading a fresh id; otherwise the chunk is appended to what the state holds |
| MessageFraming.ReadMessages | crates/common/src/networking/messages.rs:163-241 | one stream's loop ends in a sound state, never both finished and failed, having consumed part of its script |
| MessageFraming.StepConserves | crates/common/src/networking/messages.rs:195-238 | as intended, one read loses and duplicates nothing: the held bytes plus the chunk are the completed frame plus the bytes now held |
| MessageFraming.Conservation | crates/common/src/networking/messages.rs:162-241 | as intended, the held bytes plus everything a pass read are exactly the frames it completed plus the bytes it now holds |
| MessageFraming.Settle | crates/common/src/networking/messages.rs:195-238 | frames completed plus the bytes a sound state holds that make up the frames of `b` mean all of `b` was completed, except possibly a final empty-payload message still awaiting its zero-byte read |
| MessageFraming.RoundTrip | crates/common/src/networking/messages.rs:164-238 | as intended, whatever the chunking, a fresh stream that has read the frames of some messages has completed exactly those messages, in order, except a final empty payload awaiting its zero-byte read |
| MessageFraming.FrameSteps | crates/common/src/networking/messages.rs:195-238 | reading an id moves to the length phase, reading a length moves to the payload phase with that id, and reading the payload completes the message |
| MessageFraming.OneFrame | crates/common/src/networking/messages.rs:164-238 | in either revision, one frame read whole emits exactly that message and consumes its frame |
| MessageFraming.ScriptRoundTrip | crates/common/src/networking/messages.rs:164-238 | as intended, the frames of any message sequence, each read as asked, decode to exactly that sequence, consume exactly its bytes and end reading an id |
| MessageFraming.SingleFrame | crates/common/src/networking/messages.rs:164-238 | in either revision, the frame of a single message yields exactly that message |
| MessageFraming.AsWrittenSticky | crates/common/src/networking/messages.rs:221-238 | as written, a stream in the payload phase stays there with the same id and length, and every later message gets that id and length |
| MessageFraming.RevisionsAgree | crates/common/src/networking/messages.rs:195-238 | the code as written and as intended read alike until a message completes: with no message completed the two passes are identical, and otherwise both complete the same first message |
| MessageFraming.AsWrittenStickyBytes | crates/common/src/networking/messages.rs:221-238 | as written, a stream in the payload phase reads only payloads: the bytes it held and read are the payloads it completed followed by the bytes it now holds |
| MessageFraming.AsWrittenBytes | crates/common/src/networking/messages.rs:195-238 | as written, once a message completes, the bytes held and read are its frame, then only payloads of the same length as its own, then the bytes held: no later id or length is ever read |
| MessageFraming.AsWrittenSingleFrame | crates/common/src/networking/messages.rs:195-238 | as written, one frame with a non-empty payload, read from a fresh stream in any chunking, yields exactly that message |
| MessageFraming.AsWrittenRepeatsEmpty | crates/common/src/networking/messages.rs:221-238 | as written, the frame of `(0, [])` followed by three zero-byte reads yields the empty message three times; as intended, once |
| MessageFraming.AsWrittenOneByte | crates/common/src/networking/messages.rs:221-238 | as written, in the payload phase for one-byte payloads, each one-byte read is a complete message |
| MessageFraming.AsWrittenTail | crates/common/src/networking/messages.rs:221-238 | as written, the five byte reads of the second frame become five one-byte messages of the first message's id |
| MessageFraming.AsWrittenMisreadsSecondFrame | crates/common/src/networking/messages.rs:221-238 | as written, the bytes of two frames yield six messages, all with the first message's id, instead of the two sent |
| MessageFraming.IntendedReadsSecondFrame | crates/common/src/networking/messages.rs:195-238 | as intended, the same reads complete exactly the two messages that were sent |
| RecvPass.Push | crates/common/src/networking/messages.rs:234-238 | a completed payload goes to the back of its id's queue; every other id's queue is untouched |
| RecvPass.PushAllQueues | crates/common/src/networking/messages.rs:234-238 | pushing a run of messages appends to each id's queue exactly that id's payloads, in order |
| RecvPass.Passes | crates/common/src/networking/messages.rs:162-242 | each stream's loop in one pass, from its state and its script; every loop leaves a sound state |
| RecvPass.Verdict | crates/common/src/networking/messages.rs:190-192 | the pass succeeds exactly when no stream's loop meets a fatal error |
| MessageRecv.Claim | crates/common/src/networking/messages.rs:134-139 | claimed streams start reading an id; every other stream keeps its state |
| MessageRecv.MessageRecvBuffers.constructor | crates/common/src/networking/messages.rs:69-73 | a connection starts with no message streams and no queued payloads |
| MessageRecv.MessageRecvBuffers.TakeMessageStreams | crates/common/src/networking/messages.rs:122-142 | exactly the streams classified as message streams leave the header table, and each starts reading an id |
| MessageRecv.MessageRecvBuffers.ReadMessageStream | crates/common/src/networking/messages.rs:163-241 | one stream's loop: its new state, the payloads pushed, its remaining reads and how it stopped are those of `ReadMessages`; other streams' reads are untouched |
| MessageRecv.MessageRecvBuffers.VisitStream | crates/common/src/networking/messages.rs:162-242 | running one not yet visited stream's loop extends the account of the pass by that stream |
| MessageRecv.MessageRecvBuffers.ReadAllMessageStreams | crates/common/src/networking/messages.rs:160-242 | every stream's loop runs at most once, in some order; states, reads left and queues are those loops' outcomes; an error means the last stream visited met a fatal error and no earlier one did, so the pass stopped at the first fatal stream; `finished` lists the ended or reset streams, in order |
| MessageRecv.MessageRecvBuffers.RemoveStreams | crates/common/src/networking/messages.rs:244-246 | exactly the listed streams are removed |
| MessageRecv.MessageRecvBuffers.ReadMessageStreams | crates/common/src/networking/messages.rs:144-250 | succeeds exactly when no stream's loop meets a fatal error; then every stream was read and exactly the finished ones are removed; an abort stopped at the first fatal stream, after non-fatal ones only, and removes nothing |
| MessageInbox.DecodeAll | crates/common/src/networking/messages.rs:265-278 | decoded values are never more than the payloads; as many when all decode; none when none decode |
| MessageInbox.DecodeAllAppend | crates/common/src/networking/messages.rs:265-278 | decoding a longer queue decodes its parts in turn |
| MessageInbox.DecodeRoundTrip | crates/common/src/networking/messages.rs:265-278 | with a codec whose decoding inverts its encoding, the payloads of some values decode to those values, in order |
| MessageInbox.Delivered | crates/common/src/networking/messages.rs:164-278 | end to end, as intended: values sent as frames of one id, read, queued and decoded, come out as the values sent, in order |
| MessageInbox.ReceivedMessages.constructor | crates/common/src/networking/messages.rs:113-118 | a connection's inbox starts empty |
| MessageInbox.ReceivedMessages.Next | crates/common/src/networking/messages.rs:287-289 | the oldest message leaves the inbox; `None` exactly when the inbox is empty |
| MessageInbox.ReceivedMessages.Drain | crates/common/src/networking/messages.rs:283-285 | yields all messages oldest first and leaves the inbox empty |
| MessageInbox.DeserializeMessages | crates/common/src/networking/messages.rs:252-280 | the id's raw queue is emptied and what decodes from it is appended to the inbox in queue order; an id with no queue changes nothing |
| MessageSend.MessageSendStreamState.constructor | crates/common/src/networking/messages.rs:299-304 | a new sender owes the message-stream header and buffers nothing |
| MessageSend.MessageSendStreamState.Flush | crates/common/src/networking/messages.rs:317-325 | the buffer is written through the headered stream: the result, the bytes that leave the front of the buffer, the header still owed and the capacities left are those of `HeaderedWrite` on the buffer; an error leaves the buffer; what the stream carries does not change |
| MessageSend.MessageSendStreamState.Enqueue | crates/common/src/networking/messages.rs:355-363 | the message's frame is appended to the buffer |
| MessageSend.MessageSendStreamState.Send | crates/common/src/networking/messages.rs:355-367 | the frame joins the buffer and the buffer is flushed: the result, what is left of the buffer with the frame, the header still owed and the capacities left are those of `HeaderedWrite`; what the stream carries grows by the frame; an error leaves the frame in the buffer |
| MessageSend.MessageSendStreamState.Write | crates/common/src/networking/messages.rs:334-368 | a congested stream refuses an unqueued message with nothing changed; otherwise the frame is appended to what the stream carries and the buffer with the frame is flushed, with the result, the rest of the buffer, the header still owed and the capacities left those of `HeaderedWrite`; the header followed by the frames of the messages taken on stays equal to what the stream carries |
| MessageSend.UncongestedMeansWritten | crates/common/src/networking/messages.rs:311-314 | a stream is uncongested (`MessageSendStreamState.Uncongested`, an empty buffer) exactly when its whole buffer has been written, so all it carries is what the transport accepted and header bytes still owed; a faithful uncongested stream has handed every message it took on to the transport, apart from those header bytes |
| MessageRegistry.Assigned | crates/common/src/networking/messages.rs:32-40 | exactly the types added have ids |
| MessageRegistry.AssignedIsLast | crates/common/src/networking/messages.rs:32-40 | a type's id is the position of its last addition |
| MessageRegistry.AssignedInjective | crates/common/src/networking/messages.rs:32-40 | two different types never share an id |
| MessageRegistry.MessageRegistry.constructor | crates/common/src/networking/messages.rs:16-17 | the counter starts at 0 with no type added |
| MessageRegistry.MessageRegistry.AddMessage | crates/common/src/networking/messages.rs:26-49 | the type gets the current counter, the counter moves on by 1, and the new id is above every id given before |

## Left out

- The Bevy systems, queries and commands, the `insert_*` systems, plugin and system registration, and `log_connections` are left out. They are scheduling and wiring; the model handles one connection's state directly.
- The QUIC library (`accept_stream`, `read_recv_stream`, `write_send_stream`, endpoint and connection lookup) is left out. It is replaced by the scripted `Transport.Connection`. The lookup errors raised with `?` are not modelled.
- A read of a finished or reset stream in the source can return the same outcome forever. The header loop does not `break` after `End` or `Reset` (stream_headers.rs:80-96), so the source can spin. In the model each read consumes one scripted outcome, so the loop ends when the script runs out.
- The same bound covers a zero-length payload under the as-written receiver. The source can complete an empty message again on every zero-byte read, without end; the model completes at most one per scripted outcome (`MessageFraming.AsWrittenRepeatsEmpty` shows three).
- `failed_streams` is collected in the header pass (`ReadStreamHeader` returns it) and then dropped, as in the source. No header entry is ever removed by the pass.
- The iteration order of the source's `HashMap`s is not determined. The pass order is a ghost out-parameter (`order`). `take_stream` returns some matching entry, and nothing is proved about which.
- `bincode` is left out. `encode` and `decode` are parameters. The serialize-failure panic becomes totality of `encode`; a decoding failure is `None`.
- Logging (`warn!`, `error!`) is left out, including the warning about a bidirectional message stream.
- `MessageSend.MessageSendStreamState.Write`: a payload of 65536 bytes or more panics in the source (`expect`). It is a precondition here.
- `MessageRegistry.MessageRegistry.AddMessage`: in the source, the `u16` counter overflowing panics in debug builds and wraps to 0 in release builds, so the next type would reuse id 0. The precondition `nextId < 0xFFFF` excludes both. Message types are identified by a name instead of the `MessageId<T>` resource with its `PhantomData`.
- The `stream_id` getters are left out; `streamId` is a field.
- The 16-bit readers inside `MessageRecvBufferState` are represented by the bytes they hold. The state machine uses `Absorb` and `Assemble`, which also specify `U16Reader`.
- `crates/common/src/simulation/mod.rs` is a physics plugin and is not part of this model.

## Findings

| source | as written | input that shows it | evidently intended | confidence | as-written member | corrected member |
|---|---|---|---|---|---|---|
| crates/common/src/networking/messages.rs:221-238 | after a payload is pushed, `std::mem::take` only empties the buffer: the stream stays in `ReadingMessage` with the same id and length, so the next frame's id, length and payload bytes are read as further payloads | frames of `(0, [7])` and `(1, [8])` on one stream, the second delivered one byte at a time: six messages of id 0 come out (`[7]`, `[0]`, `[1]`, `[0]`, `[1]`, `[8]`) instead of the two sent | after a payload is pushed the stream goes back to `ReadingId` with a fresh reader, so every frame's id and length are read | high; not executed | MessageFraming.AsWrittenMisreadsSecondFrame | MessageFraming.ScriptRoundTrip |
