# rust-http2 framing and write path, modelled in Dafny

This project models the framing and outgoing write path of `httpbis`, an HTTP/2 client and
server library written in Rust. The model covers these parts:

- **Write buffer.** `WriteBuffer` and `WriteBufferTailVec` (`src/codec/write_buffer.rs`): a byte
  vector with a read cursor. It supports append, advance, compaction, and patching in place
  through a tail view.
- **Frame codecs.** Each has a parser (`from_raw`) and a serialiser (`serialize_into`):
  - DATA (section 6.1 of RFC 7540), in `src/solicit/frame/data.rs`;
  - HEADERS, in `src/solicit/frame/headers.rs`. This includes stream dependencies (section 5.3
    of RFC 7540) and the split of a header block into HEADERS and CONTINUATION frames
    (section 6.10 of RFC 7540);
  - RST_STREAM (section 6.4 of RFC 7540), in `src/solicit/frame/rst_stream.rs`.
- **Shared frame helpers.** The codecs call helpers that live outside the core files. They are
  modelled from RFC 7540:
  - the 9-octet frame header (section 4.1);
  - the pad-length rule (section 6.1);
  - the error codes (section 7).
- **Connection write side** (`src/common/conn_write.rs`):
  - how one part becomes frames: DATA payloads are cut at the maximum frame size, and
    END_STREAM goes on the last frame only;
  - the buffering walk over writable streams, which stops once 0x8000 octets are queued;
  - the enqueue and end-of-stream handlers;
  - the GOAWAY exit decision.
- **Client connection** (`src/client/conn.rs`):
  - the response-header state machine of `process_headers`: initial headers, 1xx informational
    headers, and trailers (section 8.1 of RFC 7540);
  - the order in which `process_start` queues a request's parts.
- **Stream queue** (`src/common/stream_queue_sync.rs`): the queue between a stream's handler
  and whoever pulls its parts. The receiver latches at the end of the stream.

Where the Rust code changes shared state, the model changes state too. `WriteBuffer`, the
multi-frame encoder, `Conn` and the stream-queue channel are classes whose methods have
`modifies` clauses. Frames are owned values that nothing aliases, so they are datatypes. Their
in-place setters (`set_flag` and `set_padding`, which take `&mut self`) become functional
updates that return the changed frame.

Each stateful method is specified by a pure function, and lemmas prove what the source promises
about that function:

- round trips: parse after serialise, for DATA, HEADERS, RST_STREAM, the frame header and the
  stream dependency;
- the exact wire layout of each frame;
- the split of a header block into frames;
- the split of a DATA payload into frames;
- the order in which buffered frames are queued, and that each stream gives up a prefix of
  what it has to yield and keeps the rest;
- the stage machine for response headers;
- the behaviour of the stream-queue receiver over any run of polls.

## Model

| member | source | states |
|---|---|---|
| Bytes.U32RoundTrip | src/solicit/frame/rst_stream.rs:82 | reading four big-endian octets back after writing a 32-bit value gives the value |
| Bytes.BeRoundTrip | src/solicit/frame/rst_stream.rs:110-113 | writing back the value read from any four octets gives those octets |
| Bytes.Zeros | src/solicit/frame/data.rs:224 | the padding written is exactly n zero octets |
| Frame.PackHeader | src/solicit/frame/data.rs:219 | a frame header packs into 9 octets |
| Frame.UnpackHeader | src/solicit/frame/data.rs:161-166 | an unpacked length fits 24 bits; the stream id has the reserved bit cleared |
| Frame.HeaderRoundTrip | src/solicit/frame/data.rs:412-428 | unpacking a packed header gives it back, for a length below 2^24 and a 31-bit stream id |
| Frame.RawFrameFromBytes | src/solicit/frame/data.rs:245-259 | a raw frame's payload is everything after the 9 header octets |
| Frame.ReadBackFrame | src/solicit/frame/data.rs:245-259 | reading a packed header and its payload back gives that header and payload |
| Frame.ParsePaddedPayload | src/solicit/frame/data.rs:143-145 | unpadded: the whole payload, pad 0; padded: empty is PadLengthMissing, pad length >= payload length is PaddingTooLong; otherwise the data sits between the pad-length octet and the padding |
| Frame.PaddedPayloadRoundTrip | src/solicit/frame/data.rs:273-287 | pad length, data and padding, as written, parse back to that data and pad length |
| Frame.ErrorCode.Code | src/solicit/frame/rst_stream.rs:32-38 | a known error code's wire value is at most 0xd |
| Frame.ErrorCodeFromRaw | src/solicit/frame/rst_stream.rs:49-53 | a raw code up to 0xd maps to the code with that value; any other maps to INTERNAL_ERROR |
| Frame.ErrorCodeRoundTrip | src/solicit/frame/rst_stream.rs:49-53 | mapping a known code's wire value back gives the code |
| WriteBuffers.WriteBuffer.Bytes | src/codec/write_buffer.rs:18-20 | the unread octets number data.len() - position |
| WriteBuffers.WriteBuffer.constructor | src/codec/write_buffer.rs:29-31 | a new buffer is empty with the cursor at 0 |
| WriteBuffers.WriteBuffer.Remaining | src/codec/write_buffer.rs:13-16 | remaining() is the number of unread octets |
| WriteBuffers.WriteBuffer.Advance | src/codec/write_buffer.rs:22-25 | needs cnt <= remaining(); exactly the first cnt unread octets are consumed, and the vector is unchanged |
| WriteBuffers.WriteBuffer.Compact | src/codec/write_buffer.rs:41-44 | the vector becomes the unread octets and the cursor 0 |
| WriteBuffers.WriteBuffer.Reserve | src/codec/write_buffer.rs:33-39 | the unread octets never change; compaction happens only when room was short |
| WriteBuffers.WriteBuffer.ExtendFromSlice | src/codec/write_buffer.rs:46-50 | the unread octets become the old ones followed by d |
| WriteBuffers.WriteBuffer.ExtendFromIter | src/codec/write_buffer.rs:64-68 | compacts, then the vector is the old unread octets followed by d |
| WriteBuffers.WriteBuffer.IntoVec | src/codec/write_buffer.rs:78-83 | the vector returned is exactly the unread octets |
| WriteBuffers.WriteBuffer.TailVec | src/codec/write_buffer.rs:70-75 | the tail view is over this buffer's vector and cursor |
| WriteBuffers.WriteBuffer.WriteHeader | src/solicit/frame/data.rs:219 | appends the 9 packed header octets |
| WriteBuffers.WriteBuffer.WritePadding | src/solicit/frame/data.rs:224 | appends n zero octets |
| WriteBuffers.WriteBuffer.WriteU32 | src/solicit/frame/rst_stream.rs:112 | appends the big-endian encoding of a 32-bit value |
| WriteBuffers.WriteBufferTailVec.constructor | src/codec/write_buffer.rs:70-75 | the view is over the given buffer |
| WriteBuffers.WriteBufferTailVec.Remaining | src/codec/write_buffer.rs:98-101 | the number of unread octets of the underlying buffer |
| WriteBuffers.WriteBufferTailVec.PatchBuf | src/codec/write_buffer.rs:104-107 | needs the range in bounds; overwrites exactly the octets pos..pos+\|d\| after the cursor; length, cursor and all other octets unchanged |
| WriteBuffers.WriteBufferTailVec.ExtendFromSlice | src/codec/write_buffer.rs:109-113 | the unread octets become the old ones followed by d |
| WriteBuffers.WriteBufferTailVec.Reserve | src/codec/write_buffer.rs:115-121 | the unread octets never change |
| WriteBuffers.WriteBufferTailVec.Compact | src/codec/write_buffer.rs:123-126 | the vector becomes the unread octets and the cursor 0 |
| DataFrames.DataFrame.SetFlag | src/solicit/frame/data.rs:148-150 | the flag is set and every other bit, unknown ones included, is kept; data, stream and padding unchanged |
| DataFrames.DataFrame.SetPadding | src/solicit/frame/data.rs:115-118 | Padded is set, the pad length recorded, END_STREAM and other bits kept |
| DataFrames.DataFrame.PayloadLen | src/solicit/frame/data.rs:120-130 | the payload is never shorter than the data and at most 256 octets longer (pad-length octet and padding); it is the data alone exactly when the frame is not padded |
| DataFrames.GetHeaderReadsBack | src/solicit/frame/data.rs:206-214 | the header get_header() builds (payload length, type 0x0, the flags, the stream) packs into 9 octets and unpacks to itself whenever the length fits 24 bits and the stream 31 bits |
| DataFrames.New | src/solicit/frame/data.rs:78-88 | a frame on the given stream with no data, no flags (so neither END_STREAM nor Padded) and no padding; payload length 0; it round-trips iff the stream id is nonzero and fits 31 bits |
| DataFrames.WithData | src/solicit/frame/data.rs:94-101 | a frame on the given stream carrying exactly the data, with no flags and no padding; payload length \|data\|; it round-trips iff the stream id is nonzero and 31-bit and the data fits 24 bits |
| DataFrames.FromRaw | src/solicit/frame/data.rs:159-194 | wrong type or a length mismatch is InternalError; stream 0 is StreamIdMustBeNonZero; it succeeds exactly when these pass and the padding rule holds; then get_header() is the received header, unknown flag bits included, and the data excludes the pad-length octet and the padding |
| DataFrames.SerializeInto | src/solicit/frame/data.rs:218-228 | appends exactly the frame's wire form |
| DataFrames.SerializeLayout | src/solicit/frame/data.rs:412-475 | the wire form is the header announcing the payload length, then (padded) the pad length, the data and that many zeros, or (unpadded) just the data |
| DataFrames.RoundTrip | src/solicit/frame/data.rs:245-287 | parsing the serialised frame gives the frame back |
| DataFrames.NullPaddingDiffers | src/solicit/frame/data.rs:479-501 | padding of length 0 adds one zero octet and one to the payload length; unpadded is just the data |
| RstStream.RstStreamFrame.ErrorCode | src/solicit/frame/rst_stream.rs:49-53 | known codes are interpreted as themselves; unknown ones read as INTERNAL_ERROR |
| RstStream.RstStreamFrame.GetHeader | src/solicit/frame/rst_stream.rs:99-106 | length 4, type 0x3, the stored flags and stream |
| RstStream.New | src/solicit/frame/rst_stream.rs:32-38 | a frame on the given stream with no flags, whose code interprets as the given code and whose raw code is that code's value |
| RstStream.WithRawErrorCode | src/solicit/frame/rst_stream.rs:41-47 | the raw code is kept unchanged, even when unknown |
| RstStream.NewIsRawOfCode | src/solicit/frame/rst_stream.rs:211-216 | a frame built from a code equals one built from its raw value |
| RstStream.FromRawAsWritten | src/solicit/frame/rst_stream.rs:65-89 | panics exactly when the header passes every check but the payload is shorter than 4 octets |
| RstStream.ShortPayloadPanics | src/solicit/frame/rst_stream.rs:72-82 | a header saying 4 octets over a 2-octet payload panics |
| RstStream.FromRaw | src/solicit/frame/rst_stream.rs:65-89 | checks in the source's order: a header length other than 4 or a type other than 0x3 is InternalError, then stream 0 is StreamIdMustBeNonZero, then a payload not of 4 octets is InternalError; it succeeds exactly when all pass, with the big-endian payload as the code and the header reading back; it gives what the code as written gives wherever that neither panics nor accepts a longer payload, and InternalError for a longer payload |
| RstStream.LongPayloadAccepted | src/solicit/frame/rst_stream.rs:81-88 | a header saying 4 octets over a 5-octet payload: the code as written returns code 1 from the first four octets, the corrected parser returns InternalError |
| RstStream.SerializeInto | src/solicit/frame/rst_stream.rs:109-113 | appends exactly the frame's wire form |
| RstStream.SerializeLayout | src/solicit/frame/rst_stream.rs:181-209 | 13 octets: the header announcing 4 octets of type 0x3, then the raw code big-endian |
| RstStream.RoundTrip | src/solicit/frame/rst_stream.rs:109-113 | parsing the serialised frame gives it back, unknown codes and flags included |
| HeadersFrames.StreamDependency.Serialize | src/solicit/frame/headers.rs:121-130 | 5 octets, the weight last; the top bit of octet 0 is the exclusive bit |
| HeadersFrames.ParseDependency | src/solicit/frame/headers.rs:87-104 | exclusive iff bit 7 of octet 0; the id is below 2^31; the weight is octet 4 |
| HeadersFrames.DependencyRoundTrip | src/solicit/frame/headers.rs:550-597 | parse(serialize(d)) == d for every d with a 31-bit id |
| HeadersFrames.DependencyBytesRoundTrip | src/solicit/frame/headers.rs:598-626 | serialize(parse(b)) == b for every 5 octets b |
| HeadersFrames.HeadersFrame.SetFlag | src/solicit/frame/headers.rs:225-227 | the flag is set and every other bit kept; nothing else changes |
| HeadersFrames.HeadersFrame.SetPadding | src/solicit/frame/headers.rs:198-201 | Padded is set, the pad length recorded, other bits kept |
| HeadersFrames.HeadersFrame.PayloadLen | src/solicit/frame/headers.rs:203-218 | the payload is never shorter than the fragment and at most 261 octets longer; Priority adds at least 5 octets and Padded at least 1 + pad length; it is the fragment alone exactly when neither flag is set |
| HeadersFrames.GetHeaderReadsBack | src/solicit/frame/headers.rs:309-318 | the header get_header() builds (payload length, type 0x1, the flags, the stream) packs into 9 octets and unpacks to itself whenever the length fits 24 bits and the stream 31 bits |
| HeadersFrames.New | src/solicit/frame/headers.rs:150-159 | a frame on the given stream carrying the fragment, with no flags, no dependency and no padding; payload length is the fragment length; it round-trips iff the stream id is nonzero and 31-bit and the fragment fits 24 bits |
| HeadersFrames.WithDependency | src/solicit/frame/headers.rs:168-184 | a frame on the given stream carrying the fragment and exactly the given dependency; Priority is its only flag, no padding; payload length is the fragment length plus 5; it round-trips iff the ids fit 31 bits, the stream is nonzero and does not depend on itself, and the payload fits 24 bits |
| HeadersFrames.FromRawAsWritten | src/solicit/frame/headers.rs:244-297 | panics exactly when the header checks pass, Priority is set and fewer than 5 octets are left after the padding |
| HeadersFrames.PriorityWithoutDependencyPanics | src/solicit/frame/headers.rs:277-279 | a Priority HEADERS frame with an empty payload panics, and so does a padded one whose 4 octets leave no room |
| HeadersFrames.FromRaw | src/solicit/frame/headers.rs:244-297 | wrong type or length mismatch is InternalError, stream 0 is StreamIdMustBeNonZero; a success reads back its header, has a dependency iff Priority and never on its own stream, and its padding, dependency and fragment reassemble the payload; it agrees with the code as written wherever that does not panic, and gives PriorityTooShort where it does |
| HeadersFrames.SerializeInto | src/solicit/frame/headers.rs:322-342 | appends exactly the frame's wire form: header, [pad length], [dependency], fragment, [padding] |
| HeadersFrames.SerializeLength | src/solicit/frame/headers.rs:205-218 | the wire form is the header plus payload_len octets |
| HeadersFrames.SerializedPayload | src/solicit/frame/headers.rs:322-342 | the wire form is the header then a payload of payload_len octets, from which the pad-length rule recovers the dependency octets and the fragment |
| HeadersFrames.RoundTrip | src/solicit/frame/headers.rs:646-842 | parsing the serialised frame gives back fragment, flags, dependency and padding length |
| HeadersMultiFrames.HeadersFrameType.MakeFlags | src/solicit/frame/headers.rs:415-430 | needs the flags to lack END_HEADERS; END_HEADERS iff last; HEADERS keeps the caller's flags; CONTINUATION carries nothing else |
| HeadersMultiFrames.SplitBlockSpec | src/solicit/frame/headers.rs:472-496 | the chunks concatenate to the block; all are at most max_frame_size and all but the last exactly that; their number is the ceiling (at least one) |
| HeadersMultiFrames.Encode | src/solicit/frame/headers.rs:505-528 | the serialiser's output is one 9-octet header per frame of the split plus the block itself |
| HeadersMultiFrames.EncodeReadsBack | src/solicit/frame/headers.rs:505-528 | the encoder's output reads back as one frame per chunk |
| HeadersMultiFrames.MultiFramePayloads | src/solicit/frame/headers.rs:855-899 | the frames' payloads concatenate to the block, each at most max_frame_size, all but the last full, each header length matching its payload |
| HeadersMultiFrames.MultiFrameHeaders | src/solicit/frame/headers.rs:855-899 | frame 0 is HEADERS with the caller's flags; the rest are CONTINUATION with no flag but END_HEADERS; END_HEADERS only on the last; every frame on the stream |
| HeadersMultiFrames.FirstFrameParses | src/solicit/frame/headers.rs:505-528 | the first frame parses as a HEADERS frame carrying the first chunk, END_STREAM as asked |
| HeadersMultiFrames.EncodeBufForHeadersMultiFrame.constructor | src/solicit/frame/headers.rs:505-520 | the encoder starts with no frame open, at the HEADERS frame, over the buffer's current contents |
| HeadersMultiFrames.EncodeBufForHeadersMultiFrame.OpenFrame | src/solicit/frame/headers.rs:443-454 | opens an empty frame after those written, with a placeholder header |
| HeadersMultiFrames.EncodeBufForHeadersMultiFrame.FinishFrame | src/solicit/frame/headers.rs:456-469 | patches the open frame's header in place: the buffer then holds exactly the encoding of the closed frames, END_HEADERS on the last |
| HeadersMultiFrames.EncodeBufForHeadersMultiFrame.RemInCurrentFrame | src/solicit/frame/headers.rs:472-478 | the room left in the open frame is max_frame_size minus what it holds |
| HeadersMultiFrames.EncodeBufForHeadersMultiFrame.AppendToFrame | src/solicit/frame/headers.rs:482-496 | appends a chunk that fits to the open frame |
| HeadersMultiFrames.EncodeBufForHeadersMultiFrame.FillFrame | src/solicit/frame/headers.rs:483-485 | copies into the open frame as much as fits: the octets written plus what is left are the old octets plus the input, and something is left only when the frame is full |
| HeadersMultiFrames.EncodeBufForHeadersMultiFrame.WriteAll | src/solicit/frame/headers.rs:482-496 | the block octets written so far grow by exactly the bytes, frames closed when full |
| HeadersMultiFrames.EncodeBufForHeadersMultiFrame.NextFrame | src/solicit/frame/headers.rs:487-491 | closes a full frame and opens a CONTINUATION frame; nothing written is lost |
| HeadersMultiFrames.EncodeBufForHeadersMultiFrame.Reserve | src/solicit/frame/headers.rs:498-501 | the buffer's unread octets do not change |
| HeadersMultiFrames.SerializeInto | src/solicit/frame/headers.rs:505-528 | appends exactly the HEADERS/CONTINUATION encoding of the encoded block |
| ConnWrite.DataChunksSpec | src/common/conn_write.rs:75-93 | non-empty data becomes ceil(\|data\|/max) plain DATA frames, in order, each at most max and all but the last full, concatenating to the data; END_STREAM iff asked and last |
| ConnWrite.DataFramesFor | src/common/conn_write.rs:59-94 | the DATA frames queued for a data part carry exactly the data, in order; there are none only for empty data without END_STREAM |
| ConnWrite.DataFramesForSpec | src/common/conn_write.rs:59-94 | empty data queues nothing, or one empty END_STREAM frame when asked; otherwise as DataChunksSpec |
| ConnWrite.HeadersPartOnWire | src/common/conn_write.rs:96-110 | the HEADERS frame has END_STREAM iff asked, and on the wire only the first frame carries it |
| ConnWrite.PopOutg | src/common/conn_write.rs:136-146 | a stream yields nothing only when kept unchanged; it is removed exactly when it yields RST_STREAM; what it still has to yield shrinks |
| ConnWrite.YieldedPrefix | src/common/conn_write.rs:152-172 | what a stream has yielded so far begins everything it yields |
| ConnWrite.YieldedNothing | src/common/conn_write.rs:152-172 | before the first pop nothing was yielded and the stream is what is left of itself |
| ConnWrite.YieldStep | src/common/conn_write.rs:152-172 | popping from what is left either yields nothing, and then everything was taken, or extends what was yielded by the popped command, the stream's queue losing a part from its front or the stream going away after RST_STREAM |
| ConnWrite.YieldAppend | src/common/conn_write.rs:152-172 | when the rest pops a command and leaves a stream, what was yielded grows by that command and the new rest yields the remainder |
| ConnWrite.ClosedStreamEnds | src/common/conn_write.rs:196-206 | a side closed with nothing queued ends with one empty END_STREAM DATA (NO_ERROR, then nothing) or with RST_STREAM and removal |
| ConnWrite.CommandFramesSnoc | src/common/conn_write.rs:148-179 | the frames of one more command follow those already queued |
| ConnWrite.UnderLimitSnoc | src/common/conn_write.rs:152-162 | a command taken while fewer than 0x8000 octets are queued is taken under the limit |
| ConnWrite.CommandFramesGrow | src/common/conn_write.rs:152-172 | the frames of the first j commands take no more octets than those of all of them |
| ConnWrite.EveryCommandUnderLimit | src/common/conn_write.rs:152-162 | when the last command of a stream was taken under the limit, so was every earlier one |
| ConnWrite.QueueStepFrames | src/common/conn_write.rs:152-172 | queuing one more command's frames appends them after those of the stream's earlier commands |
| ConnWrite.QueueStepUnderLimit | src/common/conn_write.rs:152-162 | a command taken while the queue is below 0x8000 octets keeps the stream's walk under the limit |
| ConnWrite.TakenFramesSnoc | src/common/conn_write.rs:148-179 | finishing a stream appends its frames after the earlier streams' frames, in the listed order |
| ConnWrite.AllTakenUnderLimitSnoc | src/common/conn_write.rs:148-179 | finishing a stream whose commands were taken under the limit keeps every stream's commands taken under the limit |
| ConnWrite.TakenCountSnoc | src/common/conn_write.rs:148-179 | the count of commands taken grows by the stream's commands |
| ConnWrite.BufferStep | src/common/conn_write.rs:148-179 | draining one more listed stream keeps the walk's invariant: frames in order, each command under the limit, every stream so far left with the rest of what it yields, drained completely unless the walk stopped on it, later streams untouched |
| ConnWrite.StreamsStep | src/common/conn_write.rs:148-179 | draining one listed stream changes no other stream, and keeps what each earlier stream yielded and what is left of it |
| ConnWrite.Conn.WritePartData | src/common/conn_write.rs:59-94 | the write queue grows by exactly the DATA frames for the data |
| ConnWrite.Conn.WritePartHeaders | src/common/conn_write.rs:96-110 | queues one HEADERS frame, END_STREAM as asked, for the block |
| ConnWrite.Conn.WritePartRst | src/common/conn_write.rs:112-116 | queues one RST_STREAM with the code |
| ConnWrite.Conn.WritePart | src/common/conn_write.rs:118-130 | the write queue grows by exactly the frames for the command |
| ConnWrite.Conn.PopOutgForStream | src/common/conn_write.rs:136-146 | returns the stream's next command and whether it is kept; the stream is updated or removed accordingly |
| ConnWrite.Conn.DrainStream | src/common/conn_write.rs:152-172 | the commands taken begin what the stream yields, and what is left of the stream (or its removal after RST_STREAM) yields the rest; all of it unless the buffer filled; the queue grows by their frames, each taken under the limit; no other stream changes |
| ConnWrite.Conn.TakeNext | src/common/conn_write.rs:164-173 | one pop and write: nothing popped means the stream yielded everything and nothing changed; otherwise the popped command's frames are queued, it extends what the stream yielded, and what the stream still has to yield shrinks |
| ConnWrite.Conn.BufferOutgConn | src/common/conn_write.rs:148-179 | the queue grows by each listed stream's frames in order, each command taken under 0x8000 octets; true iff something was written; what is taken from each listed stream begins what it yields and what is left of it yields the rest; every stream before the last one visited is drained, and with room left all listed streams are; streams not yet visited and unlisted streams untouched |
| ConnWrite.Conn.ProcessStreamEnqueue | src/common/conn_write.rs:208-222 | a part for a known stream joins its queue; for a missing stream it is dropped and a DATA part's length goes back to the pump-out window; nothing else changes |
| ConnWrite.Conn.ProcessStreamEnd | src/common/conn_write.rs:196-206 | a known stream's outgoing side is closed with the code |
| ConnWrite.Conn.SendGoaway | src/common/conn_write.rs:264-270 | queues a GOAWAY and marks it queued |
| ConnWrite.Conn.ProcessGoawayState | src/common/conn_write.rs:272-283 | Continue iff no GOAWAY queued; otherwise the flushed prefix is dropped and the answer is ExitEarly iff the queue is empty, NotReady otherwise |
| ClientConn.DecideHeaders | src/client/conn.rs:455-490 | after the trailers: internal error; reset iff the block is invalid, a 1xx ends the stream, or trailers do not; taken blocks are initial iff stage Initial, trailers only with END_STREAM, and 1xx never ending the stream |
| ClientConn.AcceptedStream | src/client/conn.rs:494-520 | (Initial, non-1xx) moves to AfterInitialHeaders, 1xx stays Initial, trailers move to AfterTrailingHeaders; the stage never goes back; 1xx is never delivered, final headers are delivered with END_STREAM as received, trailers only with END_STREAM |
| ClientConn.ProcessHeaders | src/client/conn.rs:435-523 | a missing stream: Ok(None), nothing changes; a stage error: the error, nothing changes; a reset: RST_STREAM PROTOCOL_ERROR queued, the stream unchanged; otherwise the stream becomes the accepted one |
| ClientConn.StartStream | src/client/conn.rs:175-198 | the new stream holds the request's parts, or is closed with INTERNAL_ERROR when the handler refuses |
| ClientConn.ProcessStart | src/client/conn.rs:133-205 | the request is started, then buffered: the write queue grows by the writable streams' frames in order, under the limit; each listed stream, the new one included, yields a prefix of what it has to yield and keeps the rest; the new stream's share begins its headers, body and trailers (or RST_STREAM when refused), and is all of them while the buffer has room; unlisted streams untouched |
| ClientConn.PartCommands | src/client/conn.rs:184-198 | one command per queued part |
| ClientConn.DrainQueue | src/common/conn_write.rs:136-146 | a stream yields its parts in order, the last one ending the stream iff closed with NO_ERROR, then RST_STREAM if closed with an error, or one empty END_STREAM DATA when closed with nothing queued |
| ClientConn.RequestOnWire | src/client/conn.rs:175-198 | a refused request yields only RST_STREAM INTERNAL_ERROR; an accepted one yields headers, body, trailers in that order, the last ending the stream iff end_stream |
| StreamQueueSync.PollStep | src/common/stream_queue_sync.rs:106-135 | after the latch: end of stream; otherwise the oldest item, setting the latch iff it ends the stream; an empty channel is NotReady while the sender lives, else the unexpected-EOF error without latching |
| StreamQueueSync.Polls | src/common/stream_queue_sync.rs:106-135 | n polls give n answers |
| StreamQueueSync.AfterLatch | src/common/stream_queue_sync.rs:107-109 | once the latch is set, every later poll is end of stream |
| StreamQueueSync.ReceivesUpToEnd | src/common/stream_queue_sync.rs:122-134 | the items up to the first that ends the stream come out in order, then end of stream forever |
| StreamQueueSync.ReceivesUnended | src/common/stream_queue_sync.rs:111-121 | items that do not end the stream come out in order, then NotReady, or the unexpected-EOF error once the sender is gone |
| StreamQueueSync.Channel.constructor | src/common/stream_queue_sync.rs:140 | a new channel is empty with both ends alive |
| StreamQueueSync.StreamQueueSyncSender.constructor | src/common/stream_queue_sync.rs:142-145 | the sender is over the given channel |
| StreamQueueSync.StreamQueueSyncSender.Send | src/common/stream_queue_sync.rs:37-44 | appends the item; once the receiver is gone nothing is sent and PullStreamDied is returned |
| StreamQueueSync.StreamQueueSyncSender.Headers | src/common/stream_queue_sync.rs:72-77 | sends headers with last = end_stream |
| StreamQueueSync.StreamQueueSyncSender.DataFrame | src/common/stream_queue_sync.rs:79-84 | sends data with last = end_stream |
| StreamQueueSync.StreamQueueSyncSender.Trailers | src/common/stream_queue_sync.rs:86-91 | sends trailers with last = true |
| StreamQueueSync.StreamQueueSyncSender.Rst | src/common/stream_queue_sync.rs:93-95 | sends the error RstStreamReceived(code) |
| StreamQueueSync.StreamQueueSyncSender.Error | src/common/stream_queue_sync.rs:97-99 | sends the error as given |
| StreamQueueSync.StreamQueueSyncSender.Drop | src/common/stream_queue_sync.rs:114-121 | the channel's sending end is closed; the queued items stay |
| StreamQueueSync.StreamQueueSyncReceiver.constructor | src/common/stream_queue_sync.rs:146-150 | the latch starts clear |
| StreamQueueSync.StreamQueueSyncReceiver.Poll | src/common/stream_queue_sync.rs:106-135 | answer, latch and channel follow PollStep |
| StreamQueueSync.StreamQueueSyncReceiver.Drop | src/common/stream_queue_sync.rs:37-44 | the receiving end is closed, so later sends fail |
| StreamQueueSync.NewStreamQueueSync | src/common/stream_queue_sync.rs:138-153 | a fresh pair shares a new empty channel and the latch is clear |

## Left out

- HPACK encoding is not part of this model. A header list is represented by its encoded block.
  The multi-frame serialiser receives the encoder's chunks as a parameter.
- `src/solicit/frame/mod.rs` is not part of this model. `pack_header`, `parse_padded_payload`,
  `Flags` and `ErrorCodeOrUnknown` are modelled from sections 4.1, 6.1 and 7 of RFC 7540.
- `src/common/stream.rs` is not part of this model. `PopOutg` is a stand-in for
  `pop_outg_maybe_remove`:
  - it has no flow-control windows;
  - a stream is removed only after RST_STREAM.
- `src/common/stream_map.rs` is not part of this model. `writable_stream_ids` is a parameter.
- `src/common/queued_write.rs` is not part of this model:
  - queuing a frame is an append;
  - queued bytes are the sum of the frames' wire sizes;
  - the flush inside `process_goaway_state` is a parameter saying how many frames went out.
- ConnWrite.Conn.Valid: requires a maximum frame size above 0, and so the model leaves out
  max_frame_size 0. On that input the source does not terminate: `write_part_data`
  (`src/common/conn_write.rs:75-93`) never advances `pos`. The source relies on SETTINGS
  validation, which is not part of this model.
- ConnWrite.DataChunks: requires a maximum frame size above 0 for the same reason, and so do
  `DataFramesFor`, `WritePartFrames` and `CommandFrames`, which it underlies.
- HeadersMultiFrames.SplitBlock: requires a maximum frame size above 0. At 0, `write_all`
  (`src/solicit/frame/headers.rs:482-496`) never copies an octet and closes and opens empty
  CONTINUATION frames forever.
- HeadersFrames.HeadersFrame.Serializable: `Serialize` and `SerializeInto` require it, so a
  frame with Priority set and no dependency is excluded. The source panics on it
  (`src/solicit/frame/headers.rs:333`); the model does not represent that panic.
- DataFrames.DataFrame.PayloadLen: the length is an unbounded number. The source's `u32`
  arithmetic (`src/solicit/frame/data.rs:122-130`) could overflow only beyond 2^32 octets,
  which no frame reaches, since lengths are 24-bit on the wire.
- `ConnWrite.Conn.HasWriteBufferCapacity` is the comparison with 0x8000 itself. It has no row
  of its own; the contracts of `DrainStream` and `BufferOutgConn` state its effect.
- `next_local_stream_id` and `new_stream_data` are not modelled. `process_start` receives the
  new stream's id, and the stream starts empty, with no flow-control window.
- The handler's `request_created` is a boolean parameter that says whether the handler
  accepts the request.
- `get_stream_for_headers_maybe_send_error` is modelled as map membership. The errors it may
  send for unknown streams are not modelled.
- `headers.validate`, `headers.status()` and `headers.content_length()` are parameters of
  `process_headers`.
- `send_rst_stream` is modelled as queuing an RST_STREAM frame. The stream's own bookkeeping
  inside `send_rst_stream` is not modelled.
- Errors that `?` propagates from I/O, the socket write path (`process_write_queue`,
  `poll_flush`, `poll_write`), task notification, `process_stream_pull` and
  `send_frame_and_notify` are left out. They are futures and socket plumbing.
- The multi-frame HEADERS serialiser ignores `stream_dep` and `padding_len`, as the source
  does. `write_part_headers` always sets them to none and 0.
- The server-side handler implementation in `stream_queue_sync.rs` (lines 47-69) is the same
  as the client's, except that it has no `headers` method. It is covered by the same
  `StreamQueueSyncSender` methods.
- The in-place update of a frame by `set_flag` and `set_padding`
  (`src/solicit/frame/data.rs:115-118`, `148-150`; `src/solicit/frame/headers.rs:198-201`,
  `225-227`) is modelled as a new frame value. Frames are owned and never aliased, so no other
  holder could see the difference.
- The capacity effects of `Vec::reserve` are not observable and are not modelled. Reserve only
  keeps the content and the cursor.
- `src/client_conn.rs`, the spawn and connect functions of `src/client/conn.rs`,
  `src/common/stream_from_network.rs` and `src/client/stream_handler.rs` are not part of this
  model. They are reactor, TLS and channel wiring.

## Findings

| source | as written | input that shows it | evidently intended | confidence | as-written member | corrected member |
|---|---|---|---|---|---|---|
| src/solicit/frame/headers.rs:277-279 | when Priority is set, `from_raw` slices five dependency octets off the padded payload without checking that five are there | a HEADERS frame header (length 0, type 0x1, flags 0x20, stream 1) with an empty payload | a parse error (here called PriorityTooShort) instead of an index panic | high, not executed | HeadersFrames.PriorityWithoutDependencyPanics | HeadersFrames.FromRaw |
| src/solicit/frame/rst_stream.rs:72-82 | `from_raw` checks the length the header announces but then reads four octets from the payload without checking the payload's actual length | header (length 4, type 0x3, flags 0, stream 1) over a 2-octet payload | InternalError on a length mismatch, as the DATA and HEADERS parsers do | medium (a raw frame built by the crate's own reader always has matching lengths), not executed | RstStream.ShortPayloadPanics | RstStream.FromRaw |
| src/solicit/frame/rst_stream.rs:81-88 | the same unchecked read accepts a payload longer than the header announces and ignores the extra octets | header (length 4, type 0x3, flags 0, stream 1) over the payload 0, 0, 0, 1, 0 gives code 1 | InternalError on a length mismatch | medium, not executed | RstStream.LongPayloadAccepted | RstStream.FromRaw |
