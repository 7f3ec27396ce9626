/**
 * The write side of a connection: turning the parts streams want to send into frames,
 * queueing them for the socket, and deciding when a connection that sent GOAWAY is done.
 */
module ConnWrite {
  import opened Wrappers
  import opened Bytes
  import opened Frame
  import DataFrames
  import RstStream
  import HeadersFrames
  import HeadersMultiFrames

  /** Below this many queued octets the connection takes more parts from its streams. */
  const WRITE_BUFFER_LIMIT: nat := 0x8000

  /** A header list, represented by the octets the HPACK encoder produces for it. */
  type HeaderBlock = seq<byte>

  datatype DataOrHeaders = Data(data: seq<byte>) | Headers(headers: HeaderBlock)

  /** A part a stream hands to the connection; `last` marks the end of the outgoing message. */
  datatype Part = Part(content: DataOrHeaders, last: bool)

  /** What the connection takes from a stream to write. */
  datatype StreamCommand =
    | DataCommand(data: seq<byte>, endStream: bool)
    | HeadersCommand(headers: HeaderBlock, endStream: bool)
    | RstCommand(code: ErrorCode)

  datatype InMessageStage = Initial | AfterInitialHeaders | AfterTrailingHeaders

  /** A call made on the stream's response handler. */
  datatype Delivery =
    | DeliveredHeaders(headers: HeaderBlock, endStream: bool)
    | DeliveredTrailers(headers: HeaderBlock)

  /** A stream, as far as the write side and the client's header handling use it. */
  datatype HttpStream = HttpStream(
    outQueue: seq<Part>,              // parts waiting to be written, oldest first
    outClosed: Option<ErrorCode>,     // how the outgoing side was closed, once it was
    outSent: bool,                    // END_STREAM or RST_STREAM has been taken for writing
    inMessageStage: InMessageStage,
    inRemContentLength: Option<nat>,
    hasHandler: bool,                 // a response handler is attached
    delivered: seq<Delivery>)         // the calls made on the response handler, in order

  /** A frame in the write queue. */
  datatype OutFrame =
    | DataOut(data: DataFrames.DataFrame)
    | HeadersOut(headers: HeadersMultiFrames.HeadersMultiFrame, block: HeaderBlock)
    | RstOut(rst: RstStream.RstStreamFrame)
    | GoawayOut(lastStreamId: u32, code: ErrorCode)

  datatype IterationExit = Continue | ExitEarly | NotReady

  function Min(a: int, b: int): int {
    if a < b then a else b
  }

  /** The octets a queued frame takes on the wire. */
  function WireLen(f: OutFrame): nat {
    match f
    case DataOut(d) => FRAME_HEADER_LEN + d.PayloadLen()
    case HeadersOut(m, block) =>
      if 0 < m.maxFrameSize && !IsSet(m.flags, HeadersFrames.HeadersFlag.EndHeaders.Bitmask())
      then |HeadersMultiFrames.Encode(block, m.flags, m.streamId, m.maxFrameSize)|
      // Unreachable: Conn.Valid keeps maxFrameSize > 0 and HeadersPartFrame never sets END_HEADERS.
      else 0
    case RstOut(_) => FRAME_HEADER_LEN + 4
    case GoawayOut(_, _) => FRAME_HEADER_LEN + 8
  }

  function QueuedBytes(q: seq<OutFrame>): nat {
    if q == [] then 0 else WireLen(q[0]) + QueuedBytes(q[1..])
  }

  // ---------------------------------------------------------------------------------------
  // The frames written for one part

  /** A DATA frame carrying `data`, with END_STREAM when asked for. */
  function DataFrameFor(streamId: u32, data: seq<byte>, endStream: bool): DataFrames.DataFrame {
    var f := DataFrames.WithData(streamId, data);
    if endStream then f.SetFlag(DataFrames.DataFlag.EndStream) else f
  }

  /** Non-empty data cut into frames of `maxFrameSize` octets, the rest in the last one. */
  function DataChunks(streamId: u32, data: seq<byte>, endStream: bool, maxFrameSize: nat): seq<OutFrame>
    requires 0 < maxFrameSize
    decreases |data|
  {
    if |data| <= maxFrameSize then [DataOut(DataFrameFor(streamId, data, endStream))]
    else [DataOut(DataFrameFor(streamId, data[..maxFrameSize], false))]
         + DataChunks(streamId, data[maxFrameSize..], endStream, maxFrameSize)
  }

  /**
   * The DATA frames written for a data part: they carry the data, in order, and there are
   * none only for empty data without END_STREAM.
   */
  function DataFramesFor(streamId: u32, data: seq<byte>, endStream: bool, maxFrameSize: nat): (r: seq<OutFrame>)
    requires 0 < maxFrameSize
    ensures DataPayloads(r) == data
    ensures r == [] <==> |data| == 0 && !endStream
  {
    if |data| == 0 then
      if endStream then
        var r := [DataOut(DataFrameFor(streamId, [], true))];
        assert DataPayloads(r) == [] + DataPayloads([]);
        r
      else []
    else
      DataChunksSpec(streamId, data, endStream, maxFrameSize);
      DataChunks(streamId, data, endStream, maxFrameSize)
  }

  /** The multi-frame HEADERS written for a headers part. */
  function HeadersPartFrame(streamId: u32, endStream: bool, maxFrameSize: nat): HeadersMultiFrames.HeadersMultiFrame {
    var flags: Flags := if endStream then HeadersFrames.HeadersFlag.EndStream.Bitmask() else 0;
    HeadersMultiFrames.HeadersMultiFrame(flags, streamId, None, 0, maxFrameSize)
  }

  /** The frames written for a command. */
  function WritePartFrames(streamId: u32, command: StreamCommand, maxFrameSize: nat): seq<OutFrame>
    requires 0 < maxFrameSize
  {
    match command
    case DataCommand(data, endStream) => DataFramesFor(streamId, data, endStream, maxFrameSize)
    case HeadersCommand(headers, endStream) => [HeadersOut(HeadersPartFrame(streamId, endStream, maxFrameSize), headers)]
    case RstCommand(code) => [RstOut(RstStream.New(streamId, code))]
  }

  /** The data the DATA frames of a queue carry, in order. */
  function DataPayloads(q: seq<OutFrame>): seq<byte> {
    if q == [] then [] else (if q[0].DataOut? then q[0].data.data else []) + DataPayloads(q[1..])
  }

  /** A DATA frame on the stream, unpadded, at most `maxFrameSize` octets, no flag but END_STREAM. */
  predicate PlainDataFrame(f: OutFrame, streamId: u32, maxFrameSize: nat) {
    && f.DataOut?
    && f.data.streamId == streamId
    && !f.data.IsPadded() && f.data.paddingLen == 0
    && f.data.flags & !DataFrames.DataFlag.EndStream.Bitmask() == 0
    && |f.data.data| <= maxFrameSize
  }

  lemma {:induction false} DataChunksSpec(streamId: u32, data: seq<byte>, endStream: bool, maxFrameSize: nat)
    requires 0 < maxFrameSize && |data| > 0
    ensures var fs := DataChunks(streamId, data, endStream, maxFrameSize);
      && |fs| >= 1
      && (|fs| - 1) * maxFrameSize < |data| <= |fs| * maxFrameSize
      && DataPayloads(fs) == data
      && (forall i :: 0 <= i < |fs| ==> PlainDataFrame(fs[i], streamId, maxFrameSize))
      && (forall i :: 0 <= i < |fs| - 1 ==> |fs[i].data.data| == maxFrameSize)
      && (forall i :: 0 <= i < |fs| ==> (fs[i].data.IsEndOfStream() <==> endStream && i == |fs| - 1))
    decreases |data|
  {
    var fs := DataChunks(streamId, data, endStream, maxFrameSize);
    if |data| <= maxFrameSize {
      assert DataPayloads(fs) == data + DataPayloads([]);
    } else {
      var rest := data[maxFrameSize..];
      DataChunksSpec(streamId, rest, endStream, maxFrameSize);
      var rs := DataChunks(streamId, rest, endStream, maxFrameSize);
      assert fs[1..] == rs;
      assert data == data[..maxFrameSize] + rest;
      HeadersMultiFrames.MulSucc(|rs| - 1, maxFrameSize);
      HeadersMultiFrames.MulSucc(|rs|, maxFrameSize);
    }
  }

  /**
   * What `write_part_data` queues: nothing for empty data without end of stream, one empty
   * END_STREAM frame for empty data with it, and otherwise the fewest frames of at most
   * `maxFrameSize` octets that carry the data in order, every one but the last full, with
   * END_STREAM on the last one exactly when asked for.
   */
  lemma DataFramesForSpec(streamId: u32, data: seq<byte>, endStream: bool, maxFrameSize: nat)
    requires 0 < maxFrameSize
    ensures var fs := DataFramesFor(streamId, data, endStream, maxFrameSize);
      && (|data| == 0 && !endStream ==> fs == [])
      && (|data| == 0 && endStream ==> |fs| == 1 && fs[0].DataOut? && fs[0].data.data == [] && fs[0].data.IsEndOfStream())
      && (|data| > 0 ==> |fs| >= 1 && (|fs| - 1) * maxFrameSize < |data| <= |fs| * maxFrameSize)
      && DataPayloads(fs) == data
      && (forall i :: 0 <= i < |fs| ==> PlainDataFrame(fs[i], streamId, maxFrameSize))
      && (forall i :: 0 <= i < |fs| - 1 ==> |fs[i].data.data| == maxFrameSize)
      && (forall i :: 0 <= i < |fs| ==> (fs[i].data.IsEndOfStream() <==> endStream && i == |fs| - 1))
  {
    var fs := DataFramesFor(streamId, data, endStream, maxFrameSize);
    if |data| == 0 {
      if endStream {
        assert DataPayloads(fs) == [] + DataPayloads([]);
      }
    } else {
      DataChunksSpec(streamId, data, endStream, maxFrameSize);
    }
  }

  /**
   * The queued HEADERS has END_STREAM exactly when asked for, no dependency and no
   * padding; on the wire its first frame is a HEADERS frame with END_STREAM exactly then,
   * and every CONTINUATION frame after it carries no END_STREAM.
   */
  lemma HeadersPartOnWire(streamId: u32, block: HeaderBlock, endStream: bool, maxFrameSize: nat)
    requires 0 < maxFrameSize
    ensures var m := HeadersPartFrame(streamId, endStream, maxFrameSize);
      && (IsSet(m.flags, HeadersFrames.HeadersFlag.EndStream.Bitmask()) <==> endStream)
      && !IsSet(m.flags, HeadersFrames.HeadersFlag.EndHeaders.Bitmask())
      && m.streamDep.None? && m.paddingLen == 0 && m.streamId == streamId
      && var fs := HeadersMultiFrames.BlockFrames(block, m.flags, streamId, maxFrameSize);
      && fs[0].header.frameType == HeadersFrames.HEADERS_FRAME_TYPE
      && (IsSet(fs[0].header.flags, HeadersFrames.HeadersFlag.EndStream.Bitmask()) <==> endStream)
      && (forall i :: 0 < i < |fs| ==> !IsSet(fs[i].header.flags, HeadersFrames.HeadersFlag.EndStream.Bitmask()))
  {
    var m := HeadersPartFrame(streamId, endStream, maxFrameSize);
    HeadersMultiFrames.MultiFrameHeaders(block, m.flags, streamId, maxFrameSize);
  }

  // ---------------------------------------------------------------------------------------
  // Taking parts from a stream

  function PartCommand(p: Part, endStream: bool): StreamCommand {
    match p.content
    case Data(d) => DataCommand(d, endStream)
    case Headers(h) => HeadersCommand(h, endStream)
  }

  /** How much a stream still has to yield: its queued parts and the end of its outgoing side. */
  function Pending(s: HttpStream): nat {
    if s.outSent then 0 else |s.outQueue| + 1
  }

  /**
   * The next command a stream yields and what is left of it, None once it is removed.
   * The oldest queued part goes first; it ends the stream when it is marked last, or when it
   * is the final part of a side closed with NO_ERROR. A side closed with nothing queued ends
   * with an empty END_STREAM DATA frame (NO_ERROR) or with RST_STREAM, which removes the stream.
   */
  function PopOutg(s: HttpStream): (r: (Option<StreamCommand>, Option<HttpStream>))
    ensures r.0.None? ==> r.1 == Some(s)
    ensures r.1.None? <==> r.0.Some? && r.0.value.RstCommand?
    ensures r.0.Some? && r.1.Some? ==> Pending(r.1.value) < Pending(s)
  {
    if s.outSent then (None, Some(s))
    else if s.outQueue != [] then
      var rest := s.outQueue[1..];
      var endStream := s.outQueue[0].last || (rest == [] && s.outClosed == Some(NoError));
      (Some(PartCommand(s.outQueue[0], endStream)), Some(s.(outQueue := rest, outSent := endStream)))
    else
      match s.outClosed
      case None => (None, Some(s))
      case Some(code) =>
        if code == NoError then (Some(DataCommand([], true)), Some(s.(outSent := true)))
        else (Some(RstCommand(code)), None)
  }

  /** Everything a stream yields, popped until it yields nothing or is removed. */
  function Drain(s: HttpStream): seq<StreamCommand>
    decreases Pending(s)
  {
    var (command, rest) := PopOutg(s);
    if command.None? then []
    else [command.value] + (if rest.Some? then Drain(rest.value) else [])
  }

  /** The stream under `id`, None when there is none. */
  function Lookup(streams: map<u32, HttpStream>, id: u32): Option<HttpStream> {
    if id in streams then Some(streams[id]) else None
  }

  /**
   * `t` is what is left of `s` after it yielded `commands`: the commands begin what `s`
   * yields and `t` yields the rest. Only the outgoing queue, which lost parts from its
   * front, and the END_STREAM mark moved; the stream is gone (None) only after its RST_STREAM.
   */
  ghost predicate YieldedFrom(s: HttpStream, commands: seq<StreamCommand>, t: Option<HttpStream>) {
    match t
    case None => Drain(s) == commands && commands != [] && commands[|commands| - 1].RstCommand?
    case Some(u) =>
      && Drain(s) == commands + Drain(u)
      && u == s.(outQueue := u.outQueue, outSent := u.outSent)
      && |u.outQueue| <= |s.outQueue| && u.outQueue == s.outQueue[|s.outQueue| - |u.outQueue|..]
  }

  /** What a stream has yielded begins everything it yields. */
  lemma YieldedPrefix(s: HttpStream, commands: seq<StreamCommand>, t: Option<HttpStream>)
    requires YieldedFrom(s, commands, t)
    ensures commands <= Drain(s)
  {
    if t.Some? {
      assert (commands + Drain(t.value))[..|commands|] == commands;
    }
  }

  /** A stream that yielded nothing is what is left of itself. */
  lemma YieldedNothing(s: HttpStream)
    ensures YieldedFrom(s, [], Some(s))
  {
    assert s.outQueue[0..] == s.outQueue;
    assert [] + Drain(s) == Drain(s);
  }

  /** Popping once more from what is left either yields nothing, all being taken, or extends what was yielded. */
  lemma {:induction false} YieldStep(s: HttpStream, commands: seq<StreamCommand>, u: HttpStream)
    requires YieldedFrom(s, commands, Some(u))
    ensures var (c, rest) := PopOutg(u);
      && (c.None? ==> Drain(u) == [] && commands == Drain(s))
      && (c.Some? ==> YieldedFrom(s, commands + [c.value], rest))
  {
    if u.outSent || (u.outQueue == [] && u.outClosed.None?) {
      assert PopOutg(u).0.None?;
      assert commands + [] == commands;
    } else if u.outQueue != [] {
      var endStream := u.outQueue[0].last || (u.outQueue[1..] == [] && u.outClosed == Some(NoError));
      var c := PartCommand(u.outQueue[0], endStream);
      var v := u.(outQueue := u.outQueue[1..], outSent := endStream);
      assert PopOutg(u) == (Some(c), Some(v));
      YieldAppend(s, commands, u, c, v);
      var k := |s.outQueue| - |u.outQueue|;
      assert s.outQueue[k..][1..] == s.outQueue[k + 1..];
    } else if u.outClosed.value == NoError {
      var v := u.(outSent := true);
      assert PopOutg(u) == (Some(DataCommand([], true)), Some(v));
      YieldAppend(s, commands, u, DataCommand([], true), v);
    } else {
      assert PopOutg(u) == (Some(RstCommand(u.outClosed.value)), None);
      assert Drain(u) == [RstCommand(u.outClosed.value)];
    }
  }

  /** When `u` pops `c` and leaves `v`, what was yielded grows by `c` and `v` yields the rest. */
  lemma YieldAppend(s: HttpStream, commands: seq<StreamCommand>, u: HttpStream, c: StreamCommand, v: HttpStream)
    requires Drain(s) == commands + Drain(u)
    requires PopOutg(u) == (Some(c), Some(v))
    ensures Drain(s) == (commands + [c]) + Drain(v)
  {
    assert Drain(u) == [c] + Drain(v);
  }

  /**
   * A stream yields nothing more once its end went out; an outgoing side closed with
   * nothing queued yields its end exactly once.
   */
  lemma {:induction false} ClosedStreamEnds(s: HttpStream, code: ErrorCode)
    requires s.outQueue == [] && s.outClosed == Some(code) && !s.outSent
    ensures var (c, rest) := PopOutg(s);
      && c.Some?
      && (code == NoError ==> c.value == DataCommand([], true) && rest.Some? && PopOutg(rest.value).0.None?)
      && (code != NoError ==> c.value == RstCommand(code) && rest.None?)
  {
    var (c, rest) := PopOutg(s);
    if code == NoError {
      assert rest == Some(s.(outSent := true));
    }
  }

  /** The frames written for commands taken from one stream, in order. */
  function CommandFrames(streamId: u32, commands: seq<StreamCommand>, maxFrameSize: nat): seq<OutFrame>
    requires 0 < maxFrameSize
    decreases |commands|
  {
    if commands == [] then []
    else CommandFrames(streamId, commands[..|commands| - 1], maxFrameSize)
         + WritePartFrames(streamId, commands[|commands| - 1], maxFrameSize)
  }

  lemma CommandFramesSnoc(streamId: u32, commands: seq<StreamCommand>, command: StreamCommand, maxFrameSize: nat)
    requires 0 < maxFrameSize
    ensures CommandFrames(streamId, commands + [command], maxFrameSize)
            == CommandFrames(streamId, commands, maxFrameSize) + WritePartFrames(streamId, command, maxFrameSize)
  {
    assert (commands + [command])[..|commands|] == commands;
  }

  lemma UnderLimitSnoc(before: seq<OutFrame>, streamId: u32, commands: seq<StreamCommand>, command: StreamCommand, maxFrameSize: nat)
    requires 0 < maxFrameSize
    requires QueuedBytes(before + CommandFrames(streamId, commands, maxFrameSize)) < WRITE_BUFFER_LIMIT
    ensures TakenUnderLimit(before, streamId, commands + [command], maxFrameSize)
  {
    var cf := CommandFrames(streamId, commands, maxFrameSize);
    var w := WritePartFrames(streamId, command, maxFrameSize);
    CommandFramesSnoc(streamId, commands, command, maxFrameSize);
    QueuedBytesAppend(cf, w);
    QueuedBytesAppend(before, cf);
  }

  lemma AppendAssoc(a: seq<OutFrame>, b: seq<OutFrame>, c: seq<OutFrame>)
    ensures a + (b + c) == (a + b) + c
  {
  }

  lemma {:induction false} QueuedBytesAppend(a: seq<OutFrame>, b: seq<OutFrame>)
    ensures QueuedBytes(a + b) == QueuedBytes(a) + QueuedBytes(b)
    decreases |a|
  {
    if a == [] {
      assert a + b == b;
    } else {
      assert (a + b)[0] == a[0] && (a + b)[1..] == a[1..] + b;
      QueuedBytesAppend(a[1..], b);
    }
  }

  /** The frames of the first j commands take no more octets than those of all of them. */
  lemma {:induction false} CommandFramesGrow(streamId: u32, commands: seq<StreamCommand>, j: nat, maxFrameSize: nat)
    requires 0 < maxFrameSize && j <= |commands|
    ensures QueuedBytes(CommandFrames(streamId, commands[..j], maxFrameSize))
            <= QueuedBytes(CommandFrames(streamId, commands, maxFrameSize))
    decreases |commands|
  {
    if j < |commands| {
      var init := commands[..|commands| - 1];
      assert init[..j] == commands[..j];
      CommandFramesGrow(streamId, init, j, maxFrameSize);
      QueuedBytesAppend(CommandFrames(streamId, init, maxFrameSize),
                        WritePartFrames(streamId, commands[|commands| - 1], maxFrameSize));
    } else {
      assert commands[..j] == commands;
    }
  }

  /**
   * The write queue only grows while a stream is drained, so when its last command was
   * taken under the limit, every one of its commands was.
   */
  lemma EveryCommandUnderLimit(before: seq<OutFrame>, streamId: u32, commands: seq<StreamCommand>, maxFrameSize: nat)
    requires 0 < maxFrameSize
    requires TakenUnderLimit(before, streamId, commands, maxFrameSize)
    ensures forall j :: 0 <= j < |commands| ==>
      QueuedBytes(before + CommandFrames(streamId, commands[..j], maxFrameSize)) < WRITE_BUFFER_LIMIT
  {
    if commands != [] {
      var init := commands[..|commands| - 1];
      var cfInit := CommandFrames(streamId, init, maxFrameSize);
      var last := WritePartFrames(streamId, commands[|commands| - 1], maxFrameSize);
      assert commands == init + [commands[|commands| - 1]];
      CommandFramesSnoc(streamId, init, commands[|commands| - 1], maxFrameSize);
      QueuedBytesAppend(cfInit, last);
      forall j | 0 <= j < |commands|
        ensures QueuedBytes(before + CommandFrames(streamId, commands[..j], maxFrameSize)) < WRITE_BUFFER_LIMIT
      {
        assert init[..j] == commands[..j];
        CommandFramesGrow(streamId, init, j, maxFrameSize);
        QueuedBytesAppend(before, CommandFrames(streamId, commands[..j], maxFrameSize));
      }
    }
  }

  /** Queueing one more command's frames appends them to those of the stream's earlier commands. */
  lemma QueueStepFrames(start: seq<OutFrame>, queued: seq<OutFrame>, streamId: u32, commands: seq<StreamCommand>,
                        command: StreamCommand, maxFrameSize: nat)
    requires 0 < maxFrameSize
    requires queued == start + CommandFrames(streamId, commands, maxFrameSize)
    ensures queued + WritePartFrames(streamId, command, maxFrameSize)
            == start + CommandFrames(streamId, commands + [command], maxFrameSize)
  {
    CommandFramesSnoc(streamId, commands, command, maxFrameSize);
    AppendAssoc(start, CommandFrames(streamId, commands, maxFrameSize), WritePartFrames(streamId, command, maxFrameSize));
  }

  /** A command taken while the queue is under the limit keeps the stream's walk under the limit. */
  lemma QueueStepUnderLimit(start: seq<OutFrame>, queued: seq<OutFrame>, streamId: u32, commands: seq<StreamCommand>,
                            command: StreamCommand, maxFrameSize: nat)
    requires 0 < maxFrameSize
    requires queued == start + CommandFrames(streamId, commands, maxFrameSize)
    requires QueuedBytes(queued) < WRITE_BUFFER_LIMIT
    ensures TakenUnderLimit(start, streamId, commands + [command], maxFrameSize)
  {
    UnderLimitSnoc(start, streamId, commands, command, maxFrameSize);
  }

  /** The frames written for the commands taken from each of the first |taken| writable streams. */
  function TakenFrames(writable: seq<u32>, taken: seq<seq<StreamCommand>>, maxFrameSize: nat): seq<OutFrame>
    requires 0 < maxFrameSize && |taken| <= |writable|
    decreases |taken|
  {
    if taken == [] then []
    else TakenFrames(writable, taken[..|taken| - 1], maxFrameSize)
         + CommandFrames(writable[|taken| - 1], taken[|taken| - 1], maxFrameSize)
  }

  /** The number of commands taken in all. */
  function TakenCount(taken: seq<seq<StreamCommand>>): nat {
    if taken == [] then 0 else |taken[0]| + TakenCount(taken[1..])
  }

  /**
   * The last command of a stream was taken while fewer than WRITE_BUFFER_LIMIT octets were
   * queued: without its own frames the queue is under the limit (and so it was before every
   * earlier command too, by EveryCommandUnderLimit).
   */
  ghost predicate TakenUnderLimit(before: seq<OutFrame>, streamId: u32, commands: seq<StreamCommand>, maxFrameSize: nat)
    requires 0 < maxFrameSize
  {
    commands == [] ||
    QueuedBytes(before) + QueuedBytes(CommandFrames(streamId, commands, maxFrameSize))
      < WRITE_BUFFER_LIMIT + QueuedBytes(WritePartFrames(streamId, commands[|commands| - 1], maxFrameSize))
  }

  /** Every command of every stream was taken while fewer than WRITE_BUFFER_LIMIT octets were queued. */
  ghost predicate AllTakenUnderLimit(start: seq<OutFrame>, writable: seq<u32>, taken: seq<seq<StreamCommand>>, maxFrameSize: nat)
    requires 0 < maxFrameSize && |taken| <= |writable|
  {
    forall i :: 0 <= i < |taken| ==>
      TakenUnderLimit(QueuedBeforeStream(start, writable, taken, i, maxFrameSize), writable[i], taken[i], maxFrameSize)
  }

  /** The write queue just before the walk reached writable stream i. */
  ghost function QueuedBeforeStream(start: seq<OutFrame>, writable: seq<u32>, taken: seq<seq<StreamCommand>>, i: nat,
                                    maxFrameSize: nat): seq<OutFrame>
    requires 0 < maxFrameSize && i <= |taken| <= |writable|
  {
    start + TakenFrames(writable, taken[..i], maxFrameSize)
  }

  lemma TakenFramesSnoc(start: seq<OutFrame>, writable: seq<u32>, taken: seq<seq<StreamCommand>>, commands: seq<StreamCommand>,
                        maxFrameSize: nat)
    requires 0 < maxFrameSize && |taken| < |writable|
    ensures TakenFrames(writable, taken + [commands], maxFrameSize)
            == TakenFrames(writable, taken, maxFrameSize) + CommandFrames(writable[|taken|], commands, maxFrameSize)
    ensures start + TakenFrames(writable, taken + [commands], maxFrameSize)
            == start + TakenFrames(writable, taken, maxFrameSize) + CommandFrames(writable[|taken|], commands, maxFrameSize)
  {
    assert (taken + [commands])[..|taken|] == taken;
    AppendAssoc(start, TakenFrames(writable, taken, maxFrameSize), CommandFrames(writable[|taken|], commands, maxFrameSize));
  }

  lemma AllTakenUnderLimitSnoc(start: seq<OutFrame>, writable: seq<u32>, taken: seq<seq<StreamCommand>>, commands: seq<StreamCommand>,
                               maxFrameSize: nat)
    requires 0 < maxFrameSize && |taken| < |writable|
    requires AllTakenUnderLimit(start, writable, taken, maxFrameSize)
    requires TakenUnderLimit(start + TakenFrames(writable, taken, maxFrameSize), writable[|taken|], commands, maxFrameSize)
    ensures AllTakenUnderLimit(start, writable, taken + [commands], maxFrameSize)
  {
    var t := taken + [commands];
    forall i | 0 <= i < |t|
      ensures TakenUnderLimit(QueuedBeforeStream(start, writable, t, i, maxFrameSize), writable[i], t[i], maxFrameSize)
    {
      if i < |taken| {
        assert t[..i] == taken[..i];
        assert QueuedBeforeStream(start, writable, t, i, maxFrameSize) == QueuedBeforeStream(start, writable, taken, i, maxFrameSize);
      } else {
        assert t[..i] == taken;
        assert QueuedBeforeStream(start, writable, t, i, maxFrameSize) == start + TakenFrames(writable, taken, maxFrameSize);
      }
    }
  }

  lemma {:induction false} TakenCountSnoc(taken: seq<seq<StreamCommand>>, commands: seq<StreamCommand>)
    ensures TakenCount(taken + [commands]) == TakenCount(taken) + |commands|
    decreases |taken|
  {
    if taken != [] {
      assert (taken + [commands])[1..] == taken[1..] + [commands];
      TakenCountSnoc(taken[1..], commands);
    }
  }

  /** What is left of each of the first |taken| writable streams is what follows what was taken from it. */
  ghost predicate Yielded(orig: map<u32, HttpStream>, streams: map<u32, HttpStream>, writable: seq<u32>,
                          taken: seq<seq<StreamCommand>>)
  {
    forall i :: 0 <= i < |taken| && i < |writable| ==>
      writable[i] in orig && YieldedFrom(orig[writable[i]], taken[i], Lookup(streams, writable[i]))
  }

  /** Everything the first n writable streams had to yield was taken. */
  ghost predicate AllDrained(orig: map<u32, HttpStream>, writable: seq<u32>, taken: seq<seq<StreamCommand>>, n: int) {
    forall i :: 0 <= i < n && i < |taken| && i < |writable| ==>
      writable[i] in orig && taken[i] == Drain(orig[writable[i]])
  }

  /** Every stream but one is as it was, and none was added. */
  ghost predicate OnlyChanged(streams: map<u32, HttpStream>, orig: map<u32, HttpStream>, streamId: u32) {
    && (forall id :: id in streams ==> id in orig)
    && (forall id :: id in orig && id != streamId ==> id in streams && streams[id] == orig[id])
  }

  /** Every stream but those listed is as it was, and none was added. */
  ghost predicate OnlyListedChanged(streams: map<u32, HttpStream>, orig: map<u32, HttpStream>, writable: seq<u32>) {
    && (forall id :: id in streams ==> id in orig)
    && (forall id :: id in orig && id !in writable ==> id in streams && streams[id] == orig[id])
  }

  /** The streams listed from index k on are present and as they were. */
  ghost predicate Untouched(streams: map<u32, HttpStream>, orig: map<u32, HttpStream>, writable: seq<u32>, k: nat) {
    forall k' :: k <= k' < |writable| ==> writable[k'] in orig && writable[k'] in streams && streams[writable[k']] == orig[writable[k']]
  }

  /**
   * What taking commands from the first |taken| writable streams has established: their
   * frames follow the frames queued at the start, each command was taken under the limit,
   * only listed streams changed, what is left of each stream walked follows what was taken
   * from it, the streams not walked yet are untouched, and every stream walked was drained
   * except, when the limit stopped the walk, the last one.
   */
  ghost predicate BufferProgress(start: seq<OutFrame>, orig: map<u32, HttpStream>,
                                 queued: seq<OutFrame>, streams: map<u32, HttpStream>,
                                 writable: seq<u32>, taken: seq<seq<StreamCommand>>, maxFrameSize: nat, stopped: bool)
  {
    && 0 < maxFrameSize && |taken| <= |writable|
    && queued == start + TakenFrames(writable, taken, maxFrameSize)
    && AllTakenUnderLimit(start, writable, taken, maxFrameSize)
    && OnlyListedChanged(streams, orig, writable)
    && Yielded(orig, streams, writable, taken)
    && Untouched(streams, orig, writable, |taken|)
    && AllDrained(orig, writable, taken, |taken| - 1)
    && (!stopped ==> AllDrained(orig, writable, taken, |taken|))
  }

  /** Draining the next listed stream keeps the walk's progress. */
  lemma BufferStep(start: seq<OutFrame>, orig: map<u32, HttpStream>,
                   queued: seq<OutFrame>, mid: map<u32, HttpStream>,
                   queued': seq<OutFrame>, streams: map<u32, HttpStream>,
                   writable: seq<u32>, taken: seq<seq<StreamCommand>>, commands: seq<StreamCommand>,
                   maxFrameSize: nat, stopped: bool)
    requires |taken| < |writable|
    requires forall k1, k2 :: 0 <= k1 < k2 < |writable| ==> writable[k1] != writable[k2]
    requires BufferProgress(start, orig, queued, mid, writable, taken, maxFrameSize, false)
    requires queued' == queued + CommandFrames(writable[|taken|], commands, maxFrameSize)
    requires TakenUnderLimit(queued, writable[|taken|], commands, maxFrameSize)
    requires OnlyChanged(streams, mid, writable[|taken|])
    requires writable[|taken|] in mid && YieldedFrom(mid[writable[|taken|]], commands, Lookup(streams, writable[|taken|]))
    requires !stopped ==> commands == Drain(mid[writable[|taken|]])
    ensures BufferProgress(start, orig, queued', streams, writable, taken + [commands], maxFrameSize, stopped)
  {
    TakenFramesSnoc(start, writable, taken, commands, maxFrameSize);
    AllTakenUnderLimitSnoc(start, writable, taken, commands, maxFrameSize);
    StreamsStep(orig, mid, streams, writable, taken, commands, stopped);
  }

  lemma StreamsStep(orig: map<u32, HttpStream>, mid: map<u32, HttpStream>, streams: map<u32, HttpStream>,
                    writable: seq<u32>, taken: seq<seq<StreamCommand>>, commands: seq<StreamCommand>, stopped: bool)
    requires |taken| < |writable|
    requires forall k1, k2 :: 0 <= k1 < k2 < |writable| ==> writable[k1] != writable[k2]
    requires OnlyListedChanged(mid, orig, writable) && Untouched(mid, orig, writable, |taken|)
    requires Yielded(orig, mid, writable, taken) && AllDrained(orig, writable, taken, |taken|)
    requires OnlyChanged(streams, mid, writable[|taken|])
    requires writable[|taken|] in mid && YieldedFrom(mid[writable[|taken|]], commands, Lookup(streams, writable[|taken|]))
    requires !stopped ==> commands == Drain(mid[writable[|taken|]])
    ensures OnlyListedChanged(streams, orig, writable) && Untouched(streams, orig, writable, |taken| + 1)
    ensures Yielded(orig, streams, writable, taken + [commands])
    ensures AllDrained(orig, writable, taken + [commands], |taken|)
    ensures !stopped ==> AllDrained(orig, writable, taken + [commands], |taken| + 1)
  {
    var k := |taken|;
    var t := taken + [commands];
    forall i | 0 <= i < k
      ensures Lookup(streams, writable[i]) == Lookup(mid, writable[i])
    {
    }
  }

  // ---------------------------------------------------------------------------------------
  // The connection

  class Conn {
    /** The frames waiting for the socket, oldest first. */
    var queuedWrite: seq<OutFrame>
    var goawayQueued: bool
    var streams: map<u32, HttpStream>
    /** Data octets the connection-level pump is owed back for parts it dropped. */
    var pumpOutWindowSize: nat
    /** The peer's SETTINGS_MAX_FRAME_SIZE. */
    const maxFrameSize: nat

    ghost predicate Valid() {
      0 < maxFrameSize <= MAX_PAYLOAD_LEN
    }

    constructor (maxFrameSize: nat)
      requires 0 < maxFrameSize <= MAX_PAYLOAD_LEN
      ensures Valid() && this.maxFrameSize == maxFrameSize
      ensures queuedWrite == [] && !goawayQueued && streams == map[] && pumpOutWindowSize == 0
    {
      this.maxFrameSize := maxFrameSize;
      queuedWrite := [];
      goawayQueued := false;
      streams := map[];
      pumpOutWindowSize := 0;
    }

    function HasWriteBufferCapacity(): bool
      reads this
    {
      QueuedBytes(queuedWrite) < WRITE_BUFFER_LIMIT
    }

    method WritePartData(streamId: u32, data: seq<byte>, endStream: bool)
      requires Valid()
      modifies this
      ensures queuedWrite == old(queuedWrite) + DataFramesFor(streamId, data, endStream, maxFrameSize)
      ensures streams == old(streams) && goawayQueued == old(goawayQueued)
      ensures pumpOutWindowSize == old(pumpOutWindowSize)
    {
      if endStream && |data| == 0 {
        var frame := DataFrames.WithData(streamId, []);
        frame := frame.SetFlag(DataFrames.DataFlag.EndStream);
        queuedWrite := queuedWrite + [DataOut(frame)];
        return;
      }
      var pos := 0;
      while pos < |data|
        invariant 0 <= pos <= |data|
        invariant streams == old(streams) && goawayQueued == old(goawayQueued)
        invariant pumpOutWindowSize == old(pumpOutWindowSize)
        invariant pos < |data| ==>
          queuedWrite + DataChunks(streamId, data[pos..], endStream, maxFrameSize)
          == old(queuedWrite) + DataChunks(streamId, data, endStream, maxFrameSize)
        invariant pos == |data| ==> queuedWrite == old(queuedWrite) + DataFramesFor(streamId, data, endStream, maxFrameSize)
      {
        var end := Min(|data|, pos + maxFrameSize);
        var endStreamInFrame := end == |data| && endStream;
        var frame := DataFrames.WithData(streamId, data[pos..end]);
        if endStreamInFrame {
          frame := frame.SetFlag(DataFrames.DataFlag.EndStream);
        }
        ghost var rest := data[pos..];
        if end < |data| {
          assert rest[..maxFrameSize] == data[pos..end] && rest[maxFrameSize..] == data[end..];
          assert DataChunks(streamId, rest, endStream, maxFrameSize)
              == [DataOut(frame)] + DataChunks(streamId, data[end..], endStream, maxFrameSize);
        } else {
          assert rest == data[pos..end];
          assert DataChunks(streamId, rest, endStream, maxFrameSize) == [DataOut(frame)];
        }
        queuedWrite := queuedWrite + [DataOut(frame)];
        pos := end;
      }
    }

    method WritePartHeaders(streamId: u32, headers: HeaderBlock, endStream: bool)
      requires Valid()
      modifies this
      ensures queuedWrite == old(queuedWrite) + [HeadersOut(HeadersPartFrame(streamId, endStream, maxFrameSize), headers)]
      ensures streams == old(streams) && goawayQueued == old(goawayQueued)
      ensures pumpOutWindowSize == old(pumpOutWindowSize)
    {
      var flags: Flags := 0;
      if endStream {
        flags := flags | HeadersFrames.HeadersFlag.EndStream.Bitmask();
      }
      queuedWrite := queuedWrite + [HeadersOut(HeadersMultiFrames.HeadersMultiFrame(flags, streamId, None, 0, maxFrameSize), headers)];
    }

    method WritePartRst(streamId: u32, code: ErrorCode)
      modifies this
      ensures queuedWrite == old(queuedWrite) + [RstOut(RstStream.New(streamId, code))]
      ensures streams == old(streams) && goawayQueued == old(goawayQueued)
      ensures pumpOutWindowSize == old(pumpOutWindowSize)
    {
      var frame := RstStream.New(streamId, code);
      queuedWrite := queuedWrite + [RstOut(frame)];
    }

    method WritePart(streamId: u32, command: StreamCommand)
      requires Valid()
      modifies this
      ensures queuedWrite == old(queuedWrite) + WritePartFrames(streamId, command, maxFrameSize)
      ensures streams == old(streams) && goawayQueued == old(goawayQueued)
      ensures pumpOutWindowSize == old(pumpOutWindowSize)
    {
      match command
      case DataCommand(data, endStream) => WritePartData(streamId, data, endStream);
      case HeadersCommand(headers, endStream) => WritePartHeaders(streamId, headers, endStream);
      case RstCommand(code) => WritePartRst(streamId, code);
    }

    /** Takes the next command from a stream that must exist, removing the stream when it is done. */
    method PopOutgForStream(streamId: u32) returns (r: Option<(u32, StreamCommand, bool)>)
      requires streamId in streams
      modifies this
      ensures var p := PopOutg(old(streams)[streamId]);
        && (r.None? <==> p.0.None?)
        && (r.Some? ==> r.value == (streamId, p.0.value, p.1.Some?))
        && streams == (if p.1.Some? then old(streams)[streamId := p.1.value] else old(streams) - {streamId})
      ensures queuedWrite == old(queuedWrite) && goawayQueued == old(goawayQueued)
      ensures pumpOutWindowSize == old(pumpOutWindowSize)
    {
      var p := PopOutg(streams[streamId]);
      if p.1.Some? {
        streams := streams[streamId := p.1.value];
      } else {
        streams := streams - {streamId};
      }
      if p.0.Some? {
        r := Some((streamId, p.0.value, p.1.Some?));
      } else {
        r := None;
      }
    }

    /**
     * Takes commands from one stream and queues their frames until the stream yields nothing,
     * is removed, or WRITE_BUFFER_LIMIT octets are queued (`stopped`).
     */
    method DrainStream(streamId: u32) returns (stopped: bool, wrote: bool, ghost commands: seq<StreamCommand>)
      requires Valid() && streamId in streams
      modifies this
      ensures queuedWrite == old(queuedWrite) + CommandFrames(streamId, commands, maxFrameSize)
      ensures TakenUnderLimit(old(queuedWrite), streamId, commands, maxFrameSize)
      ensures OnlyChanged(streams, old(streams), streamId)
      ensures YieldedFrom(old(streams)[streamId], commands, Lookup(streams, streamId))
      ensures !stopped ==> commands == Drain(old(streams)[streamId])
      ensures wrote <==> commands != []
      ensures stopped ==> !HasWriteBufferCapacity()
      ensures goawayQueued == old(goawayQueued) && pumpOutWindowSize == old(pumpOutWindowSize)
    {
      commands := [];
      wrote := false;
      YieldedNothing(streams[streamId]);
      while true
        invariant streamId in streams
        invariant wrote <==> commands != []
        invariant queuedWrite == old(queuedWrite) + CommandFrames(streamId, commands, maxFrameSize)
        invariant TakenUnderLimit(old(queuedWrite), streamId, commands, maxFrameSize)
        invariant OnlyChanged(streams, old(streams), streamId)
        invariant YieldedFrom(old(streams)[streamId], commands, Some(streams[streamId]))
        invariant goawayQueued == old(goawayQueued) && pumpOutWindowSize == old(pumpOutWindowSize)
        decreases Pending(streams[streamId])
      {
        if !HasWriteBufferCapacity() {
          return true, wrote, commands;
        }
        ghost var queued := queuedWrite;
        var r := TakeNext(streamId, old(streams)[streamId], commands);
        if r.Some? {
          QueueStepFrames(old(queuedWrite), queued, streamId, commands, r.value.1, maxFrameSize);
          QueueStepUnderLimit(old(queuedWrite), queued, streamId, commands, r.value.1, maxFrameSize);
          commands := commands + [r.value.1];
          wrote := true;
          if !r.value.2 {
            return false, wrote, commands;
          }
        } else {
          return false, wrote, commands;
        }
      }
    }

    /**
     * One turn of the loop in `DrainStream`: pops the stream's next command and queues its
     * frames. `orig` is the stream before it yielded `commands`.
     */
    method TakeNext(streamId: u32, ghost orig: HttpStream, ghost commands: seq<StreamCommand>)
      returns (r: Option<(u32, StreamCommand, bool)>)
      requires Valid() && streamId in streams
      requires YieldedFrom(orig, commands, Some(streams[streamId]))
      modifies this
      ensures r.None? ==> streams == old(streams) && queuedWrite == old(queuedWrite) && commands == Drain(orig)
      ensures r.Some? ==>
        && r.value.0 == streamId
        && queuedWrite == old(queuedWrite) + WritePartFrames(streamId, r.value.1, maxFrameSize)
        && YieldedFrom(orig, commands + [r.value.1], Lookup(streams, streamId))
        && (r.value.2 <==> streamId in streams)
        && (streamId in streams ==> Pending(streams[streamId]) < Pending(old(streams)[streamId]))
      ensures OnlyChanged(streams, old(streams), streamId)
      ensures goawayQueued == old(goawayQueued) && pumpOutWindowSize == old(pumpOutWindowSize)
    {
      YieldStep(orig, commands, streams[streamId]);
      r := PopOutgForStream(streamId);
      if r.Some? {
        WritePart(streamId, r.value.1);
      }
    }

    /**
     * Moves parts from the writable streams into the write queue, stream by stream in the
     * order listed, while fewer than WRITE_BUFFER_LIMIT octets are queued. `taken[i]` holds
     * the commands taken from `writable[i]`.
     */
    method BufferOutgConn(writable: seq<u32>) returns (updated: bool, ghost taken: seq<seq<StreamCommand>>)
      requires Valid()
      requires forall k :: 0 <= k < |writable| ==> writable[k] in streams
      requires forall k, l :: 0 <= k < l < |writable| ==> writable[k] != writable[l]
      modifies this
      ensures |taken| <= |writable|
      ensures updated <==> TakenCount(taken) > 0
      ensures queuedWrite == old(queuedWrite) + TakenFrames(writable, taken, maxFrameSize)
      ensures AllTakenUnderLimit(old(queuedWrite), writable, taken, maxFrameSize)
      ensures Yielded(old(streams), streams, writable, taken)
      ensures |taken| > 0 ==> AllDrained(old(streams), writable, taken, |taken| - 1)
      ensures HasWriteBufferCapacity() ==> |taken| == |writable| && AllDrained(old(streams), writable, taken, |writable|)
      ensures Untouched(streams, old(streams), writable, |taken|)
      ensures OnlyListedChanged(streams, old(streams), writable)
      ensures goawayQueued == old(goawayQueued) && pumpOutWindowSize == old(pumpOutWindowSize)
    {
      updated := false;
      taken := [];
      var stopped := !HasWriteBufferCapacity();
      var k := 0;
      while k < |writable| && !stopped
        invariant k <= |writable| && |taken| == k
        invariant updated <==> TakenCount(taken) > 0
        invariant BufferProgress(old(queuedWrite), old(streams), queuedWrite, streams, writable, taken, maxFrameSize, stopped)
        invariant stopped ==> !HasWriteBufferCapacity()
        invariant goawayQueued == old(goawayQueued) && pumpOutWindowSize == old(pumpOutWindowSize)
        decreases |writable| - k
      {
        ghost var q := queuedWrite;
        ghost var mid := streams;
        var wrote;
        ghost var commands;
        stopped, wrote, commands := DrainStream(writable[k]);
        BufferStep(old(queuedWrite), old(streams), q, mid, queuedWrite, streams, writable, taken, commands, maxFrameSize, stopped);
        TakenCountSnoc(taken, commands);
        taken := taken + [commands];
        updated := updated || wrote;
        k := k + 1;
      }
    }

    /** A part for a stream that is gone is dropped, and the data it carried is given back to the pump. */
    method ProcessStreamEnqueue(streamId: u32, part: Part)
      modifies this
      ensures streamId in old(streams) ==>
        && streams == old(streams)[streamId := old(streams)[streamId].(outQueue := old(streams)[streamId].outQueue + [part])]
        && pumpOutWindowSize == old(pumpOutWindowSize)
      ensures streamId !in old(streams) ==>
        && streams == old(streams)
        && pumpOutWindowSize == old(pumpOutWindowSize) + (if part.content.Data? then |part.content.data| else 0)
      ensures queuedWrite == old(queuedWrite) && goawayQueued == old(goawayQueued)
    {
      if streamId in streams {
        var s := streams[streamId];
        streams := streams[streamId := s.(outQueue := s.outQueue + [part])];
      } else {
        if part.content.Data? {
          pumpOutWindowSize := pumpOutWindowSize + |part.content.data|;
        }
      }
    }

    /** Closes the outgoing side of the stream, when it still exists. */
    method ProcessStreamEnd(streamId: u32, code: ErrorCode)
      modifies this
      ensures streamId in old(streams) ==> streams == old(streams)[streamId := old(streams)[streamId].(outClosed := Some(code))]
      ensures streamId !in old(streams) ==> streams == old(streams)
      ensures queuedWrite == old(queuedWrite) && goawayQueued == old(goawayQueued)
      ensures pumpOutWindowSize == old(pumpOutWindowSize)
    {
      if streamId in streams {
        var s := streams[streamId];
        streams := streams[streamId := s.(outClosed := Some(code))];
      }
    }

    /** Queues GOAWAY naming the last stream the peer opened. */
    method SendGoaway(lastPeerStreamId: u32, code: ErrorCode)
      modifies this
      ensures queuedWrite == old(queuedWrite) + [GoawayOut(lastPeerStreamId, code)] && goawayQueued
      ensures streams == old(streams) && pumpOutWindowSize == old(pumpOutWindowSize)
    {
      queuedWrite := queuedWrite + [GoawayOut(lastPeerStreamId, code)];
      goawayQueued := true;
    }

    /**
     * After GOAWAY the connection only flushes: the socket takes the first `flushed` queued
     * frames, and the connection is done once nothing is left.
     */
    method ProcessGoawayState(flushed: nat) returns (exit: IterationExit)
      modifies this
      ensures exit == Continue <==> !old(goawayQueued)
      ensures !old(goawayQueued) ==> queuedWrite == old(queuedWrite)
      ensures old(goawayQueued) ==>
        && queuedWrite == old(queuedWrite)[Min(flushed, |old(queuedWrite)|)..]
        && (exit == ExitEarly <==> queuedWrite == [])
        && (exit == NotReady <==> queuedWrite != [])
      ensures streams == old(streams) && goawayQueued == old(goawayQueued)
      ensures pumpOutWindowSize == old(pumpOutWindowSize)
    {
      if goawayQueued {
        queuedWrite := queuedWrite[Min(flushed, |queuedWrite|)..];
        if queuedWrite == [] {
          exit := ExitEarly;
        } else {
          exit := NotReady;
        }
      } else {
        exit := Continue;
      }
    }
  }
}
