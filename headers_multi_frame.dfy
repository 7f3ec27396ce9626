/**
 * Serialising a header block as one HEADERS frame followed by as many CONTINUATION
 * frames (section 6.10 of RFC 7540) as the peer's maximum frame size makes necessary,
 * writing each frame header as a placeholder and patching it once its length is known.
 */
module HeadersMultiFrames {
  import opened Wrappers
  import opened Bytes
  import opened Frame
  import opened WriteBuffers
  import opened HeadersFrames

  const CONTINUATION_FRAME_TYPE: byte := 0x9
  /** The only flag a CONTINUATION frame defines. */
  const CONTINUATION_END_HEADERS: bv8 := 0x4
  /** The header written when a frame is opened, before its length is known. */
  const PLACEHOLDER_HEADER: FrameHeader := FrameHeader(0, 0, 0, 0)
  /** Its nine octets, all zero. */
  const PLACEHOLDER: seq<byte> := [0, 0, 0, 0, 0, 0, 0, 0, 0]

  datatype HeadersFrameType = Headers | Continuation
  {
    function FrameType(): byte {
      match this
      case Headers => HEADERS_FRAME_TYPE
      case Continuation => CONTINUATION_FRAME_TYPE
    }

    /**
     * The flags of one frame of the block: a HEADERS frame keeps the block's flags,
     * a CONTINUATION frame has none of them; END_HEADERS is on the last frame only.
     * The block's flags may not carry END_HEADERS themselves (the source asserts it).
     */
    function MakeFlags(headerFlags: Flags, last: bool): (r: Flags)
      requires !IsSet(headerFlags, EndHeaders.Bitmask())
      ensures IsSet(r, EndHeaders.Bitmask()) <==> last
      ensures this == Headers ==> r & !EndHeaders.Bitmask() == headerFlags
      ensures this == Continuation ==> r & !CONTINUATION_END_HEADERS == 0
    {
      match this
      case Headers => if last then headerFlags | EndHeaders.Bitmask() else headerFlags
      case Continuation => if last then CONTINUATION_END_HEADERS else 0
    }
  }

  /** The first frame of a block is HEADERS, every later one CONTINUATION. */
  function TypeAt(index: nat): HeadersFrameType {
    if index == 0 then Headers else Continuation
  }

  function FrameHeaderAt(index: nat, payloadLen: nat, last: bool, flags: Flags, streamId: u32): FrameHeader
    requires !IsSet(flags, EndHeaders.Bitmask())
  {
    FrameHeader(payloadLen, TypeAt(index).FrameType(), TypeAt(index).MakeFlags(flags, last), streamId)
  }

  /** The octets of the frame at `index` of a block. */
  function EncodeFrame(index: nat, payload: seq<byte>, last: bool, flags: Flags, streamId: u32): seq<byte>
    requires !IsSet(flags, EndHeaders.Bitmask())
  {
    PackHeader(FrameHeaderAt(index, |payload|, last, flags, streamId)) + payload
  }

  /** Frames `first`, `first + 1`, ... carrying `payloads`; the one at `lastIndex`, if any, is last. */
  function EncodeFrames(payloads: seq<seq<byte>>, first: nat, lastIndex: int, flags: Flags, streamId: u32): seq<byte>
    requires !IsSet(flags, EndHeaders.Bitmask())
    decreases |payloads|
  {
    if payloads == [] then []
    else EncodeFrame(first, payloads[0], first == lastIndex, flags, streamId)
         + EncodeFrames(payloads[1..], first + 1, lastIndex, flags, streamId)
  }

  function Concat(ps: seq<seq<byte>>): seq<byte>
    decreases |ps|
  {
    if ps == [] then [] else ps[0] + Concat(ps[1..])
  }

  /** The payloads of a block: full frames of `maxFrameSize` octets, then the rest (possibly empty). */
  function SplitBlock(block: seq<byte>, maxFrameSize: nat): seq<seq<byte>>
    requires 0 < maxFrameSize
    decreases |block|
  {
    if |block| <= maxFrameSize then [block]
    else [block[..maxFrameSize]] + SplitBlock(block[maxFrameSize..], maxFrameSize)
  }

  /**
   * The octets the multi-frame serialiser writes for an encoded header block: one 9-octet
   * header for each frame of the split, and the block itself.
   */
  function Encode(block: seq<byte>, flags: Flags, streamId: u32, maxFrameSize: nat): (r: seq<byte>)
    requires 0 < maxFrameSize && !IsSet(flags, EndHeaders.Bitmask())
    ensures |r| == FRAME_HEADER_LEN * |SplitBlock(block, maxFrameSize)| + |block|
  {
    var ps := SplitBlock(block, maxFrameSize);
    SplitBlockSpec(block, maxFrameSize);
    EncodeFramesLength(ps, 0, |ps| - 1, flags, streamId);
    EncodeFrames(ps, 0, |ps| - 1, flags, streamId)
  }

  lemma {:induction false} EncodeFramesLength(ps: seq<seq<byte>>, first: nat, lastIndex: int, flags: Flags, streamId: u32)
    requires !IsSet(flags, EndHeaders.Bitmask())
    ensures |EncodeFrames(ps, first, lastIndex, flags, streamId)| == FRAME_HEADER_LEN * |ps| + |Concat(ps)|
    decreases |ps|
  {
    if ps != [] {
      EncodeFramesLength(ps[1..], first + 1, lastIndex, flags, streamId);
    }
  }

  lemma {:induction false} ConcatSnoc(ps: seq<seq<byte>>, p: seq<byte>)
    ensures Concat(ps + [p]) == Concat(ps) + p
    decreases |ps|
  {
    if ps != [] {
      assert (ps + [p])[1..] == ps[1..] + [p];
      ConcatSnoc(ps[1..], p);
    }
  }

  /**
   * The split puts the whole block into the payloads, none longer than the maximum,
   * every one but the last exactly the maximum and the last one non-empty unless it is
   * the only one: so it makes the fewest frames that can hold the block, at least one.
   */
  lemma {:induction false} SplitBlockSpec(block: seq<byte>, maxFrameSize: nat)
    requires 0 < maxFrameSize
    ensures var ps := SplitBlock(block, maxFrameSize);
      && Concat(ps) == block
      && |ps| >= 1
      && (forall i :: 0 <= i < |ps| ==> |ps[i]| <= maxFrameSize)
      && (forall i :: 0 <= i < |ps| - 1 ==> |ps[i]| == maxFrameSize)
      && (|ps| > 1 ==> |ps[|ps| - 1]| > 0)
      && (|ps| - 1) * maxFrameSize < |block| + (if |block| == 0 then 1 else 0)
      && |block| <= |ps| * maxFrameSize
    decreases |block|
  {
    var ps := SplitBlock(block, maxFrameSize);
    if |block| <= maxFrameSize {
      assert Concat(ps) == block + Concat([]);
    } else {
      var rest := block[maxFrameSize..];
      SplitBlockSpec(rest, maxFrameSize);
      var ps' := SplitBlock(rest, maxFrameSize);
      assert ps[1..] == ps';
      assert block == block[..maxFrameSize] + rest;
      MulSucc(|ps'| - 1, maxFrameSize);
      MulSucc(|ps'|, maxFrameSize);
    }
  }

  lemma MulSucc(a: int, m: int)
    ensures (a + 1) * m == a * m + m
  {
  }

  /** A block made of full frames and a final, possibly partial one splits back into exactly those. */
  lemma {:induction false} SplitOfFullFrames(done: seq<seq<byte>>, cur: seq<byte>, maxFrameSize: nat)
    requires 0 < maxFrameSize && |cur| <= maxFrameSize
    requires forall j :: 0 <= j < |done| ==> |done[j]| == maxFrameSize
    requires done != [] ==> cur != []
    ensures SplitBlock(Concat(done) + cur, maxFrameSize) == done + [cur]
    decreases |done|
  {
    if done != [] {
      var rest := Concat(done[1..]) + cur;
      var b := Concat(done) + cur;
      assert b == done[0] + rest;
      assert |done[0]| == maxFrameSize && |rest| > 0;
      assert b[..maxFrameSize] == done[0] && b[maxFrameSize..] == rest;
      SplitOfFullFrames(done[1..], cur, maxFrameSize);
      assert done + [cur] == [done[0]] + (done[1..] + [cur]);
    } else {
      assert Concat(done) + cur == cur;
    }
  }

  lemma {:induction false} EncodeFramesSnoc(ps: seq<seq<byte>>, p: seq<byte>, first: nat, lastIndex: int, flags: Flags, streamId: u32)
    requires !IsSet(flags, EndHeaders.Bitmask())
    ensures EncodeFrames(ps + [p], first, lastIndex, flags, streamId)
         == EncodeFrames(ps, first, lastIndex, flags, streamId)
            + EncodeFrame(first + |ps|, p, first + |ps| == lastIndex, flags, streamId)
    decreases |ps|
  {
    if ps == [] {
      assert EncodeFrames([p], first, lastIndex, flags, streamId)
          == EncodeFrame(first, p, first == lastIndex, flags, streamId) + EncodeFrames([], first + 1, lastIndex, flags, streamId);
    } else {
      assert (ps + [p])[1..] == ps[1..] + [p];
      EncodeFramesSnoc(ps[1..], p, first + 1, lastIndex, flags, streamId);
    }
  }

  /** Which index is last only matters when it is one of the frames encoded. */
  lemma {:induction false} EncodeFramesLastOutside(ps: seq<seq<byte>>, first: nat, lastIndex: int, otherLast: int, flags: Flags, streamId: u32)
    requires !IsSet(flags, EndHeaders.Bitmask())
    requires !(first <= lastIndex < first + |ps|) && !(first <= otherLast < first + |ps|)
    ensures EncodeFrames(ps, first, lastIndex, flags, streamId) == EncodeFrames(ps, first, otherLast, flags, streamId)
    decreases |ps|
  {
    if ps != [] {
      EncodeFramesLastOutside(ps[1..], first + 1, lastIndex, otherLast, flags, streamId);
    }
  }

  /** Reads consecutive frames (header, then as many octets as it announces) until the input runs out. */
  function Unframe(b: seq<byte>): seq<RawFrame>
    decreases |b|
  {
    if |b| < FRAME_HEADER_LEN then []
    else
      var h := UnpackHeader(b[..FRAME_HEADER_LEN]);
      if |b| < FRAME_HEADER_LEN + h.payloadLen then []
      else [RawFrame(h, b[FRAME_HEADER_LEN..FRAME_HEADER_LEN + h.payloadLen])]
           + Unframe(b[FRAME_HEADER_LEN + h.payloadLen..])
  }

  lemma UnframeCons(h: FrameHeader, p: seq<byte>, rest: seq<byte>)
    requires Packable(h) && h.payloadLen == |p|
    ensures Unframe(PackHeader(h) + p + rest) == [RawFrame(h, p)] + Unframe(rest)
  {
    var b := PackHeader(h) + p + rest;
    assert b[..FRAME_HEADER_LEN] == PackHeader(h);
    HeaderRoundTrip(h);
    assert b[FRAME_HEADER_LEN..FRAME_HEADER_LEN + |p|] == p;
    assert b[FRAME_HEADER_LEN + |p|..] == rest;
  }

  /** Writes frames one after the other. */
  function Pack(fs: seq<RawFrame>): seq<byte>
    decreases |fs|
  {
    if fs == [] then [] else PackHeader(fs[0].header) + fs[0].payload + Pack(fs[1..])
  }

  /** Frames whose headers are packable and announce their payload's length read back unchanged. */
  lemma {:induction false} UnframePack(fs: seq<RawFrame>)
    requires forall i :: 0 <= i < |fs| ==> Packable(fs[i].header) && fs[i].header.payloadLen == |fs[i].payload|
    ensures Unframe(Pack(fs)) == fs
    decreases |fs|
  {
    if fs == [] {
      assert Unframe([]) == [];
    } else {
      UnframePack(fs[1..]);
      UnframeCons(fs[0].header, fs[0].payload, Pack(fs[1..]));
    }
  }

  /** The raw frames a block's payloads should read back as. */
  function ExpectedFrames(ps: seq<seq<byte>>, first: nat, lastIndex: int, flags: Flags, streamId: u32): (fs: seq<RawFrame>)
    requires !IsSet(flags, EndHeaders.Bitmask())
    ensures |fs| == |ps|
  {
    seq(|ps|, i requires 0 <= i < |ps| =>
      RawFrame(FrameHeaderAt(first + i, |ps[i]|, first + i == lastIndex, flags, streamId), ps[i]))
  }

  lemma {:induction false} EncodeFramesPack(ps: seq<seq<byte>>, first: nat, lastIndex: int, flags: Flags, streamId: u32)
    requires !IsSet(flags, EndHeaders.Bitmask())
    ensures EncodeFrames(ps, first, lastIndex, flags, streamId) == Pack(ExpectedFrames(ps, first, lastIndex, flags, streamId))
    decreases |ps|
  {
    if ps != [] {
      var fs := ExpectedFrames(ps, first, lastIndex, flags, streamId);
      assert fs[1..] == ExpectedFrames(ps[1..], first + 1, lastIndex, flags, streamId);
      EncodeFramesPack(ps[1..], first + 1, lastIndex, flags, streamId);
    }
  }

  /** Reading the encoded frames back gives one raw frame per payload, with the expected header. */
  lemma UnframeFrames(ps: seq<seq<byte>>, first: nat, lastIndex: int, flags: Flags, streamId: u32)
    requires !IsSet(flags, EndHeaders.Bitmask()) && streamId < STREAM_ID_LIMIT
    requires forall i :: 0 <= i < |ps| ==> |ps[i]| <= MAX_PAYLOAD_LEN
    ensures Unframe(EncodeFrames(ps, first, lastIndex, flags, streamId)) == ExpectedFrames(ps, first, lastIndex, flags, streamId)
  {
    EncodeFramesPack(ps, first, lastIndex, flags, streamId);
    UnframePack(ExpectedFrames(ps, first, lastIndex, flags, streamId));
  }

  function Payloads(fs: seq<RawFrame>): seq<byte>
    decreases |fs|
  {
    if fs == [] then [] else fs[0].payload + Payloads(fs[1..])
  }

  lemma {:induction false} PayloadsOf(fs: seq<RawFrame>, ps: seq<seq<byte>>)
    requires |fs| == |ps| && forall i :: 0 <= i < |ps| ==> fs[i].payload == ps[i]
    ensures Payloads(fs) == Concat(ps)
    decreases |ps|
  {
    if ps != [] {
      PayloadsOf(fs[1..], ps[1..]);
    }
  }

  /** The raw frames a header block should be written as. */
  function BlockFrames(block: seq<byte>, flags: Flags, streamId: u32, maxFrameSize: nat): seq<RawFrame>
    requires 0 < maxFrameSize && !IsSet(flags, EndHeaders.Bitmask())
  {
    var ps := SplitBlock(block, maxFrameSize);
    ExpectedFrames(ps, 0, |ps| - 1, flags, streamId)
  }

  /** Reading back what the serialiser writes gives exactly the frames the block calls for. */
  lemma EncodeReadsBack(block: seq<byte>, flags: Flags, streamId: u32, maxFrameSize: nat)
    requires 0 < maxFrameSize <= MAX_PAYLOAD_LEN
    requires !IsSet(flags, EndHeaders.Bitmask()) && streamId < STREAM_ID_LIMIT
    ensures Unframe(Encode(block, flags, streamId, maxFrameSize)) == BlockFrames(block, flags, streamId, maxFrameSize)
  {
    var ps := SplitBlock(block, maxFrameSize);
    SplitBlockSpec(block, maxFrameSize);
    UnframeFrames(ps, 0, |ps| - 1, flags, streamId);
  }

  /**
   * The payloads of a header block's frames: every one at most the maximum frame size and
   * announced by its header, every one but the last exactly that size, as few frames as
   * hold the block (at least one); put together they are the block.
   */
  lemma MultiFramePayloads(block: seq<byte>, flags: Flags, streamId: u32, maxFrameSize: nat)
    requires 0 < maxFrameSize
    requires !IsSet(flags, EndHeaders.Bitmask())
    ensures var fs := BlockFrames(block, flags, streamId, maxFrameSize);
      && |fs| >= 1
      && (|fs| - 1) * maxFrameSize < |block| + (if |block| == 0 then 1 else 0)
      && |block| <= |fs| * maxFrameSize
      && Payloads(fs) == block
      && (forall i :: 0 <= i < |fs| ==> fs[i].header.payloadLen == |fs[i].payload| <= maxFrameSize)
      && (forall i :: 0 <= i < |fs| - 1 ==> |fs[i].payload| == maxFrameSize)
  {
    var ps := SplitBlock(block, maxFrameSize);
    SplitBlockSpec(block, maxFrameSize);
    PayloadsOf(BlockFrames(block, flags, streamId, maxFrameSize), ps);
  }

  /**
   * The headers of a header block's frames: a HEADERS frame carrying the block's flags,
   * then CONTINUATION frames without flags, END_HEADERS on the last frame only, all on
   * the block's stream.
   */
  lemma MultiFrameHeaders(block: seq<byte>, flags: Flags, streamId: u32, maxFrameSize: nat)
    requires 0 < maxFrameSize
    requires !IsSet(flags, EndHeaders.Bitmask())
    ensures var fs := BlockFrames(block, flags, streamId, maxFrameSize);
      && |fs| >= 1
      && fs[0].header.frameType == HEADERS_FRAME_TYPE
      && fs[0].header.flags & !EndHeaders.Bitmask() == flags
      && (forall i :: 0 < i < |fs| ==> fs[i].header.frameType == CONTINUATION_FRAME_TYPE)
      && (forall i :: 0 < i < |fs| ==> fs[i].header.flags & !CONTINUATION_END_HEADERS == 0)
      && (forall i :: 0 <= i < |fs| ==> (IsSet(fs[i].header.flags, EndHeaders.Bitmask()) <==> i == |fs| - 1))
      && (forall i :: 0 <= i < |fs| ==> fs[i].header.streamId == streamId)
  {
    var ps := SplitBlock(block, maxFrameSize);
    assert |ps| >= 1;
    var fs := BlockFrames(block, flags, streamId, maxFrameSize);
    forall i | 0 <= i < |fs|
      ensures fs[i].header == FrameHeaderAt(i, |ps[i]|, i == |ps| - 1, flags, streamId)
    {
    }
  }

  /**
   * When the block's flags are only END_STREAM or nothing, the first frame parses as a
   * HEADERS frame carrying the first part of the block, with no dependency or padding.
   */
  lemma FirstFrameParses(block: seq<byte>, endStream: bool, streamId: u32, maxFrameSize: nat)
    requires 0 < maxFrameSize <= MAX_PAYLOAD_LEN && 0 < streamId < STREAM_ID_LIMIT
    ensures var flags := if endStream then EndStream.Bitmask() else 0;
      var ps := SplitBlock(block, maxFrameSize);
      FromRaw(BlockFrames(block, flags, streamId, maxFrameSize)[0])
      == Ok(HeadersFrame(Headers.MakeFlags(flags, |ps| == 1), streamId, ps[0], None, 0))
  {
    var flags: Flags := if endStream then EndStream.Bitmask() else 0;
    var ps := SplitBlock(block, maxFrameSize);
    SplitBlockSpec(block, maxFrameSize);
    var f := Headers.MakeFlags(flags, |ps| == 1);
    assert !IsSet(f, Padded.Bitmask()) && !IsSet(f, Priority.Bitmask());
  }

  /**
   * Patching the open frame's placeholder with its real header turns the buffer's
   * contents into the closed frames followed by that frame.
   */
  lemma FinishStep(start: seq<byte>, done: seq<seq<byte>>, cur: seq<byte>, last: bool, flags: Flags, streamId: u32,
                   before: seq<byte>, after: seq<byte>)
    requires !IsSet(flags, EndHeaders.Bitmask())
    requires before == start + EncodeFrames(done, 0, -1, flags, streamId) + PLACEHOLDER + cur
    requires var offset := |start| + |EncodeFrames(done, 0, -1, flags, streamId)|;
      after == before[..offset] + PackHeader(FrameHeaderAt(|done|, |cur|, last, flags, streamId))
               + before[offset + FRAME_HEADER_LEN..]
    ensures after == start + EncodeFrames(done + [cur], 0, if last then |done| else -1, flags, streamId)
  {
    var closed := EncodeFrames(done, 0, -1, flags, streamId);
    var header := PackHeader(FrameHeaderAt(|done|, |cur|, last, flags, streamId));
    Patched(start, closed, header, cur, before, after);
    CloseFrame(done, cur, last, flags, streamId);
  }

  /** Overwriting the placeholder after the closed frames leaves everything around it in place. */
  lemma Patched(start: seq<byte>, closed: seq<byte>, header: seq<byte>, cur: seq<byte>, before: seq<byte>, after: seq<byte>)
    requires |header| == FRAME_HEADER_LEN
    requires before == start + closed + PLACEHOLDER + cur
    requires after == before[..|start| + |closed|] + header + before[|start| + |closed| + FRAME_HEADER_LEN..]
    ensures after == start + (closed + (header + cur))
  {
    assert before[..|start| + |closed|] == start + closed;
    assert before[|start| + |closed| + FRAME_HEADER_LEN..] == cur;
  }

  /** Closing the open frame appends it to the frames already closed. */
  lemma CloseFrame(done: seq<seq<byte>>, cur: seq<byte>, last: bool, flags: Flags, streamId: u32)
    requires !IsSet(flags, EndHeaders.Bitmask())
    ensures EncodeFrames(done, 0, -1, flags, streamId) + EncodeFrame(|done|, cur, last, flags, streamId)
         == EncodeFrames(done + [cur], 0, if last then |done| else -1, flags, streamId)
  {
    var lastIndex := if last then |done| else -1;
    EncodeFramesSnoc(done, cur, 0, lastIndex, flags, streamId);
    EncodeFramesLastOutside(done, 0, lastIndex, -1, flags, streamId);
  }

  /** The multi-frame form of a HEADERS frame; the header list itself is left to the HPACK encoder. */
  datatype HeadersMultiFrame = HeadersMultiFrame(flags: Flags, streamId: u32,
                                                 streamDep: Option<StreamDependency>, paddingLen: byte,
                                                 maxFrameSize: nat)

  /**
   * The sink the HPACK encoder writes into: it keeps one frame open, fills it up to the
   * maximum frame size, and on overflow closes it and opens a CONTINUATION frame. The
   * open frame's offset is counted from the buffer's read cursor, so it survives compaction.
   */
  class EncodeBufForHeadersMultiFrame {
    var currentFrameType: HeadersFrameType
    var currentFrameOffset: nat
    const streamId: u32
    const flags: Flags
    const builder: WriteBufferTailVec
    const maxFrameSize: nat

    /** The octets that were in the buffer before the first frame. */
    ghost const start: seq<byte>
    /** The payloads of the frames already closed. */
    ghost var done: seq<seq<byte>>
    /** The payload written into the open frame so far. */
    ghost var cur: seq<byte>
    /** Whether a frame is open (its placeholder header written). */
    ghost var isOpen: bool

    ghost predicate Valid()
      reads this, builder.buf
    {
      && builder.buf.Valid()
      && 0 < maxFrameSize
      && !IsSet(flags, EndHeaders.Bitmask())
      && |cur| <= maxFrameSize
      && (forall j :: 0 <= j < |done| ==> |done[j]| == maxFrameSize)
      && (isOpen ==>
            && currentFrameOffset == |start| + |EncodeFrames(done, 0, -1, flags, streamId)|
            && builder.buf.Bytes() == start + EncodeFrames(done, 0, -1, flags, streamId) + PLACEHOLDER + cur)
      && (!isOpen ==> cur == [] && builder.buf.Bytes() == start + EncodeFrames(done, 0, -1, flags, streamId))
    }

    /** The open frame has the type its index calls for. */
    ghost predicate TypeAgrees()
      reads this
    {
      currentFrameType == TypeAt(|done|)
    }

    /** A CONTINUATION frame is never left empty: once a frame is closed, the open one has content. */
    ghost predicate Settled()
      reads this
    {
      done != [] ==> cur != []
    }

    /** Everything the encoder has written so far. */
    ghost function Written(): seq<byte>
      reads this
    {
      Concat(done) + cur
    }

    constructor (flags: Flags, streamId: u32, builder: WriteBufferTailVec, maxFrameSize: nat)
      requires builder.buf.Valid() && 0 < maxFrameSize && !IsSet(flags, EndHeaders.Bitmask())
      ensures Valid() && !isOpen && done == [] && TypeAgrees() && currentFrameType == Headers
      ensures start == builder.buf.Bytes()
      ensures this.flags == flags && this.streamId == streamId && this.builder == builder
      ensures this.maxFrameSize == maxFrameSize
    {
      this.flags := flags;
      this.streamId := streamId;
      this.builder := builder;
      this.maxFrameSize := maxFrameSize;
      currentFrameType := Headers;
      currentFrameOffset := builder.Remaining();
      start := builder.buf.Bytes();
      done := [];
      cur := [];
      isOpen := false;
    }

    /** Records where the frame starts and writes a placeholder header. */
    method OpenFrame()
      requires Valid() && !isOpen
      modifies this, builder.buf
      ensures Valid() && isOpen && done == old(done) && cur == []
      ensures currentFrameType == old(currentFrameType)
    {
      currentFrameOffset := builder.Remaining();
      var placeholder := PackHeader(PLACEHOLDER_HEADER);
      assert placeholder == PLACEHOLDER;
      builder.ExtendFromSlice(placeholder);
      isOpen := true;
    }

    /**
     * Patches the placeholder with the frame's real header: its length is what was written
     * since the placeholder, its type and flags those of its index and of `last`.
     */
    method FinishFrame(last: bool)
      requires Valid() && isOpen && TypeAgrees()
      requires !last ==> |cur| == maxFrameSize
      modifies this, builder.buf
      ensures done == old(done) + [old(cur)] && cur == [] && !isOpen
      ensures currentFrameType == old(currentFrameType)
      ensures builder.buf.Valid()
      ensures builder.buf.Bytes()
           == start + EncodeFrames(done, 0, if last then |done| - 1 else -1, flags, streamId)
      ensures !last ==> Valid()
    {
      var frameLength := builder.Remaining() - currentFrameOffset;
      var length := frameLength - FRAME_HEADER_LEN;
      var h := FrameHeader(length, currentFrameType.FrameType(), currentFrameType.MakeFlags(flags, last), streamId);
      ghost var before := builder.buf.Bytes();
      builder.PatchBuf(currentFrameOffset, PackHeader(h));
      FinishStep(start, done, cur, last, flags, streamId, before, builder.buf.Bytes());
      done := done + [cur];
      cur := [];
      isOpen := false;
    }

    /** How much more payload fits into the open frame. */
    function RemInCurrentFrame(): (r: nat)
      reads this, builder.buf
      requires Valid() && isOpen
      ensures r == maxFrameSize - |cur|
    {
      var currentFrameLen := builder.Remaining() - currentFrameOffset;
      var currentFramePayloadLen := currentFrameLen - FRAME_HEADER_LEN;
      maxFrameSize - currentFramePayloadLen
    }

    /** Copies octets that fit into the open frame. */
    method AppendToFrame(chunk: seq<byte>)
      requires Valid() && isOpen && |cur| + |chunk| <= maxFrameSize
      modifies this, builder.buf
      ensures Valid() && isOpen && done == old(done) && cur == old(cur) + chunk
      ensures currentFrameType == old(currentFrameType)
      ensures Written() == old(Written()) + chunk
    {
      builder.ExtendFromSlice(chunk);
      cur := cur + chunk;
    }

    /** Copies as much of `rest` as fits into the open frame; returns what did not fit. */
    method FillFrame(rest: seq<byte>) returns (left: seq<byte>)
      requires Valid() && isOpen && TypeAgrees()
      modifies this, builder.buf
      ensures Valid() && isOpen && TypeAgrees() && done == old(done)
      ensures Written() + left == old(Written()) + rest
      ensures |left| <= |rest| && (old(cur) + rest != [] ==> cur != [])
      ensures left != [] ==> |cur| == maxFrameSize
      ensures |left| == |rest| && rest != [] ==> |old(cur)| == maxFrameSize
    {
      var rem := RemInCurrentFrame();
      var copyHere := if |rest| < rem then |rest| else rem;
      ghost var w := Written();
      AppendToFrame(rest[..copyHere]);
      assert Written() + rest[copyHere..] == w + rest by {
        assert rest == rest[..copyHere] + rest[copyHere..];
      }
      left := rest[copyHere..];
    }

    /** Appends octets of the header block, closing full frames and opening CONTINUATION frames. */
    method WriteAll(bytes: seq<byte>)
      requires Valid() && isOpen && TypeAgrees() && Settled()
      modifies this, builder.buf
      ensures Valid() && isOpen && TypeAgrees() && Settled()
      ensures Written() == old(Written()) + bytes
    {
      var rest := bytes;
      while true
        invariant Valid() && isOpen && TypeAgrees()
        invariant Written() + rest == old(Written()) + bytes
        invariant done != [] && cur == [] ==> rest != []
        decreases |rest|, if |cur| == maxFrameSize then 1 else 0
      {
        var left := FillFrame(rest);
        if left == [] {
          return;
        }
        NextFrame();
        rest := left;
      }
    }

    /** Closes the full frame and opens a CONTINUATION frame after it. */
    method NextFrame()
      requires Valid() && isOpen && TypeAgrees() && |cur| == maxFrameSize
      modifies this, builder.buf
      ensures Valid() && isOpen && TypeAgrees()
      ensures done == old(done) + [old(cur)] && cur == [] && Written() == old(Written())
    {
      ConcatSnoc(done, cur);
      FinishFrame(false);
      OpenFrame();
      currentFrameType := Continuation;
    }

    /** Only the buffer's capacity changes; what was written stays as it is. */
    method Reserve(additional: nat)
      requires Valid()
      modifies builder.buf
      ensures Valid() && builder.buf.Bytes() == old(builder.buf.Bytes())
    {
      builder.Reserve(additional);
    }
  }

  /**
   * Writes the encoded header block as HEADERS and CONTINUATION frames; `encoded` is the
   * sequence of writes the HPACK encoder makes. The dependency and padding length are not
   * written: the multi-frame form never carries them.
   */
  method SerializeInto(m: HeadersMultiFrame, encoded: seq<seq<byte>>, builder: WriteBuffer)
    requires builder.Valid() && !IsSet(m.flags, EndHeaders.Bitmask()) && 0 < m.maxFrameSize
    modifies builder
    ensures builder.Valid()
    ensures builder.Bytes() == old(builder.Bytes()) + Encode(Concat(encoded), m.flags, m.streamId, m.maxFrameSize)
  {
    var tailVec := builder.TailVec();
    var buf := new EncodeBufForHeadersMultiFrame(m.flags, m.streamId, tailVec, m.maxFrameSize);
    buf.OpenFrame();
    for i := 0 to |encoded|
      invariant buf.builder == tailVec && tailVec.buf == builder
      invariant buf.Valid() && buf.isOpen && buf.TypeAgrees() && buf.Settled()
      invariant buf.start == old(builder.Bytes())
      invariant buf.flags == m.flags && buf.streamId == m.streamId && buf.maxFrameSize == m.maxFrameSize
      invariant buf.Written() == Concat(encoded[..i])
    {
      buf.WriteAll(encoded[i]);
      ConcatSnoc(encoded[..i], encoded[i]);
      assert encoded[..i + 1] == encoded[..i] + [encoded[i]];
    }
    assert encoded[..|encoded|] == encoded;
    SplitOfFullFrames(buf.done, buf.cur, m.maxFrameSize);
    ConcatSnoc(buf.done, buf.cur);
    buf.FinishFrame(true);
  }
}
