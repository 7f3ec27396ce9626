/**
 * The parts of the frame layer that the DATA, HEADERS and RST_STREAM codecs share:
 * the 9-octet frame header of section 4.1 of RFC 7540, the raw frame, flag bytes,
 * the parse errors, the pad-length rule of section 6.1 and the error codes of section 7.
 */
module Frame {
  import opened Wrappers
  import opened Bytes

  const FRAME_HEADER_LEN: nat := 9

  /** The largest payload length the 24-bit length field can carry. */
  const MAX_PAYLOAD_LEN: nat := 0xFF_FFFF

  /** The flags octet of a frame header. */
  type Flags = bv8

  predicate IsSet(flags: Flags, mask: bv8) {
    flags & mask != 0
  }

  /** The decoded 9-octet frame header. */
  datatype FrameHeader = FrameHeader(payloadLen: nat, frameType: byte, flags: Flags, streamId: u32)

  /** Packs a header into its 9 octets: 24-bit length, type, flags, 32-bit stream identifier. */
  function PackHeader(h: FrameHeader): (r: seq<byte>)
    ensures |r| == FRAME_HEADER_LEN
  {
    [(h.payloadLen / 0x1_0000) % 0x100, (h.payloadLen / 0x100) % 0x100, h.payloadLen % 0x100,
     h.frameType, h.flags as int] + U32ToBe(h.streamId)
  }

  /**
   * Unpacks 9 octets into a header. The reserved bit in front of the stream identifier
   * is ignored, as section 4.1 of RFC 7540 requires of a receiver.
   */
  function UnpackHeader(b: seq<byte>): (h: FrameHeader)
    requires |b| == FRAME_HEADER_LEN
    ensures h.payloadLen <= MAX_PAYLOAD_LEN && h.streamId < STREAM_ID_LIMIT
  {
    FrameHeader((b[0] as int) * 0x1_0000 + (b[1] as int) * 0x100 + b[2] as int,
                b[3], b[4] as bv8, BeToU32(b[5..9]) % STREAM_ID_LIMIT)
  }

  /** A header whose every field survives packing. */
  predicate Packable(h: FrameHeader) {
    h.payloadLen <= MAX_PAYLOAD_LEN && h.streamId < STREAM_ID_LIMIT
  }

  lemma {:induction false} HeaderRoundTrip(h: FrameHeader)
    requires Packable(h)
    ensures UnpackHeader(PackHeader(h)) == h
  {
    var b := PackHeader(h);
    var n := h.payloadLen;
    assert n == (n / 0x100) * 0x100 + b[2];
    assert n / 0x100 == (n / 0x1_0000) * 0x100 + b[1];
    assert n / 0x1_0000 == b[0];
    assert b[5..9] == U32ToBe(h.streamId);
    U32RoundTrip(h.streamId);
    assert (b[4] as bv8) == h.flags;
  }

  /** A frame as read off the wire: its header and the octets that follow it. */
  datatype RawFrame = RawFrame(header: FrameHeader, payload: seq<byte>)

  function RawFrameFromBytes(b: seq<byte>): (r: RawFrame)
    requires |b| >= FRAME_HEADER_LEN
    ensures r.payload == b[FRAME_HEADER_LEN..]
  {
    RawFrame(UnpackHeader(b[..FRAME_HEADER_LEN]), b[FRAME_HEADER_LEN..])
  }

  /** Reading back the octets of a packed header followed by a payload. */
  lemma {:induction false} ReadBackFrame(h: FrameHeader, payload: seq<byte>)
    requires Packable(h)
    ensures RawFrameFromBytes(PackHeader(h) + payload) == RawFrame(h, payload)
  {
    var b := PackHeader(h) + payload;
    assert b[..FRAME_HEADER_LEN] == PackHeader(h);
    assert b[FRAME_HEADER_LEN..] == payload;
    HeaderRoundTrip(h);
  }

  /** Why a raw frame was refused by a frame parser. */
  datatype ParseFrameError =
    | InternalError
    | StreamIdMustBeNonZero
    | StreamDependencyOnItself(streamId: u32)
      /** The Padded flag is set but the payload has no pad-length octet. */
    | PadLengthMissing
      /** The pad length leaves no room in the payload (section 6.1 of RFC 7540). */
    | PaddingTooLong
      /** The Priority flag is set but fewer than five octets are left for the dependency. */
    | PriorityTooShort

  /**
   * What a parser does when it is run: it returns a result, or it panics (an index out of
   * range). Used only to state how a parser behaves as written where that differs from
   * the corrected parser the rest of the model uses.
   */
  datatype Parsed<+T> = Returned(result: Result<T, ParseFrameError>) | Panicked

  /**
   * The pad-length rule of section 6.1 of RFC 7540, shared by DATA and HEADERS frames:
   * an unpadded payload is taken whole with pad length 0; a padded one starts with the
   * pad-length octet, which must be smaller than the payload length.
   */
  function ParsePaddedPayload(payload: seq<byte>, padded: bool): (r: Result<(seq<byte>, byte), ParseFrameError>)
    ensures !padded ==> r == Ok((payload, 0))
    ensures padded && payload == [] ==> r == Err(PadLengthMissing)
    ensures padded && payload != [] && payload[0] >= |payload| ==> r == Err(PaddingTooLong)
    ensures r.Ok? && padded ==>
      var (data, pad) := r.value;
      |payload| == 1 + |data| + pad && payload[0] == pad && payload[1..1 + |data|] == data
  {
    if !padded then Ok((payload, 0))
    else if |payload| == 0 then Err(PadLengthMissing)
    else
      var padLen := payload[0];
      if padLen >= |payload| then Err(PaddingTooLong)
      else Ok((payload[1..|payload| - padLen], padLen))
  }

  /** Padding written as the serialisers write it is read back as written. */
  lemma {:induction false} PaddedPayloadRoundTrip(pad: byte, data: seq<byte>, padding: seq<byte>)
    requires |padding| == pad
    ensures ParsePaddedPayload([pad] + data + padding, true) == Ok((data, pad))
  {
    var p := [pad] + data + padding;
    assert p[1..|p| - pad] == data;
  }

  /** The error codes of section 7 of RFC 7540. */
  datatype ErrorCode =
    | NoError | ProtocolError | InternalError | FlowControlError | SettingsTimeout
    | StreamClosed | FrameSizeError | RefusedStream | Cancel | CompressionError
    | ConnectError | EnhanceYourCalm | InadequateSecurity | Http11Required
  {
    function Code(): (c: u32)
      ensures c <= 0xd
    {
      match this
      case NoError => 0x0
      case ProtocolError => 0x1
      case InternalError => 0x2
      case FlowControlError => 0x3
      case SettingsTimeout => 0x4
      case StreamClosed => 0x5
      case FrameSizeError => 0x6
      case RefusedStream => 0x7
      case Cancel => 0x8
      case CompressionError => 0x9
      case ConnectError => 0xa
      case EnhanceYourCalm => 0xb
      case InadequateSecurity => 0xc
      case Http11Required => 0xd
    }
  }

  /**
   * Interprets a raw error code. Codes that section 7 of RFC 7540 does not define are read
   * as INTERNAL_ERROR, which section 7 permits.
   */
  function ErrorCodeFromRaw(raw: u32): (e: ErrorCode)
    ensures raw <= 0xd ==> e.Code() == raw
    ensures raw > 0xd ==> e == ErrorCode.InternalError
  {
    match raw
    case 0x0 => NoError
    case 0x1 => ProtocolError
    case 0x2 => ErrorCode.InternalError
    case 0x3 => FlowControlError
    case 0x4 => SettingsTimeout
    case 0x5 => StreamClosed
    case 0x6 => FrameSizeError
    case 0x7 => RefusedStream
    case 0x8 => Cancel
    case 0x9 => CompressionError
    case 0xa => ConnectError
    case 0xb => EnhanceYourCalm
    case 0xc => InadequateSecurity
    case 0xd => Http11Required
    case _ => ErrorCode.InternalError
  }

  lemma ErrorCodeRoundTrip(e: ErrorCode)
    ensures ErrorCodeFromRaw(e.Code()) == e
  {
  }
}
