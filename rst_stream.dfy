/** The RST_STREAM frame of section 6.4 of RFC 7540. */
module RstStream {
  import opened Wrappers
  import opened Bytes
  import opened Frame
  import opened WriteBuffers

  /** The only payload length an RST_STREAM frame may have. */
  const RST_STREAM_FRAME_LEN: nat := 4
  const RST_STREAM_FRAME_TYPE: byte := 0x3

  /**
   * An RST_STREAM frame. The error code is kept raw, so codes that section 7 does not
   * define survive parsing; flags are kept as received although none is defined.
   */
  datatype RstStreamFrame = RstStreamFrame(rawCode: u32, streamId: u32, flags: Flags)
  {
    /** The interpreted error code; unknown codes read as INTERNAL_ERROR. */
    function ErrorCode(): (e: Frame.ErrorCode)
      ensures rawCode <= 0xd ==> e.Code() == rawCode
      ensures rawCode > 0xd ==> e == Frame.ErrorCode.InternalError
    {
      ErrorCodeFromRaw(rawCode)
    }

    /** The original raw error code, unchanged even when unknown. */
    function RawErrorCode(): u32 {
      rawCode
    }

    function GetHeader(): (h: FrameHeader)
      ensures h.payloadLen == RST_STREAM_FRAME_LEN && h.frameType == RST_STREAM_FRAME_TYPE
      ensures h.flags == flags && h.streamId == streamId
    {
      FrameHeader(RST_STREAM_FRAME_LEN, RST_STREAM_FRAME_TYPE, flags, streamId)
    }

    function Serialize(): seq<byte> {
      PackHeader(GetHeader()) + U32ToBe(rawCode)
    }
  }

  function New(streamId: u32, code: ErrorCode): (r: RstStreamFrame)
    ensures r.ErrorCode() == code && r.RawErrorCode() == code.Code()
    ensures r.streamId == streamId && r.flags == 0
  {
    ErrorCodeRoundTrip(code);
    RstStreamFrame(code.Code(), streamId, 0)
  }

  function WithRawErrorCode(streamId: u32, rawCode: u32): (r: RstStreamFrame)
    ensures r.RawErrorCode() == rawCode && r.streamId == streamId && r.flags == 0
  {
    RstStreamFrame(rawCode, streamId, 0)
  }

  /** A frame built from a known code equals one built from that code's raw value. */
  lemma NewIsRawOfCode(streamId: u32, code: ErrorCode)
    ensures New(streamId, code) == WithRawErrorCode(streamId, code.Code())
  {
  }

  /**
   * `from_raw` as written: it checks the header's length field, type and stream, then
   * reads the first four payload octets without checking that the payload has them.
   */
  function FromRawAsWritten(raw: RawFrame): (r: Parsed<RstStreamFrame>)
    ensures r.Panicked? <==>
      && raw.header.payloadLen == RST_STREAM_FRAME_LEN && raw.header.frameType == RST_STREAM_FRAME_TYPE
      && raw.header.streamId != 0 && |raw.payload| < 4
  {
    var h := raw.header;
    if h.payloadLen != RST_STREAM_FRAME_LEN then Returned(Err(ParseFrameError.InternalError))
    else if h.frameType != RST_STREAM_FRAME_TYPE then Returned(Err(ParseFrameError.InternalError))
    else if h.streamId == 0 then Returned(Err(StreamIdMustBeNonZero))
    else if |raw.payload| < 4 then Panicked
    else Returned(Ok(RstStreamFrame(BeToU32(raw.payload[..4]), h.streamId, h.flags)))
  }

  /** A raw frame whose header promises four octets but whose payload has two. */
  lemma ShortPayloadPanics()
    ensures FromRawAsWritten(RawFrame(FrameHeader(4, 0x3, 0, 1), [0, 1])).Panicked?
  {
  }

  /** A raw frame whose header promises four octets but whose payload has five: as written, the fifth is ignored. */
  lemma LongPayloadAccepted()
    ensures FromRawAsWritten(RawFrame(FrameHeader(4, 0x3, 0, 1), [0, 0, 0, 1, 0]))
            == Returned(Ok(RstStreamFrame(1, 1, 0)))
    ensures FromRaw(RawFrame(FrameHeader(4, 0x3, 0, 1), [0, 0, 0, 1, 0])) == Err(ParseFrameError.InternalError)
  {
    var payload: seq<byte> := [0, 0, 0, 1, 0];
    assert payload[..4] == [0, 0, 0, 1];
  }

  /**
   * `from_raw` with the payload-length check the DATA and HEADERS parsers make, after the
   * checks the code as written makes, in its order: the header must say 4, the type must be
   * RST_STREAM, the stream must not be 0, and then the payload must have the 4 octets the
   * header says.
   */
  function FromRaw(raw: RawFrame): (r: Result<RstStreamFrame, ParseFrameError>)
    ensures r.Ok? <==>
      && raw.header.payloadLen == RST_STREAM_FRAME_LEN && |raw.payload| == RST_STREAM_FRAME_LEN
      && raw.header.frameType == RST_STREAM_FRAME_TYPE && raw.header.streamId != 0
    ensures (raw.header.payloadLen == RST_STREAM_FRAME_LEN && raw.header.frameType == RST_STREAM_FRAME_TYPE &&
             raw.header.streamId == 0)
      ==> r == Err(StreamIdMustBeNonZero)
    ensures r.Ok? ==>
      && r.value.RawErrorCode() == BeToU32(raw.payload)
      && r.value.GetHeader() == raw.header
    ensures (FromRawAsWritten(raw).Returned? &&
             (FromRawAsWritten(raw).result.Ok? ==> |raw.payload| == RST_STREAM_FRAME_LEN))
      ==> FromRawAsWritten(raw).result == r
    ensures (FromRawAsWritten(raw).Returned? && FromRawAsWritten(raw).result.Ok? &&
             |raw.payload| != RST_STREAM_FRAME_LEN)
      ==> |raw.payload| > RST_STREAM_FRAME_LEN && r == Err(ParseFrameError.InternalError)
  {
    var h := raw.header;
    if h.payloadLen != RST_STREAM_FRAME_LEN then Err(ParseFrameError.InternalError)
    else if h.frameType != RST_STREAM_FRAME_TYPE then Err(ParseFrameError.InternalError)
    else if h.streamId == 0 then Err(StreamIdMustBeNonZero)
    else if |raw.payload| != RST_STREAM_FRAME_LEN then Err(ParseFrameError.InternalError)
    else Ok(RstStreamFrame(BeToU32(raw.payload), h.streamId, h.flags))
  }

  /** Writes the 9-octet header and the 4-octet big-endian error code. */
  method SerializeInto(f: RstStreamFrame, b: WriteBuffer)
    requires b.Valid()
    modifies b
    ensures b.Valid() && b.Bytes() == old(b.Bytes()) + f.Serialize()
  {
    b.WriteHeader(f.GetHeader());
    b.WriteU32(f.rawCode);
  }

  /** The wire form is 13 octets: the header announcing 4 octets of type 0x3, then the code. */
  lemma {:induction false} SerializeLayout(f: RstStreamFrame)
    ensures |f.Serialize()| == 13
    ensures f.Serialize()[..9] == PackHeader(FrameHeader(4, 0x3, f.flags, f.streamId))
    ensures BeToU32(f.Serialize()[9..]) == f.RawErrorCode()
  {
    assert f.Serialize()[9..] == U32ToBe(f.rawCode);
    U32RoundTrip(f.rawCode);
  }

  /** Parsing the serialised frame gives it back, unknown codes and flags included. */
  lemma {:induction false} RoundTrip(f: RstStreamFrame)
    requires 0 < f.streamId < STREAM_ID_LIMIT
    ensures FromRaw(RawFrameFromBytes(f.Serialize())) == Ok(f)
  {
    ReadBackFrame(f.GetHeader(), U32ToBe(f.rawCode));
    U32RoundTrip(f.rawCode);
  }
}
