/** The DATA frame of section 6.1 of RFC 7540. */
module DataFrames {
  import opened Wrappers
  import opened Bytes
  import opened Frame
  import opened WriteBuffers

  const DATA_FRAME_TYPE: byte := 0x0

  /** The flags a DATA frame defines; each value's bitmask is its flag bit. */
  datatype DataFlag = EndStream | Padded {
    function Bitmask(): bv8 {
      match this
      case EndStream => 0x1
      case Padded => 0x8
    }
  }

  /** A DATA frame. `data` never includes the pad-length octet or the padding. */
  datatype DataFrame = DataFrame(flags: Flags, streamId: u32, data: seq<byte>, paddingLen: byte)
  {
    predicate IsPadded() {
      IsSet(flags, Padded.Bitmask())
    }

    predicate IsEndOfStream() {
      IsSet(flags, EndStream.Bitmask())
    }

    /** Sets one flag; every flag already set, known or not, stays set. */
    function SetFlag(flag: DataFlag): (r: DataFrame)
      ensures IsSet(r.flags, flag.Bitmask())
      ensures r.flags & !flag.Bitmask() == flags & !flag.Bitmask()
      ensures r.streamId == streamId && r.data == data && r.paddingLen == paddingLen
    {
      this.(flags := flags | flag.Bitmask())
    }

    /** Marks the frame padded and records the number of padding octets. */
    function SetPadding(padLen: byte): (r: DataFrame)
      ensures r.IsPadded() && r.paddingLen == padLen
      ensures r.IsEndOfStream() == IsEndOfStream()
      ensures r.flags & !Padded.Bitmask() == flags & !Padded.Bitmask()
      ensures r.streamId == streamId && r.data == data
    {
      SetFlag(Padded).(paddingLen := padLen)
    }

    /**
     * The length of the payload, counting the pad-length octet and the padding when padded:
     * never less than the data, at most 256 octets more, and the data alone exactly when the
     * frame is not padded.
     */
    function PayloadLen(): (r: nat)
      ensures |data| <= r <= |data| + 256
      ensures r == |data| <==> !IsPadded()
    {
      if IsPadded() then 1 + |data| + paddingLen else |data|
    }

    /** The header announcing this frame (see GetHeaderReadsBack). */
    function GetHeader(): FrameHeader {
      FrameHeader(PayloadLen(), DATA_FRAME_TYPE, flags, streamId)
    }

    /** The octets the frame puts on the wire. */
    function Serialize(): seq<byte> {
      PackHeader(GetHeader()) +
      if IsPadded() then [paddingLen] + data + Zeros(paddingLen) else data
    }

    /** What serialising and parsing again give back unchanged. */
    predicate RoundTrips() {
      && 0 < streamId < STREAM_ID_LIMIT
      && PayloadLen() <= MAX_PAYLOAD_LEN
      && (!IsPadded() ==> paddingLen == 0)
    }
  }

  /** A DATA frame for the stream with no flags, no data and no padding. */
  function New(streamId: u32): (r: DataFrame)
    ensures r.streamId == streamId && r.flags == 0 && r.data == [] && r.paddingLen == 0
    ensures r.PayloadLen() == 0 && !r.IsPadded() && !r.IsEndOfStream()
    ensures r.RoundTrips() <==> 0 < streamId < STREAM_ID_LIMIT
  {
    DataFrame(0, streamId, [], 0)
  }

  /** A DATA frame carrying `data`, with no flags and no padding. */
  function WithData(streamId: u32, data: seq<byte>): (r: DataFrame)
    ensures r.streamId == streamId && r.flags == 0 && r.data == data && r.paddingLen == 0
    ensures r.PayloadLen() == |data| && !r.IsPadded() && !r.IsEndOfStream()
    ensures r.RoundTrips() <==> 0 < streamId < STREAM_ID_LIMIT && |data| <= MAX_PAYLOAD_LEN
  {
    DataFrame(0, streamId, data, 0)
  }

  /**
   * Parses a raw frame as a DATA frame: the type must be DATA, the header length must
   * match the payload, the stream must not be 0, and the pad-length rule must hold.
   * Flags are kept as received, unknown bits included.
   */
  function FromRaw(raw: RawFrame): (r: Result<DataFrame, ParseFrameError>)
    ensures raw.header.frameType != DATA_FRAME_TYPE ==> r == Err(ParseFrameError.InternalError)
    ensures (raw.header.frameType == DATA_FRAME_TYPE && raw.header.payloadLen != |raw.payload|)
      ==> r == Err(ParseFrameError.InternalError)
    ensures (raw.header.frameType == DATA_FRAME_TYPE && raw.header.payloadLen == |raw.payload| &&
             raw.header.streamId == 0) ==> r == Err(StreamIdMustBeNonZero)
    ensures r.Ok? <==>
      && raw.header.frameType == DATA_FRAME_TYPE
      && raw.header.payloadLen == |raw.payload|
      && raw.header.streamId != 0
      && (IsSet(raw.header.flags, Padded.Bitmask()) ==> raw.payload != [] && raw.payload[0] < |raw.payload|)
    ensures r.Ok? ==> r.value.GetHeader() == raw.header
    ensures r.Ok? && r.value.IsPadded() ==>
      |raw.payload| == 1 + |r.value.data| + r.value.paddingLen && raw.payload[0] == r.value.paddingLen
      && raw.payload[1..1 + |r.value.data|] == r.value.data
    ensures r.Ok? && !r.value.IsPadded() ==> r.value.data == raw.payload && r.value.paddingLen == 0
  {
    var h := raw.header;
    if h.frameType != DATA_FRAME_TYPE then Err(ParseFrameError.InternalError)
    else if h.payloadLen != |raw.payload| then Err(ParseFrameError.InternalError)
    else if h.streamId == 0 then Err(StreamIdMustBeNonZero)
    else
      var padded := IsSet(h.flags, Padded.Bitmask());
      match ParsePaddedPayload(raw.payload, padded)
      case Err(e) => Err(e)
      case Ok((data, padLen)) => Ok(DataFrame(h.flags, h.streamId, data, padLen))
  }

  /** Writes the header, then (if padded) the pad length, the data and the padding. */
  method SerializeInto(f: DataFrame, b: WriteBuffer)
    requires b.Valid()
    modifies b
    ensures b.Valid() && b.Bytes() == old(b.Bytes()) + f.Serialize()
  {
    b.WriteHeader(f.GetHeader());
    if f.IsPadded() {
      var padLen := f.paddingLen;
      b.ExtendFromSlice([padLen]);
      b.ExtendFromSlice(f.data);
      b.WritePadding(padLen);
    } else {
      b.ExtendFromSlice(f.data);
    }
  }

  /**
   * The header a frame announces, packed into its 9 octets and read back, gives the payload
   * length, the DATA type, the frame's flags and its stream, whenever the length fits 24 bits
   * and the stream 31 bits.
   */
  lemma GetHeaderReadsBack(f: DataFrame)
    requires f.PayloadLen() <= MAX_PAYLOAD_LEN && f.streamId < STREAM_ID_LIMIT
    ensures UnpackHeader(PackHeader(f.GetHeader())) == FrameHeader(f.PayloadLen(), DATA_FRAME_TYPE, f.flags, f.streamId)
  {
    HeaderRoundTrip(f.GetHeader());
  }

  /**
   * The wire layout: the packed header, then the pad length, the data and that many zero
   * octets when padded, or just the data when not; the header's length counts exactly
   * the octets after it.
   */
  lemma {:induction false} SerializeLayout(f: DataFrame)
    ensures |f.Serialize()| == FRAME_HEADER_LEN + f.PayloadLen()
    ensures f.Serialize()[..FRAME_HEADER_LEN] == PackHeader(FrameHeader(f.PayloadLen(), 0x0, f.flags, f.streamId))
    ensures !f.IsPadded() ==> f.Serialize()[FRAME_HEADER_LEN..] == f.data
    ensures f.IsPadded() ==>
      && f.Serialize()[FRAME_HEADER_LEN] == f.paddingLen
      && f.Serialize()[FRAME_HEADER_LEN + 1..FRAME_HEADER_LEN + 1 + |f.data|] == f.data
      && forall i :: FRAME_HEADER_LEN + 1 + |f.data| <= i < |f.Serialize()| ==> f.Serialize()[i] == 0
  {
    var s := f.Serialize();
    var body := if f.IsPadded() then [f.paddingLen] + f.data + Zeros(f.paddingLen) else f.data;
    assert s == PackHeader(f.GetHeader()) + body;
    assert |body| == f.PayloadLen();
    assert s[..FRAME_HEADER_LEN] == PackHeader(f.GetHeader());
    assert s[FRAME_HEADER_LEN..] == body;
    if f.IsPadded() {
      assert body[1..1 + |f.data|] == f.data;
      forall i | FRAME_HEADER_LEN + 1 + |f.data| <= i < |s|
        ensures s[i] == 0
      {
        assert s[i] == body[i - FRAME_HEADER_LEN];
        assert body[i - FRAME_HEADER_LEN] == Zeros(f.paddingLen)[i - FRAME_HEADER_LEN - 1 - |f.data|];
      }
    }
  }

  /** Parsing what `SerializeInto` wrote gives back the frame. */
  lemma {:induction false} RoundTrip(f: DataFrame)
    requires f.RoundTrips()
    ensures FromRaw(RawFrameFromBytes(f.Serialize())) == Ok(f)
  {
    var body := if f.IsPadded() then [f.paddingLen] + f.data + Zeros(f.paddingLen) else f.data;
    assert f.Serialize() == PackHeader(f.GetHeader()) + body;
    ReadBackFrame(f.GetHeader(), body);
    if f.IsPadded() {
      PaddedPayloadRoundTrip(f.paddingLen, f.data, Zeros(f.paddingLen));
    }
  }

  /**
   * Padding of length 0 is not the same as no padding: the frame gains one zero octet
   * and its payload length grows by one.
   */
  lemma {:induction false} NullPaddingDiffers(streamId: u32, data: seq<byte>)
    ensures var g := WithData(streamId, data).SetFlag(Padded);
      && g.PayloadLen() == |data| + 1
      && g.Serialize()[FRAME_HEADER_LEN..] == [0] + data
      && WithData(streamId, data).Serialize()[FRAME_HEADER_LEN..] == data
  {
    var g := WithData(streamId, data).SetFlag(Padded);
    assert g.IsPadded();
    assert Zeros(0) == [];
    assert g.Serialize() == PackHeader(g.GetHeader()) + ([0] + data);
    assert WithData(streamId, data).Serialize() == PackHeader(WithData(streamId, data).GetHeader()) + data;
  }
}
