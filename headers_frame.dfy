/** The HEADERS frame of section 6.2 of RFC 7540 and its stream dependency (section 5.3). */
module HeadersFrames {
  import opened Wrappers
  import opened Bytes
  import opened Frame
  import opened WriteBuffers

  const HEADERS_FRAME_TYPE: byte := 0x1

  /** The flags a HEADERS frame defines; each value's bitmask is its flag bit. */
  datatype HeadersFlag = EndStream | EndHeaders | Padded | Priority {
    function Bitmask(): bv8 {
      match this
      case EndStream => 0x1
      case EndHeaders => 0x4
      case Padded => 0x8
      case Priority => 0x20
    }
  }

  /**
   * A stream dependency: the stream depended on, the weight as sent (one less than the
   * weight of section 5.3.2, so that it fits an octet) and the exclusive bit.
   */
  datatype StreamDependency = StreamDependency(streamId: u32, weight: byte, isExclusive: bool)
  {
    /** The five octets of section 6.2: E bit and 31-bit stream id, big-endian, then the weight. */
    function Serialize(): (r: seq<byte>)
      ensures |r| == 5 && r[4] == weight
      ensures streamId < STREAM_ID_LIMIT ==> (r[0] >= 0x80 <==> isExclusive)
      ensures isExclusive ==> r[0] >= 0x80
    {
      var id := U32ToBe(streamId);
      [if isExclusive && id[0] < 0x80 then id[0] + 0x80 else id[0], id[1], id[2], id[3], weight]
    }
  }

  /**
   * Parses the first five octets as a dependency: the top bit of the first octet is the
   * E bit and is cleared from the stream id. Fewer than five octets is a panic in the source.
   */
  function ParseDependency(b: seq<byte>): (d: StreamDependency)
    requires |b| >= 5
    ensures d.streamId < STREAM_ID_LIMIT
    ensures d.isExclusive <==> b[0] >= 0x80
    ensures d.weight == b[4]
  {
    StreamDependency(BeToU32(b[..4]) % STREAM_ID_LIMIT, b[4], b[0] >= 0x80)
  }

  lemma {:induction false} DependencyRoundTrip(d: StreamDependency)
    requires d.streamId < STREAM_ID_LIMIT
    ensures ParseDependency(d.Serialize()) == d
  {
    var s := d.Serialize();
    var id := U32ToBe(d.streamId);
    U32RoundTrip(d.streamId);
    assert id[0] < 0x80;
    assert BeToU32(s[..4]) == BeToU32(id) + (if d.isExclusive then STREAM_ID_LIMIT else 0);
  }

  lemma {:induction false} DependencyBytesRoundTrip(b: seq<byte>)
    requires |b| == 5
    ensures ParseDependency(b).Serialize() == b
  {
    var d := ParseDependency(b);
    var hi := if b[0] >= 0x80 then b[0] - 0x80 else b[0];
    var low := [hi, b[1], b[2], b[3]];
    assert d.streamId == BeToU32(low);
    BeRoundTrip(low);
  }

  /** A HEADERS frame; the fragment never includes padding or dependency octets. */
  datatype HeadersFrame = HeadersFrame(flags: Flags, streamId: u32, fragment: seq<byte>,
                                       streamDep: Option<StreamDependency>, paddingLen: byte)
  {
    predicate IsSetFlag(flag: HeadersFlag) {
      IsSet(flags, flag.Bitmask())
    }

    /** Sets one flag; every flag already set, known or not, stays set. */
    function SetFlag(flag: HeadersFlag): (r: HeadersFrame)
      ensures r.IsSetFlag(flag)
      ensures r.flags & !flag.Bitmask() == flags & !flag.Bitmask()
      ensures r.streamId == streamId && r.fragment == fragment && r.streamDep == streamDep
      ensures r.paddingLen == paddingLen
    {
      this.(flags := flags | flag.Bitmask())
    }

    /** Sets the padding length and the Padded flag. */
    function SetPadding(padLen: byte): (r: HeadersFrame)
      ensures r.IsSetFlag(Padded) && r.paddingLen == padLen
      ensures r.flags & !Padded.Bitmask() == flags & !Padded.Bitmask()
      ensures r.streamId == streamId && r.fragment == fragment && r.streamDep == streamDep
    {
      SetFlag(Padded).(paddingLen := padLen)
    }

    /**
     * Fragment, plus five dependency octets if Priority, plus pad length and padding if
     * Padded: at most 261 octets more than the fragment, and the fragment alone exactly when
     * neither flag is set.
     */
    function PayloadLen(): (r: nat)
      ensures |fragment| <= r <= |fragment| + 5 + 256
      ensures IsSetFlag(Priority) ==> |fragment| + 5 <= r
      ensures IsSetFlag(Padded) ==> |fragment| + 1 + paddingLen <= r
      ensures r == |fragment| <==> !IsSetFlag(Priority) && !IsSetFlag(Padded)
    {
      |fragment| + (if IsSetFlag(Priority) then 5 else 0)
                 + (if IsSetFlag(Padded) then 1 + paddingLen else 0)
    }

    /** The header announcing this frame (see GetHeaderReadsBack). */
    function GetHeader(): FrameHeader {
      FrameHeader(PayloadLen(), HEADERS_FRAME_TYPE, flags, streamId)
    }

    /** Serialising with the Priority flag and no dependency is a panic in the source. */
    predicate Serializable() {
      IsSetFlag(Priority) ==> streamDep.Some?
    }

    /** Header, [pad length], [dependency], fragment, [padding]. */
    function Serialize(): seq<byte>
      requires Serializable()
    {
      PackHeader(GetHeader())
      + (if IsSetFlag(Padded) then [paddingLen] else [])
      + (if IsSetFlag(Priority) then streamDep.value.Serialize() else [])
      + fragment
      + (if IsSetFlag(Padded) then Zeros(paddingLen) else [])
    }

    /** What serialising and parsing again give back unchanged. */
    predicate RoundTrips() {
      && 0 < streamId < STREAM_ID_LIMIT
      && PayloadLen() <= MAX_PAYLOAD_LEN
      && (!IsSetFlag(Padded) ==> paddingLen == 0)
      && (IsSetFlag(Priority) <==> streamDep.Some?)
      && (streamDep.Some? ==> streamDep.value.streamId < STREAM_ID_LIMIT && streamDep.value.streamId != streamId)
    }
  }

  /** A HEADERS frame carrying the fragment: no padding, no dependency and no flag set. */
  function New(fragment: seq<byte>, streamId: u32): (r: HeadersFrame)
    ensures r.fragment == fragment && r.streamId == streamId && r.flags == 0
    ensures r.streamDep.None? && r.paddingLen == 0
    ensures r.PayloadLen() == |fragment| && r.Serializable()
    ensures r.RoundTrips() <==> 0 < streamId < STREAM_ID_LIMIT && |fragment| <= MAX_PAYLOAD_LEN
  {
    HeadersFrame(0, streamId, fragment, None, 0)
  }

  /** A HEADERS frame carrying the fragment and the dependency: Priority is its only flag, no padding. */
  function WithDependency(fragment: seq<byte>, streamId: u32, dep: StreamDependency): (r: HeadersFrame)
    ensures r.fragment == fragment && r.streamId == streamId && r.streamDep == Some(dep)
    ensures r.flags == Priority.Bitmask() && r.paddingLen == 0
    ensures r.IsSetFlag(Priority) && !r.IsSetFlag(Padded) && r.PayloadLen() == |fragment| + 5 && r.Serializable()
    ensures r.RoundTrips() <==>
      && 0 < streamId < STREAM_ID_LIMIT && |fragment| + 5 <= MAX_PAYLOAD_LEN
      && dep.streamId < STREAM_ID_LIMIT && dep.streamId != streamId
  {
    HeadersFrame(Priority.Bitmask(), streamId, fragment, Some(dep), 0)
  }

  /** The checks `from_raw` makes before it looks at the payload. */
  function CheckHeader(h: FrameHeader, payload: seq<byte>): Option<ParseFrameError> {
    if h.frameType != HEADERS_FRAME_TYPE then Some(ParseFrameError.InternalError)
    else if h.payloadLen != |payload| then Some(ParseFrameError.InternalError)
    else if h.streamId == 0 then Some(StreamIdMustBeNonZero)
    else None
  }

  /**
   * `from_raw` as written: after the pad-length rule it slices five dependency octets off
   * the payload whenever the Priority flag is set, without checking that five are left.
   */
  function FromRawAsWritten(raw: RawFrame): (r: Parsed<HeadersFrame>)
    ensures r.Panicked? <==>
      && CheckHeader(raw.header, raw.payload).None?
      && IsSet(raw.header.flags, Priority.Bitmask())
      && var p := ParsePaddedPayload(raw.payload, IsSet(raw.header.flags, Padded.Bitmask()));
         p.Ok? && |p.value.0| < 5
  {
    var h := raw.header;
    match CheckHeader(h, raw.payload)
    case Some(e) => Returned(Err(e))
    case None =>
      match ParsePaddedPayload(raw.payload, IsSet(h.flags, Padded.Bitmask()))
      case Err(e) => Returned(Err(e))
      case Ok((actual, padLen)) =>
        if !IsSet(h.flags, Priority.Bitmask()) then
          Returned(Ok(HeadersFrame(h.flags, h.streamId, actual, None, padLen)))
        else if |actual| < 5 then Panicked
        else
          var dep := ParseDependency(actual[..5]);
          if dep.streamId == h.streamId then Returned(Err(StreamDependencyOnItself(h.streamId)))
          else Returned(Ok(HeadersFrame(h.flags, h.streamId, actual[5..], Some(dep), padLen)))
  }

  /** A HEADERS frame with the Priority flag and an empty payload. */
  lemma PriorityWithoutDependencyPanics()
    ensures FromRawAsWritten(RawFrame(FrameHeader(0, 0x1, 0x20, 1), [])).Panicked?
    ensures FromRawAsWritten(RawFrame(FrameHeader(5, 0x1, 0x28, 1), [0, 0, 0, 0, 1])).Panicked?
  {
  }

  /**
   * Parses a raw frame as a HEADERS frame. Errors: wrong type or length, stream 0, the
   * pad-length rule, fewer than five octets for a dependency, or a stream depending on
   * itself (section 5.3.1). Flags are kept as received; padding octets are not inspected.
   */
  function FromRaw(raw: RawFrame): (r: Result<HeadersFrame, ParseFrameError>)
    ensures CheckHeader(raw.header, raw.payload).Some? ==> r == Err(CheckHeader(raw.header, raw.payload).value)
    ensures raw.header.frameType != HEADERS_FRAME_TYPE ==> r == Err(ParseFrameError.InternalError)
    ensures r.Ok? ==>
      && r.value.GetHeader() == raw.header
      && r.value.Serializable()
      && (r.value.IsSetFlag(Priority) <==> r.value.streamDep.Some?)
      && (r.value.streamDep.Some? ==> r.value.streamDep.value.streamId != raw.header.streamId)
      && ParsePaddedPayload(raw.payload, r.value.IsSetFlag(Padded))
         == Ok(((if r.value.streamDep.Some? then r.value.streamDep.value.Serialize() else []) + r.value.fragment,
                r.value.paddingLen))
    ensures r.Ok? && Packable(raw.header) ==> r.value.RoundTrips()
    ensures (FromRawAsWritten(raw).Returned? ==> FromRawAsWritten(raw).result == r)
    ensures FromRawAsWritten(raw).Panicked? ==> r == Err(PriorityTooShort)
  {
    var h := raw.header;
    match CheckHeader(h, raw.payload)
    case Some(e) => Err(e)
    case None =>
      match ParsePaddedPayload(raw.payload, IsSet(h.flags, Padded.Bitmask()))
      case Err(e) => Err(e)
      case Ok((actual, padLen)) =>
        if !IsSet(h.flags, Priority.Bitmask()) then
          assert [] + actual == actual;
          Ok(HeadersFrame(h.flags, h.streamId, actual, None, padLen))
        else if |actual| < 5 then Err(PriorityTooShort)
        else
          var dep := ParseDependency(actual[..5]);
          if dep.streamId == h.streamId then Err(StreamDependencyOnItself(h.streamId))
          else
            DependencyBytesRoundTrip(actual[..5]);
            assert actual == actual[..5] + actual[5..];
            Ok(HeadersFrame(h.flags, h.streamId, actual[5..], Some(dep), padLen))
  }

  /** Writes header, [pad length], [dependency], fragment, [padding], in that order. */
  method SerializeInto(f: HeadersFrame, b: WriteBuffer)
    requires b.Valid() && f.Serializable()
    modifies b
    ensures b.Valid() && b.Bytes() == old(b.Bytes()) + f.Serialize()
  {
    b.WriteHeader(f.GetHeader());
    ghost var written := b.Bytes();
    var padded := f.IsSetFlag(Padded);
    if padded {
      b.ExtendFromSlice([f.paddingLen]);
    }
    assert b.Bytes() == written + PadOctet(f);
    written := b.Bytes();
    if f.IsSetFlag(Priority) {
      var depBuf := f.streamDep.value.Serialize();
      b.ExtendFromSlice(depBuf);
    }
    assert b.Bytes() == written + DepBytes(f);
    b.ExtendFromSlice(f.fragment);
    written := b.Bytes();
    if padded {
      b.WritePadding(f.paddingLen);
    }
    assert b.Bytes() == written + Padding(f);
    SerializeInPieces(old(b.Bytes()), f);
  }

  /** The pad-length octet a frame writes: one when Padded is set, none otherwise. */
  function PadOctet(f: HeadersFrame): seq<byte> {
    if f.IsSetFlag(Padded) then [f.paddingLen] else []
  }

  /** The padding a frame writes: paddingLen zeros when Padded is set, none otherwise. */
  function Padding(f: HeadersFrame): seq<byte> {
    if f.IsSetFlag(Padded) then Zeros(f.paddingLen) else []
  }

  lemma SerializeInPieces(start: seq<byte>, f: HeadersFrame)
    requires f.Serializable()
    ensures start + f.Serialize()
            == start + PackHeader(f.GetHeader()) + PadOctet(f) + DepBytes(f) + f.fragment + Padding(f)
  {
  }

  /**
   * The header a frame announces, packed into its 9 octets and read back, gives the payload
   * length, the HEADERS type, the frame's flags and its stream, whenever the length fits
   * 24 bits and the stream 31 bits.
   */
  lemma GetHeaderReadsBack(f: HeadersFrame)
    requires f.PayloadLen() <= MAX_PAYLOAD_LEN && f.streamId < STREAM_ID_LIMIT
    ensures UnpackHeader(PackHeader(f.GetHeader())) == FrameHeader(f.PayloadLen(), HEADERS_FRAME_TYPE, f.flags, f.streamId)
  {
    HeaderRoundTrip(f.GetHeader());
  }

  /** The header's length counts exactly the octets after it. */
  lemma {:induction false} SerializeLength(f: HeadersFrame)
    requires f.Serializable()
    ensures |f.Serialize()| == FRAME_HEADER_LEN + f.PayloadLen()
  {
  }

  /** The dependency octets a frame writes: five when Priority is set, none otherwise. */
  function DepBytes(f: HeadersFrame): seq<byte>
    requires f.Serializable()
  {
    if f.IsSetFlag(Priority) then f.streamDep.value.Serialize() else []
  }

  /** The octets after the frame header: [pad length], [dependency], fragment, [padding]. */
  function WirePayload(f: HeadersFrame): seq<byte>
    requires f.Serializable()
  {
    PadOctet(f) + DepBytes(f) + f.fragment + Padding(f)
  }

  /**
   * A serialised frame is its header followed by a payload of the length the header
   * announces, from which the pad-length rule recovers the dependency and the fragment.
   */
  lemma {:induction false} SerializedPayload(f: HeadersFrame)
    requires f.Serializable()
    requires !f.IsSetFlag(Padded) ==> f.paddingLen == 0
    ensures f.Serialize() == PackHeader(f.GetHeader()) + WirePayload(f)
    ensures |WirePayload(f)| == f.PayloadLen()
    ensures ParsePaddedPayload(WirePayload(f), f.IsSetFlag(Padded)) == Ok((DepBytes(f) + f.fragment, f.paddingLen))
  {
    assert f.Serialize() == PackHeader(f.GetHeader()) + (PadOctet(f) + DepBytes(f) + f.fragment + Padding(f));
    WirePayloadParses(f);
  }

  /** The pad-length rule recovers the dependency octets and the fragment from the payload. */
  lemma {:induction false} WirePayloadParses(f: HeadersFrame)
    requires f.Serializable()
    requires !f.IsSetFlag(Padded) ==> f.paddingLen == 0
    ensures ParsePaddedPayload(WirePayload(f), f.IsSetFlag(Padded)) == Ok((DepBytes(f) + f.fragment, f.paddingLen))
  {
    var payload := WirePayload(f);
    var actual := DepBytes(f) + f.fragment;
    if f.IsSetFlag(Padded) {
      assert payload == [f.paddingLen] + actual + Zeros(f.paddingLen);
      PaddedPayloadRoundTrip(f.paddingLen, actual, Zeros(f.paddingLen));
    } else {
      assert payload == actual;
    }
  }

  /** Parsing the serialised frame gives back fragment, flags, dependency and padding length. */
  lemma {:induction false} RoundTrip(f: HeadersFrame)
    requires f.RoundTrips()
    ensures f.Serializable()
    ensures FromRaw(RawFrameFromBytes(f.Serialize())) == Ok(f)
  {
    SerializedPayload(f);
    var payload := WirePayload(f);
    ReadBackFrame(f.GetHeader(), payload);
    var actual := DepBytes(f) + f.fragment;
    if f.IsSetFlag(Priority) {
      DependencyRoundTrip(f.streamDep.value);
      assert actual[..5] == DepBytes(f);
      assert actual[5..] == f.fragment;
    } else {
      assert actual == f.fragment;
    }
  }
}
