/**
 * The client side of a connection: starting a request on a new stream, and handling the
 * header blocks the server sends back (section 8.1 of RFC 7540).
 */
module ClientConn {
  import opened Wrappers
  import opened Bytes
  import opened Frame
  import RstStream
  import opened ConnWrite

  /** Where a received header block sits in the response. */
  datatype HeadersPlace = InitialHeaders | TrailingHeaders

  /** What handling a received header block comes to. */
  datatype HeadersOutcome =
    | StageError                                // the stream should have been closed already
    | Reset                                     // RST_STREAM with PROTOCOL_ERROR
    | Accept(place: HeadersPlace, is1xx: bool)  // the block is taken

  /** The internal error `process_headers` returns for a block after the trailers: the stream should have been closed. */
  datatype ConnError = ClosedStreamNotHandled

  /** An informational (1xx) status. */
  predicate Is1xx(status: nat) {
    100 <= status <= 199
  }

  function PlaceOf(stage: InMessageStage): Option<HeadersPlace> {
    match stage
    case Initial => Some(InitialHeaders)
    case AfterInitialHeaders => Some(TrailingHeaders)
    case AfterTrailingHeaders => None
  }

  /**
   * The decision `process_headers` takes for a block received in `stage`. A block after the
   * trailers is an internal error; an invalid block, an informational response that ends the
   * stream, and trailers that do not end it are reset; every other block is taken.
   */
  function DecideHeaders(stage: InMessageStage, valid: bool, status: nat, endStream: bool): (r: HeadersOutcome)
    ensures r.StageError? <==> stage == AfterTrailingHeaders
    ensures r.Reset? <==>
      && stage != AfterTrailingHeaders
      && (|| !valid
          || (stage == Initial && Is1xx(status) && endStream)
          || (stage == AfterInitialHeaders && !endStream))
    ensures r.Accept? ==>
      && valid
      && (r.place == InitialHeaders <==> stage == Initial)
      && (r.place == TrailingHeaders <==> stage == AfterInitialHeaders)
      && (r.is1xx <==> stage == Initial && Is1xx(status))
      && (r.place == TrailingHeaders ==> endStream)
      && (r.is1xx ==> !endStream)
  {
    match PlaceOf(stage)
    case None => StageError
    case Some(place) =>
      if !valid then Reset
      else
        match place
        case InitialHeaders =>
          var is1xx := Is1xx(status);
          if is1xx && endStream then Reset else Accept(InitialHeaders, is1xx)
        case TrailingHeaders =>
          if !endStream then Reset else Accept(TrailingHeaders, false)
  }

  /** The stage after a block is taken. */
  function NextStage(place: HeadersPlace, is1xx: bool): InMessageStage {
    match place
    case InitialHeaders => if is1xx then Initial else AfterInitialHeaders
    case TrailingHeaders => AfterTrailingHeaders
  }

  function StageRank(stage: InMessageStage): nat {
    match stage
    case Initial => 0
    case AfterInitialHeaders => 1
    case AfterTrailingHeaders => 2
  }

  /**
   * The stream after a block is taken: the content length it announces replaces the one
   * remembered, the stage moves on, and the handler, if any, gets the block unless it is
   * informational.
   */
  function Accepted(s: HttpStream, place: HeadersPlace, is1xx: bool, headers: HeaderBlock, endStream: bool,
                    contentLength: Option<nat>): HttpStream
  {
    var deliveries :=
      if is1xx || !s.hasHandler then []
      else match place
        case InitialHeaders => [DeliveredHeaders(headers, endStream)]
        case TrailingHeaders => [DeliveredTrailers(headers)];
    s.(inRemContentLength := if contentLength.Some? then contentLength else s.inRemContentLength,
       inMessageStage := NextStage(place, is1xx),
       delivered := s.delivered + deliveries)
  }

  /**
   * Taking a block moves the stage forward, except for an informational response, which
   * leaves it at Initial; informational blocks never reach the handler, final headers reach
   * it with their END_STREAM flag, and trailers reach it only when they end the stream.
   */
  lemma AcceptedStream(s: HttpStream, valid: bool, status: nat, endStream: bool, headers: HeaderBlock,
                       contentLength: Option<nat>)
    requires DecideHeaders(s.inMessageStage, valid, status, endStream).Accept?
    ensures var d := DecideHeaders(s.inMessageStage, valid, status, endStream);
      var t := Accepted(s, d.place, d.is1xx, headers, endStream, contentLength);
      && t.outQueue == s.outQueue && t.outClosed == s.outClosed && t.outSent == s.outSent
      && t.hasHandler == s.hasHandler
      && (s.inMessageStage == Initial && !Is1xx(status) ==> t.inMessageStage == AfterInitialHeaders)
      && (s.inMessageStage == Initial && Is1xx(status) ==> t.inMessageStage == Initial && t.delivered == s.delivered)
      && (s.inMessageStage == AfterInitialHeaders ==> t.inMessageStage == AfterTrailingHeaders)
      && StageRank(t.inMessageStage) >= StageRank(s.inMessageStage)
      && (s.inMessageStage == Initial && !Is1xx(status) && s.hasHandler
          ==> t.delivered == s.delivered + [DeliveredHeaders(headers, endStream)])
      && (s.inMessageStage == AfterInitialHeaders && s.hasHandler
          ==> endStream && t.delivered == s.delivered + [DeliveredTrailers(headers)])
      && (!s.hasHandler ==> t.delivered == s.delivered)
  {
  }

  /**
   * Handles a header block the server sent on `streamId`. The header list's own checks are
   * given as `valid`, its `:status` as `status` and its content-length as `contentLength`.
   * Returns the stream when the block was taken.
   */
  method ProcessHeaders(c: Conn, streamId: u32, endStream: bool, headers: HeaderBlock,
                        valid: bool, status: nat, contentLength: Option<nat>)
    returns (r: Result<Option<u32>, ConnError>)
    modifies c
    ensures streamId !in old(c.streams) ==>
      r == Ok(None) && c.streams == old(c.streams) && c.queuedWrite == old(c.queuedWrite)
    ensures streamId in old(c.streams) ==>
      var s := old(c.streams)[streamId];
      match DecideHeaders(s.inMessageStage, valid, status, endStream)
      case StageError =>
        r == Err(ClosedStreamNotHandled) && c.streams == old(c.streams) && c.queuedWrite == old(c.queuedWrite)
      case Reset =>
        && r == Ok(None) && c.streams == old(c.streams)
        && c.queuedWrite == old(c.queuedWrite) + [RstOut(RstStream.New(streamId, ProtocolError))]
      case Accept(place, is1xx) =>
        && r == Ok(Some(streamId)) && c.queuedWrite == old(c.queuedWrite)
        && c.streams == old(c.streams)[streamId := Accepted(s, place, is1xx, headers, endStream, contentLength)]
    ensures c.goawayQueued == old(c.goawayQueued) && c.pumpOutWindowSize == old(c.pumpOutWindowSize)
  {
    if streamId !in c.streams {
      return Ok(None);
    }
    var stage := c.streams[streamId].inMessageStage;
    var place: HeadersPlace;
    match stage {
      case Initial => place := InitialHeaders;
      case AfterInitialHeaders => place := TrailingHeaders;
      case AfterTrailingHeaders => return Err(ClosedStreamNotHandled);
    }
    if !valid {
      c.WritePartRst(streamId, ProtocolError);
      return Ok(None);
    }
    var is1xx: bool;
    match place {
      case InitialHeaders =>
        is1xx := 100 <= status && status <= 199;
        if is1xx && endStream {
          c.WritePartRst(streamId, ProtocolError);
          return Ok(None);
        }
      case TrailingHeaders =>
        if !endStream {
          c.WritePartRst(streamId, ProtocolError);
          return Ok(None);
        }
        is1xx := false;
    }
    var s := c.streams[streamId];
    if contentLength.Some? {
      s := s.(inRemContentLength := contentLength);
    }
    var next: InMessageStage;
    match place {
      case InitialHeaders => next := if is1xx then Initial else AfterInitialHeaders;
      case TrailingHeaders => next := AfterTrailingHeaders;
    }
    s := s.(inMessageStage := next);
    if !is1xx && s.hasHandler {
      match place {
        case InitialHeaders => s := s.(delivered := s.delivered + [DeliveredHeaders(headers, endStream)]);
        case TrailingHeaders => s := s.(delivered := s.delivered + [DeliveredTrailers(headers)]);
      }
    }
    assert s == Accepted(c.streams[streamId], place, is1xx, headers, endStream, contentLength);
    c.streams := c.streams[streamId := s];
    return Ok(Some(streamId));
  }

  // ---------------------------------------------------------------------------------------
  // Starting a request

  /** The parts a request puts on its new stream: headers, then the body, then the trailers. */
  function RequestParts(headers: HeaderBlock, body: Option<seq<byte>>, trailers: Option<HeaderBlock>): seq<Part> {
    [Part(Headers(headers), false)]
    + (if body.Some? then [Part(Data(body.value), false)] else [])
    + (if trailers.Some? then [Part(Headers(trailers.value), false)] else [])
  }

  /** A stream just created, before its handler answered. */
  const NEW_STREAM: HttpStream := HttpStream([], None, false, Initial, None, false, [])

  /**
   * The stream a request starts: when the handler takes the request, the request's parts
   * queued and the outgoing side closed with NO_ERROR if the request ends the stream;
   * otherwise nothing queued and the outgoing side closed with INTERNAL_ERROR.
   */
  function StartedStream(headers: HeaderBlock, body: Option<seq<byte>>, trailers: Option<HeaderBlock>,
                         endStream: bool, handlerAccepts: bool): HttpStream
  {
    if handlerAccepts then
      NEW_STREAM.(hasHandler := true, outQueue := RequestParts(headers, body, trailers),
                  outClosed := if endStream then Some(NoError) else None)
    else NEW_STREAM.(outClosed := Some(ErrorCode.InternalError))
  }

  /**
   * Opens `streamId` for a request and queues the request on it. The stream id allocation
   * and the handler's answer are given: `handlerAccepts` is whether `request_created` took
   * the request.
   */
  method StartStream(c: Conn, streamId: u32, headers: HeaderBlock, body: Option<seq<byte>>,
                     trailers: Option<HeaderBlock>, endStream: bool, handlerAccepts: bool)
    requires streamId !in c.streams
    modifies c
    ensures c.streams == old(c.streams)[streamId := StartedStream(headers, body, trailers, endStream, handlerAccepts)]
    ensures c.queuedWrite == old(c.queuedWrite) && c.goawayQueued == old(c.goawayQueued)
    ensures c.pumpOutWindowSize == old(c.pumpOutWindowSize)
  {
    c.streams := c.streams[streamId := NEW_STREAM];
    if !handlerAccepts {
      var s := c.streams[streamId];
      c.streams := c.streams[streamId := s.(outClosed := Some(ErrorCode.InternalError))];
    } else {
      var s := c.streams[streamId];
      s := s.(hasHandler := true);
      s := s.(outQueue := s.outQueue + [Part(Headers(headers), false)]);
      if body.Some? {
        s := s.(outQueue := s.outQueue + [Part(Data(body.value), false)]);
      }
      if trailers.Some? {
        s := s.(outQueue := s.outQueue + [Part(Headers(trailers.value), false)]);
      }
      if endStream {
        s := s.(outClosed := Some(NoError));
      }
      assert s.outQueue == RequestParts(headers, body, trailers);
      c.streams := c.streams[streamId := s];
    }
  }

  /**
   * What a started request has to yield: its parts, END_STREAM on the last when the request
   * ends the stream, or a single RST_STREAM with INTERNAL_ERROR when the handler refused it.
   */
  function RequestCommands(headers: HeaderBlock, body: Option<seq<byte>>, trailers: Option<HeaderBlock>,
                           endStream: bool, handlerAccepts: bool): seq<StreamCommand>
  {
    if handlerAccepts then PartCommands(RequestParts(headers, body, trailers), endStream)
    else [RstCommand(ErrorCode.InternalError)]
  }

  /**
   * `process_start`: opens the stream, then moves what the writable streams have into the
   * write queue. The writable streams are given, in the order the stream map lists them.
   * Every listed stream, the new one included, yields a prefix of what it has to yield and
   * keeps the rest; while the write buffer has room at the end, all of it went out.
   */
  method ProcessStart(c: Conn, streamId: u32, headers: HeaderBlock, body: Option<seq<byte>>,
                      trailers: Option<HeaderBlock>, endStream: bool, handlerAccepts: bool, writable: seq<u32>)
    returns (ghost taken: seq<seq<StreamCommand>>)
    requires c.Valid() && streamId !in c.streams
    requires forall k :: 0 <= k < |writable| ==> writable[k] in c.streams || writable[k] == streamId
    requires forall k, l :: 0 <= k < l < |writable| ==> writable[k] != writable[l]
    modifies c
    ensures |taken| <= |writable|
    ensures c.queuedWrite == old(c.queuedWrite) + TakenFrames(writable, taken, c.maxFrameSize)
    ensures AllTakenUnderLimit(old(c.queuedWrite), writable, taken, c.maxFrameSize)
    ensures var started := old(c.streams)[streamId := StartedStream(headers, body, trailers, endStream, handlerAccepts)];
      && Yielded(started, c.streams, writable, taken)
      && (|taken| > 0 ==> AllDrained(started, writable, taken, |taken| - 1))
      && (c.HasWriteBufferCapacity() ==> |taken| == |writable| && AllDrained(started, writable, taken, |writable|))
      && Untouched(c.streams, started, writable, |taken|)
      && OnlyListedChanged(c.streams, started, writable)
    ensures forall i :: 0 <= i < |taken| && writable[i] == streamId ==>
      taken[i] <= RequestCommands(headers, body, trailers, endStream, handlerAccepts)
    ensures c.HasWriteBufferCapacity() ==> forall i :: 0 <= i < |writable| && writable[i] == streamId ==>
      taken[i] == RequestCommands(headers, body, trailers, endStream, handlerAccepts)
  {
    StartStream(c, streamId, headers, body, trailers, endStream, handlerAccepts);
    ghost var started := c.streams;
    var _, t := c.BufferOutgConn(writable);
    taken := t;
    RequestOnWire(headers, body, trailers, endStream, handlerAccepts);
    assert Drain(started[streamId]) == RequestCommands(headers, body, trailers, endStream, handlerAccepts);
    forall i | 0 <= i < |taken| && writable[i] == streamId
      ensures taken[i] <= RequestCommands(headers, body, trailers, endStream, handlerAccepts)
    {
      YieldedPrefix(started[streamId], taken[i], Lookup(c.streams, streamId));
    }
  }

  // ---------------------------------------------------------------------------------------
  // What a stream yields

  /** The commands for queued parts, the last one ending the stream when `closes`. */
  function PartCommands(parts: seq<Part>, closes: bool): (r: seq<StreamCommand>)
    ensures |r| == |parts|
  {
    seq(|parts|, i requires 0 <= i < |parts| => PartCommand(parts[i], closes && i == |parts| - 1))
  }

  /**
   * A stream whose queued parts are none of them marked last yields them in order, then its
   * end: END_STREAM on the last part when the outgoing side was closed with NO_ERROR (an
   * empty DATA frame when nothing was queued), RST_STREAM when it was closed with an error.
   */
  lemma {:induction false} DrainQueue(s: HttpStream)
    requires !s.outSent
    requires forall i :: 0 <= i < |s.outQueue| ==> !s.outQueue[i].last
    ensures Drain(s) ==
      PartCommands(s.outQueue, s.outClosed == Some(NoError))
      + (if s.outClosed.Some? && s.outClosed.value != NoError then [RstCommand(s.outClosed.value)]
         else if s.outQueue == [] && s.outClosed == Some(NoError) then [DataCommand([], true)]
         else [])
    decreases |s.outQueue|
  {
    if s.outQueue == [] {
      if s.outClosed == Some(NoError) {
        assert Drain(s) == [DataCommand([], true)] + Drain(s.(outSent := true));
      }
    } else {
      var rest := s.outQueue[1..];
      var closes := s.outClosed == Some(NoError);
      var endStream := rest == [] && closes;
      var t := s.(outQueue := rest, outSent := endStream);
      assert Drain(s) == [PartCommand(s.outQueue[0], endStream)] + Drain(t);
      if endStream {
        assert Drain(t) == [];
      } else {
        DrainQueue(t);
      }
      assert PartCommands(s.outQueue, closes) == [PartCommand(s.outQueue[0], endStream)] + PartCommands(rest, closes);
    }
  }

  /**
   * A started request goes out as its headers, its body and its trailers in that order,
   * END_STREAM on the last of them exactly when the request ends the stream; a request the
   * handler refused goes out as a single RST_STREAM with INTERNAL_ERROR.
   */
  lemma RequestOnWire(headers: HeaderBlock, body: Option<seq<byte>>, trailers: Option<HeaderBlock>,
                      endStream: bool, handlerAccepts: bool)
    ensures var yielded := Drain(StartedStream(headers, body, trailers, endStream, handlerAccepts));
      && (!handlerAccepts ==> yielded == [RstCommand(ErrorCode.InternalError)])
      && (handlerAccepts ==> yielded == PartCommands(RequestParts(headers, body, trailers), endStream))
  {
    var s := StartedStream(headers, body, trailers, endStream, handlerAccepts);
    DrainQueue(s);
    if handlerAccepts {
      assert s.outQueue != [];
    }
  }
}
