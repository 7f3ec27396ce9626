/**
 * A single-producer queue from a stream's handler to whoever pulls the stream's parts: the
 * sender side is the handler the connection calls, the receiver side remembers once the end
 * of the stream went past and from then on reports end of stream.
 */
module StreamQueueSync {
  import opened Wrappers
  import opened Frame
  import opened Bytes
  import opened ConnWrite

  /** The errors a pulled stream can end with. */
  datatype StreamError =
    | RstStreamReceived(code: ErrorCode)
    | PullStreamDied
      /** The internal error reported when the channel ends before the stream did. */
    | UnexpectedEof
    | HandlerError(reason: string)

  /** What the channel carries: a part, or an error that ends the stream. */
  type Item = Result<Part, StreamError>

  /** The answer of one poll: a part, the end of the stream (None), not yet, or an error. */
  datatype PollResult = Ready(part: Option<Part>) | NotReady | Failed(error: StreamError)

  /** The unbounded channel between the two sides. */
  class Channel {
    var items: seq<Item>
    var senderAlive: bool
    var receiverAlive: bool

    constructor ()
      ensures items == [] && senderAlive && receiverAlive
    {
      items := [];
      senderAlive := true;
      receiverAlive := true;
    }
  }

  /** An item that ends the stream: an error, or a part marked last. */
  predicate Ends(item: Item) {
    item.Err? || item.value.last
  }

  function AsResult(item: Item): PollResult {
    match item
    case Ok(part) => Ready(Some(part))
    case Err(e) => Failed(e)
  }

  /**
   * One poll of the receiver: the answer, the new end-of-stream latch and the items left.
   * After the latch every poll is end of stream; otherwise the oldest item is taken, and an
   * item that ends the stream sets the latch; an empty channel is "not yet" while the sender
   * lives and an unexpected end once it is gone, which leaves the latch clear.
   */
  function PollStep(eofReceived: bool, items: seq<Item>, senderAlive: bool): (r: (PollResult, bool, seq<Item>))
    ensures eofReceived ==> r == (Ready(None), true, items)
    ensures !eofReceived && items != [] ==> r == (AsResult(items[0]), Ends(items[0]), items[1..])
    ensures !eofReceived && items == [] ==> !r.1 && r.2 == [] && (r.0 == PollResult.NotReady <==> senderAlive)
    ensures !eofReceived && items == [] && !senderAlive ==> r.0 == Failed(UnexpectedEof)
  {
    if eofReceived then (Ready(None), true, items)
    else if items == [] then
      if senderAlive then (PollResult.NotReady, false, []) else (Failed(UnexpectedEof), false, [])
    else
      match items[0]
      case Err(e) => (Failed(e), true, items[1..])
      case Ok(part) => (Ready(Some(part)), part.last, items[1..])
  }

  /** The answers of `n` polls in a row, with nothing sent in between. */
  function Polls(eofReceived: bool, items: seq<Item>, senderAlive: bool, n: nat): (r: seq<PollResult>)
    ensures |r| == n
    decreases n
  {
    if n == 0 then []
    else
      var (answer, eof, rest) := PollStep(eofReceived, items, senderAlive);
      [answer] + Polls(eof, rest, senderAlive, n - 1)
  }

  /** Once the latch is set, every later poll reports end of stream. */
  lemma {:induction false} AfterLatch(items: seq<Item>, senderAlive: bool, n: nat)
    ensures forall i :: 0 <= i < n ==> Polls(true, items, senderAlive, n)[i] == Ready(None)
  {
    if n > 0 {
      AfterLatch(items, senderAlive, n - 1);
    }
  }

  /**
   * Polling a channel whose item `t` is the first to end the stream gives the items up to
   * and including it, in order, and end of stream from then on.
   */
  lemma {:induction false} ReceivesUpToEnd(items: seq<Item>, senderAlive: bool, t: nat, m: nat)
    requires t < |items| && Ends(items[t])
    requires forall i :: 0 <= i < t ==> !Ends(items[i])
    ensures var r := Polls(false, items, senderAlive, t + 1 + m);
      && (forall i :: 0 <= i <= t ==> r[i] == AsResult(items[i]))
      && (forall i :: t < i < t + 1 + m ==> r[i] == Ready(None))
    decreases t
  {
    var r := Polls(false, items, senderAlive, t + 1 + m);
    assert r == [AsResult(items[0])] + Polls(Ends(items[0]), items[1..], senderAlive, t + m);
    if t == 0 {
      AfterLatch(items[1..], senderAlive, m);
    } else {
      ReceivesUpToEnd(items[1..], senderAlive, t - 1, m);
    }
  }

  /**
   * Polling a channel that holds no item ending the stream gives its items in order, then
   * "not yet" while the sender lives, and an unexpected end once it is gone.
   */
  lemma {:induction false} ReceivesUnended(items: seq<Item>, senderAlive: bool)
    requires forall i :: 0 <= i < |items| ==> !Ends(items[i])
    ensures var r := Polls(false, items, senderAlive, |items| + 1);
      && (forall i :: 0 <= i < |items| ==> r[i] == AsResult(items[i]))
      && r[|items|] == (if senderAlive then PollResult.NotReady else Failed(UnexpectedEof))
    decreases |items|
  {
    if items != [] {
      var r := Polls(false, items, senderAlive, |items| + 1);
      assert r == [AsResult(items[0])] + Polls(false, items[1..], senderAlive, |items|);
      ReceivesUnended(items[1..], senderAlive);
    }
  }

  /** The handler side: every call becomes an item on the channel. */
  class StreamQueueSyncSender {
    const channel: Channel

    constructor (channel: Channel)
      ensures this.channel == channel
    {
      this.channel := channel;
    }

    /** Puts an item on the channel; once the receiver is gone, nothing is sent and the pull stream is reported dead. */
    method Send(item: Item) returns (r: Result<(), StreamError>)
      modifies channel
      ensures old(channel.receiverAlive) ==> r == Ok(()) && channel.items == old(channel.items) + [item]
      ensures !old(channel.receiverAlive) ==> r == Err(PullStreamDied) && channel.items == old(channel.items)
      ensures channel.senderAlive == old(channel.senderAlive) && channel.receiverAlive == old(channel.receiverAlive)
    {
      if !channel.receiverAlive {
        return Err(PullStreamDied);
      }
      channel.items := channel.items + [item];
      return Ok(());
    }

    method Headers(headers: HeaderBlock, endStream: bool) returns (r: Result<(), StreamError>)
      modifies channel
      ensures old(channel.receiverAlive) ==> r == Ok(()) && channel.items == old(channel.items) + [Ok(Part(DataOrHeaders.Headers(headers), endStream))]
      ensures !old(channel.receiverAlive) ==> r == Err(PullStreamDied) && channel.items == old(channel.items)
      ensures channel.senderAlive == old(channel.senderAlive) && channel.receiverAlive == old(channel.receiverAlive)
    {
      r := Send(Ok(Part(DataOrHeaders.Headers(headers), endStream)));
    }

    method DataFrame(data: seq<byte>, endStream: bool) returns (r: Result<(), StreamError>)
      modifies channel
      ensures old(channel.receiverAlive) ==> r == Ok(()) && channel.items == old(channel.items) + [Ok(Part(Data(data), endStream))]
      ensures !old(channel.receiverAlive) ==> r == Err(PullStreamDied) && channel.items == old(channel.items)
      ensures channel.senderAlive == old(channel.senderAlive) && channel.receiverAlive == old(channel.receiverAlive)
    {
      r := Send(Ok(Part(Data(data), endStream)));
    }

    /** Trailers always end the stream. */
    method Trailers(trailers: HeaderBlock) returns (r: Result<(), StreamError>)
      modifies channel
      ensures old(channel.receiverAlive) ==> r == Ok(()) && channel.items == old(channel.items) + [Ok(Part(DataOrHeaders.Headers(trailers), true))]
      ensures !old(channel.receiverAlive) ==> r == Err(PullStreamDied) && channel.items == old(channel.items)
      ensures channel.senderAlive == old(channel.senderAlive) && channel.receiverAlive == old(channel.receiverAlive)
    {
      r := Send(Ok(Part(DataOrHeaders.Headers(trailers), true)));
    }

    method Rst(code: ErrorCode) returns (r: Result<(), StreamError>)
      modifies channel
      ensures old(channel.receiverAlive) ==> r == Ok(()) && channel.items == old(channel.items) + [Err(RstStreamReceived(code))]
      ensures !old(channel.receiverAlive) ==> r == Err(PullStreamDied) && channel.items == old(channel.items)
      ensures channel.senderAlive == old(channel.senderAlive) && channel.receiverAlive == old(channel.receiverAlive)
    {
      r := Send(Err(RstStreamReceived(code)));
    }

    method Error(error: StreamError) returns (r: Result<(), StreamError>)
      modifies channel
      ensures old(channel.receiverAlive) ==> r == Ok(()) && channel.items == old(channel.items) + [Err(error)]
      ensures !old(channel.receiverAlive) ==> r == Err(PullStreamDied) && channel.items == old(channel.items)
      ensures channel.senderAlive == old(channel.senderAlive) && channel.receiverAlive == old(channel.receiverAlive)
    {
      r := Send(Err(error));
    }

    /** Dropping the sender closes the channel from its side. */
    method Drop()
      modifies channel
      ensures !channel.senderAlive
      ensures channel.items == old(channel.items) && channel.receiverAlive == old(channel.receiverAlive)
    {
      channel.senderAlive := false;
    }
  }

  /** The pulling side. */
  class StreamQueueSyncReceiver {
    const channel: Channel
    var eofReceived: bool

    constructor (channel: Channel)
      ensures this.channel == channel && !eofReceived
    {
      this.channel := channel;
      eofReceived := false;
    }

    method Poll() returns (r: PollResult)
      modifies this, channel
      ensures (r, eofReceived, channel.items) == PollStep(old(eofReceived), old(channel.items), old(channel.senderAlive))
      ensures channel.senderAlive == old(channel.senderAlive) && channel.receiverAlive == old(channel.receiverAlive)
    {
      if eofReceived {
        return Ready(None);
      }
      if channel.items == [] {
        if channel.senderAlive {
          return PollResult.NotReady;
        }
        return Failed(UnexpectedEof);
      }
      var item := channel.items[0];
      channel.items := channel.items[1..];
      match item {
        case Err(e) =>
          eofReceived := true;
          return Failed(e);
        case Ok(part) =>
          if part.last {
            eofReceived := true;
          }
          return Ready(Some(part));
      }
    }

    /** Dropping the receiver makes every later send fail. */
    method Drop()
      modifies channel
      ensures !channel.receiverAlive
      ensures channel.items == old(channel.items) && channel.senderAlive == old(channel.senderAlive)
    {
      channel.receiverAlive := false;
    }
  }

  /** A fresh pair over a new, empty channel, the latch clear. */
  method NewStreamQueueSync() returns (tx: StreamQueueSyncSender, rx: StreamQueueSyncReceiver)
    ensures fresh(tx) && fresh(rx) && fresh(rx.channel)
    ensures tx.channel == rx.channel
    ensures rx.channel.items == [] && rx.channel.senderAlive && rx.channel.receiverAlive
    ensures !rx.eofReceived
  {
    var channel := new Channel();
    tx := new StreamQueueSyncSender(channel);
    rx := new StreamQueueSyncReceiver(channel);
  }
}
