/**
 * The outgoing byte buffer: a vector of octets with a read cursor. Octets before the
 * cursor have been consumed by the socket writer; the rest are still to be written.
 */
module WriteBuffers {
  import opened Bytes
  import opened Frame

  class WriteBuffer {
    var data: seq<byte>
    var position: nat

    /** The cursor never passes the end of the vector. */
    ghost predicate Valid()
      reads this
    {
      position <= |data|
    }

    /** The octets not yet consumed. */
    function Bytes(): (r: seq<byte>)
      reads this
      requires Valid()
      ensures |r| == |data| - position
    {
      data[position..]
    }

    constructor ()
      ensures Valid() && Bytes() == [] && position == 0
    {
      data, position := [], 0;
    }

    /** Size of data in the buffer. */
    function Remaining(): (r: nat)
      reads this
      requires Valid()
      ensures r == |Bytes()|
    {
      |data| - position
    }

    /** Consumes the first `cnt` unread octets; asking for more than remain is a panic. */
    method Advance(cnt: nat)
      requires Valid() && cnt <= Remaining()
      modifies this
      ensures Valid() && Bytes() == old(Bytes())[cnt..]
      ensures data == old(data)
    {
      position := position + cnt;
    }

    /** Drops the consumed prefix of the vector and resets the cursor. */
    method Compact()
      requires Valid()
      modifies this
      ensures Valid() && position == 0 && data == old(Bytes())
    {
      data := data[position..];
      position := 0;
    }

    /**
     * Makes room for `additional` octets. Only the vector's capacity changes, which the
     * model does not track; the consumed prefix is dropped when the room was short.
     */
    method Reserve(additional: nat)
      requires Valid()
      modifies this
      ensures Valid() && Bytes() == old(Bytes())
      ensures old(Remaining()) < additional ==> position == 0
      ensures old(Remaining()) >= additional ==> data == old(data) && position == old(position)
    {
      if Remaining() >= additional {
        return;
      }
      Compact();
    }

    /** Appends octets to the unread part. */
    method ExtendFromSlice(d: seq<byte>)
      requires Valid()
      modifies this
      ensures Valid() && Bytes() == old(Bytes()) + d
    {
      Reserve(|d|);
      data := data + d;
    }

    /** Compacts, then appends the octets an iterator yields. */
    method ExtendFromIter(d: seq<byte>)
      requires Valid()
      modifies this
      ensures Valid() && position == 0 && data == old(Bytes()) + d
    {
      Compact();
      data := data + d;
    }

    /** Converts the buffer into a vector of exactly the unread octets. */
    method IntoVec() returns (v: seq<byte>)
      requires Valid()
      modifies this
      ensures v == old(Bytes())
    {
      Compact();
      v := data;
    }

    /** A view over the same vector and cursor, used to patch frame headers in place. */
    method TailVec() returns (t: WriteBufferTailVec)
      requires Valid()
      ensures fresh(t) && t.buf == this
    {
      t := new WriteBufferTailVec(this);
    }

    /** Writes a packed frame header. */
    method WriteHeader(h: FrameHeader)
      requires Valid()
      modifies this
      ensures Valid() && Bytes() == old(Bytes()) + PackHeader(h)
    {
      ExtendFromSlice(PackHeader(h));
    }

    /** Writes `n` zero octets of padding. */
    method WritePadding(n: byte)
      requires Valid()
      modifies this
      ensures Valid() && Bytes() == old(Bytes()) + Zeros(n)
    {
      ExtendFromIter(Zeros(n));
    }

    /** Writes a 32-bit unsigned integer, big-endian. */
    method WriteU32(x: u32)
      requires Valid()
      modifies this
      ensures Valid() && Bytes() == old(Bytes()) + U32ToBe(x)
    {
      ExtendFromSlice(U32ToBe(x));
    }
  }

  /** A borrowed view of a `WriteBuffer`'s vector and cursor. */
  class WriteBufferTailVec {
    const buf: WriteBuffer

    constructor (b: WriteBuffer)
      ensures buf == b
    {
      buf := b;
    }

    function Remaining(): (r: nat)
      reads buf
      requires buf.Valid()
      ensures r == |buf.Bytes()|
    {
      |buf.data| - buf.position
    }

    /**
     * Overwrites `|d|` octets at offset `pos` of the unread part. Positions are relative
     * to the cursor, so compaction between writes leaves them valid. Out-of-range patches
     * are a panic in the source.
     */
    method PatchBuf(pos: nat, d: seq<byte>)
      requires buf.Valid() && pos + |d| <= Remaining()
      modifies buf
      ensures buf.Valid() && buf.position == old(buf.position) && |buf.data| == |old(buf.data)|
      ensures buf.Bytes() == old(buf.Bytes())[..pos] + d + old(buf.Bytes())[pos + |d|..]
    {
      var p := buf.position + pos;
      buf.data := buf.data[..p] + d + buf.data[p + |d|..];
      assert buf.Bytes() == old(buf.Bytes())[..pos] + d + old(buf.Bytes())[pos + |d|..];
    }

    method ExtendFromSlice(d: seq<byte>)
      requires buf.Valid()
      modifies buf
      ensures buf.Valid() && buf.Bytes() == old(buf.Bytes()) + d
    {
      buf.ExtendFromSlice(d);
    }

    method Reserve(additional: nat)
      requires buf.Valid()
      modifies buf
      ensures buf.Valid() && buf.Bytes() == old(buf.Bytes())
    {
      buf.Reserve(additional);
    }

    method Compact()
      requires buf.Valid()
      modifies buf
      ensures buf.Valid() && buf.position == 0 && buf.data == old(buf.Bytes())
    {
      buf.Compact();
    }
  }

  /** The read-back order the buffer promises: "abcd", two reads, "ef", then c, d, e, f. */
  method RemainingScenario()
  {
    var b := new WriteBuffer();
    b.ExtendFromSlice([0x61, 0x62, 0x63, 0x64]);
    assert b.Remaining() == 4;
    assert b.Bytes()[0] == 0x61;
    b.Advance(1);
    assert b.Bytes()[0] == 0x62;
    b.Advance(1);
    assert b.Remaining() == 2;
    b.ExtendFromSlice([0x65, 0x66]);
    assert b.Bytes() == [0x63, 0x64, 0x65, 0x66];
    b.Advance(4);
    assert b.Remaining() == 0;
  }
}
