/** The unencrypted MTProto message of UnsecuredMessage.cs: a 20-byte header (auth key id,
    message id and content length, each little-endian) followed by the content, kept in a
    buffer rented from an array pool and returned to it on Dispose. */
module Unsecured {
  import opened Wrappers
  import opened Bytes
  import opened TLWire
  import opened TLValues
  import TLSchema
  import TLEstimate
  import TLWrite
  import Time

  const HEADER_SIZE: nat := 20

  /** `bw.Write(authKeyId); bw.Write(msgId); bw.Write(length)`. */
  function Header(authKeyId: int64, msgId: int64, length: int32): (r: seq<byte>)
    ensures |r| == HEADER_SIZE
  {
    EncodeI64(authKeyId) + EncodeI64(msgId) + EncodeI32(length)
  }

  /** The three reads of CreateFromBytes: the auth key id, the message id shifted right by
      32 bits, and the content length. */
  function ReadHeader(data: seq<byte>): (r: Result<(int64, int64, int32)>)
    ensures r.Ok? <==> |data| >= HEADER_SIZE
  {
    var a :- ReadI64(data, 0);
    var m :- ReadI64(data, a.1);
    var n :- ReadI32(data, m.1);
    Ok((a.0, Time.Shr32(m.0), n.0))
  }

  /** Reading a header back gives its auth key id and length, and the upper half of its
      message id, whatever follows it. */
  lemma HeaderRoundTrip(authKeyId: int64, msgId: int64, length: int32, rest: seq<byte>)
    ensures ReadHeader(Header(authKeyId, msgId, length) + rest) == Ok((authKeyId, Time.Shr32(msgId), length))
  {
    var data := Header(authKeyId, msgId, length) + rest;
    assert data[0..8] == EncodeI64(authKeyId);
    assert data[8..16] == EncodeI64(msgId);
    assert data[16..20] == EncodeI32(length);
    I64RoundTrip(authKeyId);
    I64RoundTrip(msgId);
    I32RoundTrip(length);
  }

  // ---- The array pool ----

  /** ArrayPool<byte>: what it hands out is some array of at least the requested length,
      holding whatever it held before; what it is given back is recorded. */
  class BufferPool {
    var returned: seq<array<byte>>

    constructor ()
      ensures returned == []
    {
      returned := [];
    }

    /** Rent(n): a negative length is out of range; otherwise an array `slack` bytes
        longer than asked, with unspecified contents. */
    method Rent(n: int, slack: nat) returns (r: Result<array<byte>>)
      ensures r.Ok? <==> n >= 0
      ensures r.Ok? ==> fresh(r.value) && r.value.Length == n + slack
      ensures r.Err? ==> r.error == OutOfRange
    {
      if n < 0 {
        return Err(OutOfRange);
      }
      var a := new byte[n + slack];
      r := Ok(a);
    }

    /** Return(a). */
    method Return(a: array<byte>)
      modifies this
      ensures returned == old(returned) + [a]
    {
      returned := returned + [a];
    }
  }

  // ---- The message ----

  class Message {
    const buffer: array<byte>
    const authKeyId: int64
    const msgId: int64
    const contentLength: int32

    constructor (buffer: array<byte>, authKeyId: int64, msgId: int64, contentLength: int32)
      ensures this.buffer == buffer && this.authKeyId == authKeyId
      ensures this.msgId == msgId && this.contentLength == contentLength
    {
      this.buffer := buffer;
      this.authKeyId := authKeyId;
      this.msgId := msgId;
      this.contentLength := contentLength;
    }

    /** AsBytes: the first `20 + ContentLength` bytes (an int sum) of the buffer. While the
        buffer is shorter than 2^31 bytes, that is a slice exactly when the length lies
        between -20 and what is left after the header. */
    function AsBytes(): (r: Result<seq<byte>>)
      reads buffer
      ensures buffer.Length < TWO_31 ==> (r.Ok? <==> -20 <= contentLength && 20 + contentLength <= buffer.Length)
      ensures r.Err? ==> r.error == OutOfRange
    {
      var n := Wrap32(20 + contentLength);
      if 0 <= n <= buffer.Length then Ok(buffer[..n]) else Err(OutOfRange)
    }

    /** Content: the `ContentLength` bytes after the header, which are what AsBytes holds
        after the header. */
    function Content(): (r: Result<seq<byte>>)
      reads buffer
      ensures r.Ok? <==> 0 <= contentLength && 20 + contentLength <= buffer.Length
      ensures r.Ok? && buffer.Length < TWO_31 ==> AsBytes().Ok? && r.value == AsBytes().value[HEADER_SIZE..]
    {
      if 0 <= contentLength && 20 + contentLength <= buffer.Length then
        Ok(buffer[20..20 + contentLength])
      else
        Err(OutOfRange)
    }

    /** Dispose: the buffer goes back to the pool. */
    method Dispose(pool: BufferPool)
      modifies pool
      ensures pool.returned == old(pool.returned) + [buffer]
    {
      pool.Return(buffer);
    }
  }

  // ---- Creating messages ----

  /** What CreateFromObject lays into its buffer for the message id `id`, with a pool that
      hands out `slack` bytes more than asked: the header, with the estimate (summed in
      int) as the length, then the encoding. Renting fails on a negative length, and the
      fixed-size stream fails on a write past its end. */
  function Frame(parse: TLSchema.Parser, o: TLObject, id: int64, slack: nat): (r: Result<seq<byte>>)
  {
    var n :- TLEstimate.EstimateObject(parse, o);
    SizedFrame(parse, o, id, slack, Wrap32(n))
  }

  /** The frame once the object is sized. The stream throws at the first write past its
      end, so a writer error counts only when the bytes written before it still fit. */
  function SizedFrame(parse: TLSchema.Parser, o: TLObject, id: int64, slack: nat, size: int32): (r: Result<seq<byte>>)
  {
    var length := Wrap32(20 + size as int);
    if length < 0 then Err(OutOfRange)
    else if length + slack < HEADER_SIZE then Err(NotSupported)
    else
      match TLWrite.WriteObject(parse, o)
      case Err(e) =>
        if HEADER_SIZE + |TLWrite.Emitted(parse, o)| > length + slack then Err(NotSupported) else Err(e)
      case Ok(enc) =>
        if HEADER_SIZE + |enc| > length + slack then Err(NotSupported)
        else Ok(Header(0, id, size) + enc)
  }

  /** A frame starts with the unencrypted header: no auth key, the id, and the estimate as
      the length; what follows the header is the encoding of the object. */
  lemma FrameLayout(parse: TLSchema.Parser, o: TLObject, id: int64, slack: nat)
    requires Frame(parse, o, id, slack).Ok?
    ensures var f := Frame(parse, o, id, slack).value;
      var size := Wrap32(TLEstimate.EstimateObject(parse, o).value);
      && ReadHeader(f) == Ok((0, Time.Shr32(id), size))
      && f[HEADER_SIZE..] == TLWrite.WriteObject(parse, o).value
  {
    var size := Wrap32(TLEstimate.EstimateObject(parse, o).value);
    var enc := TLWrite.WriteObject(parse, o).value;
    HeaderRoundTrip(0, id, size, enc);
  }

  /** When the estimate is the encoding's length (below 2^31 - 20), the frame fits any
      rented buffer and its length field is that length. */
  lemma ExactFrameFits(parse: TLSchema.Parser, o: TLObject, id: int64, slack: nat)
    requires TLWrite.WriteObject(parse, o).Ok?
    requires TLEstimate.EstimateObject(parse, o) == Ok(|TLWrite.WriteObject(parse, o).value|)
    requires |TLWrite.WriteObject(parse, o).value| < TWO_31 - HEADER_SIZE
    ensures var enc := TLWrite.WriteObject(parse, o).value;
      Frame(parse, o, id, slack) == Ok(Header(0, id, |enc|) + enc)
  {
    var enc := TLWrite.WriteObject(parse, o).value;
    assert Wrap32(|enc|) == |enc|;
    assert Wrap32(20 + |enc|) == 20 + |enc|;
  }

  /** CreateFromObject: takes the next id from the clock, sizes the object, rents a buffer
      and writes the header and the encoding into it. */
  method CreateFromObject(clock: Time.Clock, cache: TLSchema.SchemaCache, pool: BufferPool, o: TLObject, now: int64, slack: nat)
    returns (r: Result<Message>)
    requires cache.Valid()
    modifies clock, cache
    ensures cache.Valid()
    ensures clock.lastId == Time.NextId(old(clock.lastId), old(clock.offset), now)
    ensures clock.offset == old(clock.offset)
    ensures var f := Frame(cache.parse, o, clock.lastId, slack);
      && (r.Ok? <==> f.Ok?)
      && (r.Err? ==> r.error == f.error)
      && (r.Ok? ==>
        && fresh(r.value) && fresh(r.value.buffer)
        && r.value.authKeyId == 0
        && r.value.msgId == clock.lastId
        && r.value.contentLength == Wrap32(TLEstimate.EstimateObject(cache.parse, o).value)
        && r.value.buffer.Length == Wrap32(20 + r.value.contentLength) + slack
        && r.value.buffer[..|f.value|] == f.value)
  {
    var id := clock.GetId(now);
    var n :- TLEstimate.Estimate(cache, o);
    r := WriteMessage(cache, pool, o, id, Wrap32(n), slack);
  }

  /** The part of CreateFromObject after sizing: renting and writing through a BinaryWriter
      over a fixed-size memory stream on the rented buffer. */
  method WriteMessage(cache: TLSchema.SchemaCache, pool: BufferPool, o: TLObject, id: int64, size: int32, slack: nat)
    returns (r: Result<Message>)
    requires cache.Valid()
    modifies cache
    ensures cache.Valid()
    ensures var f := SizedFrame(cache.parse, o, id, slack, size);
      && (r.Ok? <==> f.Ok?)
      && (r.Err? ==> r.error == f.error)
      && (r.Ok? ==>
        && fresh(r.value) && fresh(r.value.buffer)
        && r.value.authKeyId == 0 && r.value.msgId == id && r.value.contentLength == size
        && r.value.buffer.Length == Wrap32(20 + size as int) + slack
        && r.value.buffer[..|f.value|] == f.value)
  {
    var memory :- pool.Rent(Wrap32(20 + size as int), slack);
    if memory.Length < HEADER_SIZE {
      return Err(NotSupported);
    }
    var w := new Writer();
    w.Write(EncodeI64(0));
    w.Write(EncodeI64(id));
    w.Write(EncodeI32(size));
    assert w.out == Header(0, id, size);
    var written := TLWrite.WriteToStream(cache, w, o);
    if |w.out| > memory.Length {
      return Err(NotSupported);
    }
    if written.Err? {
      return Err(written.error);
    }
    Copy(memory, w.out);
    var m := new Message(memory, 0, id, size);
    r := Ok(m);
  }

  /** Writing `data` at the start of `a` (the memory stream's writes, or Memory.CopyTo). */
  method Copy(a: array<byte>, data: seq<byte>)
    requires |data| <= a.Length
    modifies a
    ensures a[..|data|] == data
  {
    forall i | 0 <= i < |data| {
      a[i] := data[i];
    }
    assert a[..|data|] == data;
  }

  /** A message whose buffer starts with a header giving the encoding's length, followed
      by the encoding, shows the two as its bytes and the encoding as its content: the
      views of what CreateFromObject builds when the estimate is exact (ExactFrameFits). */
  lemma ExactMessageViews(m: Message, enc: seq<byte>)
    requires |enc| < TWO_31 - HEADER_SIZE
    requires m.contentLength == |enc|
    requires m.buffer.Length >= HEADER_SIZE + |enc|
    requires m.buffer[..HEADER_SIZE + |enc|] == Header(0, m.msgId, |enc|) + enc
    ensures m.AsBytes() == Ok(Header(0, m.msgId, |enc|) + enc)
    ensures m.Content() == Ok(enc)
  {
    assert Wrap32(20 + m.contentLength) == 20 + |enc|;
    assert m.buffer[20..20 + |enc|] == m.buffer[..HEADER_SIZE + |enc|][20..];
  }

  /** CreateFromBytes: reads the header, hands the server's message id to the clock,
      checks the content length, rents a buffer at least as long as the input and copies
      the input into it. The id is shifted right by 32 bits before the clock sees it, and
      the clock shifts it again (OffsetAsWritten). */
  method CreateFromBytes(clock: Time.Clock, pool: BufferPool, bytes: seq<byte>, now: int64, slack: nat)
    returns (r: Result<Message>)
    modifies clock
    ensures clock.lastId == old(clock.lastId)
    ensures |bytes| >= 16 ==> clock.offset == OffsetAsWritten(DecodeI64(bytes[8..16]), now)
    ensures |bytes| < 16 ==> clock.offset == old(clock.offset)
    ensures var h := ReadHeader(bytes);
      && (r.Ok? <==> h.Ok? && h.value.2 >= 0)
      && (r.Err? ==> r.error == if h.Err? then EndOfStream else OutOfRange)
      && (r.Ok? ==>
        && fresh(r.value) && fresh(r.value.buffer)
        && (r.value.authKeyId, r.value.msgId, r.value.contentLength) == h.value
        && r.value.buffer.Length == |bytes| + slack
        && r.value.buffer[..|bytes|] == bytes)
  {
    var br := new Reader(bytes);
    var authKeyId :- br.ReadInt64();
    var rawId :- br.ReadInt64();
    var msgId := Time.Shr32(rawId);
    clock.CorrectOffset(now, msgId);
    var objectSize :- br.ReadInt32();
    if objectSize < 0 {
      return Err(OutOfRange);
    }
    var _ := br.ReadAvailableBytes(objectSize);
    var rented := pool.Rent(|bytes|, slack);
    var memory := rented.value;
    Copy(memory, bytes);
    var m := new Message(memory, authKeyId, msgId, objectSize);
    r := Ok(m);
  }

  // ---- The clock correction on receipt ----

  /** The offset the clock receives as written: the id shifted right by 32 bits before the
      call, and shifted again inside CorrectOffset. */
  function OffsetAsWritten(rawId: int64, now: int64): int64
  {
    Time.OffsetFor(Time.Shr32(rawId), now)
  }

  /** As written, every non-negative server id yields the offset `-now`: the server's time
      is lost, and the next id carries the local seconds elapsed since receipt. */
  lemma DoubleShiftDropsServerTime(rawId: int64, now: int64)
    requires rawId >= 0
    ensures OffsetAsWritten(rawId, now) == Wrap64(-(now as int))
  {
    assert Time.Shr32(Time.Shr32(rawId)) == 0;
  }

  /** A server id for 1_700_000_000 seconds, received at that same local second: as written,
      the offset becomes -1_700_000_000 and the next id from a fresh clock is 2, where the
      server's time shifted into the upper half was meant. */
  lemma DoubleShiftExample()
    ensures var t := 1_700_000_000;
      && OffsetAsWritten(t * TWO_32, t) == -t
      && Time.NextId(0, OffsetAsWritten(t * TWO_32, t), t) == 2
      && Time.NextId(0, Time.OffsetFor(t * TWO_32, t), t) == t * TWO_32
  {
    var t := 1_700_000_000;
    DoubleShiftDropsServerTime(t * TWO_32, t);
    Wrap64Identity(-t);
    Wrap64Identity(t * TWO_32 / TWO_32 - t);
    Wrap64Identity(t + 0);
    Time.NextIdChoice(0, -t, t);
    Time.NextIdChoice(0, 0, t);
  }

  /** The clock given the id as received: the corrected time at any later local second is
      the server's seconds plus the local seconds elapsed since receipt. */
  lemma ServerTimeAdopted(rawId: int64, now: int64, later: int64)
    requires rawId >= 0
    requires 0 <= now <= later < TWO_32
    ensures Wrap64(later + Time.OffsetFor(rawId, now)) == rawId / TWO_32 + (later - now)
  {
    Wrap64Identity(Time.Shr32(rawId) - now);
    Wrap64Identity(later + Time.OffsetFor(rawId, now));
  }
}
