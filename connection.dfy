/** The TCP connection of Connection.cs, speaking MTProto's abridged transport: the
    marker byte 0xEF opens the stream, and every later message goes out behind a length
    header counting 4-byte words. The two channels are sequences (what is queued to
    send, and what has been received), the network stream is the bytes written to it
    and the chunks successive reads return. */
module Transport {
  import opened Wrappers
  import opened Bytes

  /** The abridged marker, sent once as a message of its own. */
  const MARKER: byte := 0xEF

  /** The size of the receive buffer, `1 << 16`. */
  const READ_BUFFER_SIZE: nat := 0x1_0000

  /** A Memory<byte> handed to the write channel: its length is an int. */
  type Payload = m: seq<byte> | |m| < TWO_31

  /** What one read of the network stream returns: at most the buffer's size. */
  type Chunk = c: seq<byte> | |c| <= READ_BUFFER_SIZE

  /** The data-center address table: only dc 2 is known. */
  const DATA_CENTERS: map<int, string> := map[2 := "149.154.167.40"]

  // ---- Sending ----

  /** The send header for a message of `length` bytes: the word count `length / 4` as one
      byte when it is below 0x7F, else 0x7F and the count's three low bytes, least
      significant first (the casts keep the low eight bits of each shift). */
  function SendHeader(length: nat): (r: seq<byte>)
    requires length < TWO_31
    ensures |r| == 1 || |r| == 4
    ensures |r| == 1 <==> r[0] < 0x7F
  {
    var words := length / 4;
    if words >= 0x7F then [0x7F, words % 256, (words / 256) % 256, (words / 0x1_0000) % 256]
    else [words]
  }

  /** What WriteLoop writes to the stream for one queued message: the one-byte marker
      message as it is, any other behind its header. */
  function Framed(m: Payload): (r: seq<byte>)
    ensures |r| == |m| <==> |m| == 1 && m[0] == MARKER
  {
    if |m| == 1 && m[0] == MARKER then m else SendHeader(|m|) + m
  }

  /** The frames of a sequence of messages, one after the other. */
  function Sent(ms: seq<Payload>): seq<byte>
  {
    if ms == [] then [] else Framed(ms[0]) + Sent(ms[1..])
  }

  lemma SentStep(before: seq<byte>, ms: seq<Payload>, total: seq<byte>)
    requires ms != [] && before + Sent(ms) == total
    ensures (before + Framed(ms[0])) + Sent(ms[1..]) == total
  {
  }

  // ---- Receiving ----

  /** The length and the header size ReadLoop takes from the first four buffer bytes: a
      first byte below 0x7F is the word count, otherwise the next three bytes are, least
      significant first; the count times four is the length. */
  function DecodeHeader(h: seq<byte>): (r: (nat, nat))
    requires |h| >= 4
    ensures r.1 == 1 || r.1 == 4
    ensures r.0 % 4 == 0 && r.0 < 4 * 0x100_0000
  {
    if h[0] < 0x7F then (h[0] as int * 4, 1)
    else ((h[1] as int + h[2] as int * 256 + h[3] as int * 0x1_0000) * 4, 4)
  }

  /** Decoding a send header (followed by whatever fills the buffer up to four bytes)
      gives back the length rounded down to whole words, and the header's size, for any
      length whose word count fits three bytes. */
  lemma HeaderRoundTrip(length: nat, rest: seq<byte>)
    requires length < 4 * 0x100_0000
    requires |SendHeader(length)| + |rest| >= 4
    ensures DecodeHeader(SendHeader(length) + rest) == (length / 4 * 4, |SendHeader(length)|)
  {
    var words := length / 4;
    if words >= 0x7F {
      var b1, b2, b3 := words % 256, (words / 256) % 256, (words / 0x1_0000) % 256;
      assert words == b1 + 256 * (words / 256);
      assert words / 256 == b2 + 256 * (words / 0x1_0000);
      assert b3 == words / 0x1_0000;
      assert b1 + b2 * 256 + b3 * 0x1_0000 == words;
    }
  }

  /** `s` with `d` written over it from index `at`: a CopyTo into a slice. */
  function Put(s: seq<byte>, at: nat, d: seq<byte>): (r: seq<byte>)
    requires at + |d| <= |s|
    ensures |r| == |s|
  {
    s[..at] + d + s[at + |d|..]
  }

  /** The split-case loop a round runs: the loop as Connection.cs writes it, whose pointer
      never advances and whose count of bytes still to read subtracts the header size, or
      the loop it evidently intends, whose pointer moves past each read and which starts
      from the bytes still missing. The connection's methods take the loop as a parameter:
      the source's ReadLoop is the one run with AsWritten. */
  datatype SplitLoop = AsWritten | Advancing

  /** What is left to read after a first read of `n` bytes, `offset` of them header, for a
      message of `length` bytes. */
  function LeftToRead(loop: SplitLoop, length: nat, n: nat, offset: nat): int
  {
    if loop == AsWritten then length - n - offset else length - (n - offset)
  }

  /** The loop of the split case: each further read lands at `pointer` of the message and
      is taken off `left`, until `left` is no longer positive; the advancing loop moves the
      pointer past the read. Running out of reads is the loop waiting forever; a read that
      does not fit after the pointer is a slice out of range. The result is the message,
      the buffer and the reads left. */
  function Reassemble(msg: seq<byte>, pointer: nat, left: int, chunks: seq<Chunk>, buf: seq<byte>, loop: SplitLoop)
    : (r: Result<(seq<byte>, seq<byte>, seq<Chunk>)>)
    requires |buf| == READ_BUFFER_SIZE
    ensures r.Ok? ==> |r.value.0| == |msg| && |r.value.1| == READ_BUFFER_SIZE
    ensures r.Ok? ==> |r.value.2| <= |chunks| && r.value.2 == chunks[|chunks| - |r.value.2|..]
    decreases |chunks|
  {
    if left <= 0 then Ok((msg, buf, chunks))
    else if chunks == [] then Err(EndOfStream)
    else
      var c := chunks[0];
      if pointer + |c| > |msg| then Err(OutOfRange)
      else
        var next := if loop == Advancing then pointer + |c| else pointer;
        var r := Reassemble(Put(msg, pointer, c), next, left - |c|, chunks[1..], Put(buf, 0, c), loop);
        assert r.Ok? ==> r.value.2 == chunks[1..][|chunks| - 1 - |r.value.2|..];
        r
  }

  /** The outcome of the split case as one of ReadMessage. */
  function Reassembled(m: Result<(seq<byte>, seq<byte>, seq<Chunk>)>): Result<(Option<seq<byte>>, seq<byte>, seq<Chunk>)>
  {
    if m.Ok? then Ok((Some(m.value.0), m.value.1, m.value.2)) else Err(m.error)
  }

  /** One round of ReadLoop on the reads `chunks`: the first read lands at the start of
      the buffer; an empty read delivers nothing; a declared length of 4 is a transport
      error, logged as the absolute value of the int32 after the header (which overflows
      for the smallest int32) and delivered as the four zero bytes of the fresh message;
      a message longer than what the first read holds after the header is reassembled
      from further reads; otherwise it is the bytes after the header. */
  function ReadMessage(buf: seq<byte>, chunks: seq<Chunk>, loop: SplitLoop)
    : (r: Result<(Option<seq<byte>>, seq<byte>, seq<Chunk>)>)
    requires |buf| == READ_BUFFER_SIZE && chunks != []
    ensures r.Ok? ==> |r.value.1| == READ_BUFFER_SIZE && |r.value.2| < |chunks|
  {
    var c := chunks[0];
    var b := Put(buf, 0, c);
    if |c| == 0 then Ok((None, b, chunks[1..]))
    else Unframed(b, |c|, chunks[1..], loop)
  }

  /** ReadMessage after a non-empty first read of `n` bytes has landed in the buffer `b`. */
  function Unframed(b: seq<byte>, n: nat, rest: seq<Chunk>, loop: SplitLoop)
    : (r: Result<(Option<seq<byte>>, seq<byte>, seq<Chunk>)>)
    requires |b| == READ_BUFFER_SIZE && 0 < n <= READ_BUFFER_SIZE
    ensures r.Ok? ==> |r.value.1| == READ_BUFFER_SIZE && |r.value.2| <= |rest|
  {
    var length := DecodeHeader(b[..4]).0;
    var offset := DecodeHeader(b[..4]).1;
    if length == 4 then
      if DecodeI32(b[offset..offset + 4]) == -TWO_31 then Err(OverflowError)
      else Ok((Some(Zeros(4)), b, rest))
    else if length > n - offset then
      if n < offset then Err(OutOfRange)
      else
        Reassembled(Reassemble(Put(Zeros(length), 0, b[offset..n]), n - offset, LeftToRead(loop, length, n, offset), rest, b, loop))
    else Ok((Some(b[offset..offset + length]), b, rest))
  }

  function Delivered(m: Option<seq<byte>>): seq<seq<byte>>
  {
    if m.Some? then [m.value] else []
  }

  /** ReadLoop over all the reads: the messages it delivers, and how it ends (with the
      reads exhausted, or with an exception). */
  function ReadAll(buf: seq<byte>, chunks: seq<Chunk>, loop: SplitLoop): (r: (seq<seq<byte>>, Result<()>))
    requires |buf| == READ_BUFFER_SIZE
    decreases |chunks|
  {
    if chunks == [] then ([], Ok(()))
    else
      var m := ReadMessage(buf, chunks, loop);
      if m.Err? then ([], Err(m.error))
      else
        var rest := ReadAll(m.value.1, m.value.2, loop);
        (Delivered(m.value.0) + rest.0, rest.1)
  }

  /** One round of ReadAll: what is still to be delivered after the round's message. */
  lemma DeliverStep(inb: seq<seq<byte>>, buf: seq<byte>, chunks: seq<Chunk>, loop: SplitLoop, want: seq<seq<byte>>)
    requires |buf| == READ_BUFFER_SIZE && chunks != [] && inb + ReadAll(buf, chunks, loop).0 == want
    ensures var m := ReadMessage(buf, chunks, loop);
      && (m.Err? ==> inb == want && ReadAll(buf, chunks, loop).1 == Err(m.error))
      && (m.Ok? ==> (inb + Delivered(m.value.0)) + ReadAll(m.value.1, m.value.2, loop).0 == want
                    && ReadAll(m.value.1, m.value.2, loop).1 == ReadAll(buf, chunks, loop).1)
  {
    var m := ReadMessage(buf, chunks, loop);
    if m.Ok? {
      var rest := ReadAll(m.value.1, m.value.2, loop);
      assert ReadAll(buf, chunks, loop).0 == Delivered(m.value.0) + rest.0;
      assert (inb + Delivered(m.value.0)) + rest.0 == inb + (Delivered(m.value.0) + rest.0);
    } else {
      assert inb + [] == inb;
    }
  }

  // ---- What the receive side makes of frames ----

  /** A frame that arrives in one read, for a message of whole words other than a single
      one, is delivered as the message that was sent. */
  lemma FrameReadBack(m: Payload, buf: seq<byte>, rest: seq<Chunk>, loop: SplitLoop)
    requires |m| % 4 == 0 && |m| != 4 && |m| < 4 * 0x100_0000
    requires |buf| == READ_BUFFER_SIZE && |Framed(m)| <= READ_BUFFER_SIZE
    ensures ReadMessage(buf, [Framed(m)] + rest, loop) == Ok((Some(m), Put(buf, 0, Framed(m)), rest))
  {
    var chunks := [Framed(m)] + rest;
    assert chunks[1..] == rest;
    var f := Framed(m);
    var h := SendHeader(|m|);
    var b := Put(buf, 0, f);
    assert f == h + m;
    HeaderRoundTrip(|m|, m + b[|f|..]);
    assert b[..4] == (h + (m + b[|f|..]))[..4];
    assert b[|h|..|h| + |m|] == m;
  }

  /** A declared length of 4 delivers four zero bytes, whatever the read holds, unless
      the error code after the header is the smallest int32. */
  lemma ErrorFrameAllZero(buf: seq<byte>, chunks: seq<Chunk>, loop: SplitLoop)
    requires |buf| == READ_BUFFER_SIZE && chunks != [] && |chunks[0]| > 0
    requires DecodeHeader(Put(buf, 0, chunks[0])[..4]).0 == 4
    ensures var b := Put(buf, 0, chunks[0]);
      var offset := DecodeHeader(b[..4]).1;
      && (ReadMessage(buf, chunks, loop).Err? <==> DecodeI32(b[offset..offset + 4]) == -TWO_31)
      && (ReadMessage(buf, chunks, loop).Ok? ==> ReadMessage(buf, chunks, loop).value.0 == Some([0, 0, 0, 0]))
  {
    assert Zeros(4) == [0, 0, 0, 0];
  }

  /** When the first read holds the whole message after its header, the message is those
      bytes of the read, and nothing more is read. */
  lemma WholePayload(buf: seq<byte>, chunks: seq<Chunk>, loop: SplitLoop, length: nat, offset: nat)
    requires |buf| == READ_BUFFER_SIZE && chunks != [] && |chunks[0]| > 0
    requires (length, offset) == DecodeHeader(Put(buf, 0, chunks[0])[..4])
    requires length != 4 && offset + length <= |chunks[0]|
    ensures ReadMessage(buf, chunks, loop) == Ok((Some(chunks[0][offset..offset + length]), Put(buf, 0, chunks[0]), chunks[1..]))
  {
    var c := chunks[0];
    var b := Put(buf, 0, c);
    assert b[..|c|] == c;
    assert b[offset..offset + length] == b[..|c|][offset..offset + length];
  }

  /** In the split case the first read's bytes after the header start the message, the
      rest of it is zero, and the loop starts after those bytes. As written, what is left
      to read is the length less the read less the header size; the bytes still missing
      are the length less the read plus the header size. */
  lemma SplitStart(buf: seq<byte>, chunks: seq<Chunk>, loop: SplitLoop, length: nat, offset: nat)
    requires |buf| == READ_BUFFER_SIZE && chunks != [] && |chunks[0]| > 0
    requires (length, offset) == DecodeHeader(Put(buf, 0, chunks[0])[..4])
    requires length != 4 && offset <= |chunks[0]| < offset + length
    ensures var c := chunks[0];
      ReadMessage(buf, chunks, loop) == Reassembled(Reassemble(
        c[offset..] + Zeros(length - (|c| - offset)), |c| - offset, LeftToRead(loop, length, |c|, offset), chunks[1..], Put(buf, 0, c), loop))
  {
    var c := chunks[0];
    var b := Put(buf, 0, c);
    assert b[offset..|c|] == c[offset..];
    assert Put(Zeros(length), 0, b[offset..|c|]) == c[offset..] + Zeros(length - (|c| - offset));
  }

  /** The split-case loop never writes before its pointer. */
  lemma {:induction false} ReassembleKeepsPrefix(msg: seq<byte>, pointer: nat, left: int, chunks: seq<Chunk>, buf: seq<byte>,
                                                 loop: SplitLoop)
    requires |buf| == READ_BUFFER_SIZE && pointer <= |msg|
    ensures var r := Reassemble(msg, pointer, left, chunks, buf, loop);
      r.Ok? ==> forall i :: 0 <= i < pointer ==> r.value.0[i] == msg[i]
    decreases |chunks|
  {
    if left > 0 && chunks != [] && pointer + |chunks[0]| <= |msg| {
      var c := chunks[0];
      var next := Put(msg, pointer, c);
      var p := if loop == Advancing then pointer + |c| else pointer;
      ReassembleKeepsPrefix(next, p, left - |c|, chunks[1..], Put(buf, 0, c), loop);
      assert forall i :: 0 <= i < pointer ==> next[i] == msg[i];
    }
  }

  // ---- The split case as intended ----

  /** The bytes of several reads, one after the other. */
  function Concat(chunks: seq<Chunk>): seq<byte>
  {
    if chunks == [] then [] else chunks[0] + Concat(chunks[1..])
  }

  /** Started with the bytes still missing as what is left, the advancing loop completes
      the message from the next non-empty reads that carry exactly those bytes, and reads
      no further. */
  lemma {:induction false} AdvancingCompletes(msg: seq<byte>, pointer: nat, chunks: seq<Chunk>, k: nat, buf: seq<byte>)
    requires |buf| == READ_BUFFER_SIZE
    requires k <= |chunks| && pointer + |Concat(chunks[..k])| == |msg|
    requires forall i :: 0 <= i < k ==> |chunks[i]| > 0
    ensures var r := Reassemble(msg, pointer, |msg| - pointer, chunks, buf, Advancing);
      r.Ok? && r.value.0 == msg[..pointer] + Concat(chunks[..k]) && r.value.2 == chunks[k..]
    decreases k
  {
    if k == 0 {
      assert chunks[..0] == [] && chunks[0..] == chunks;
      assert Concat(chunks[..0]) == [];
      assert msg[..pointer] + Concat(chunks[..0]) == msg;
    } else {
      var c := chunks[0];
      var tail := chunks[1..];
      var next := Put(msg, pointer, c);
      var p := pointer + |c|;
      assert p + |Concat(tail[..k - 1])| == |next| by {
        ConcatFirst(chunks, k);
      }
      assert Reassemble(msg, pointer, |msg| - pointer, chunks, buf, Advancing)
          == Reassemble(next, p, |next| - p, tail, Put(buf, 0, c), Advancing);
      assert forall i :: 0 <= i < k - 1 ==> |tail[i]| > 0 by {
        forall i | 0 <= i < k - 1 ensures |tail[i]| > 0 {
          assert tail[i] == chunks[i + 1];
        }
      }
      AdvancingCompletes(next, p, tail, k - 1, Put(buf, 0, c));
      assert next[..p] + Concat(tail[..k - 1]) == msg[..pointer] + Concat(chunks[..k]) by {
        ConcatFirst(chunks, k);
        assert next[..p] == msg[..pointer] + c;
      }
      assert tail[k - 1..] == chunks[k..];
    }
  }

  /** The bytes of the first k reads are the first read's followed by the next k - 1. */
  lemma ConcatFirst(chunks: seq<Chunk>, k: nat)
    requires 0 < k <= |chunks|
    ensures Concat(chunks[..k]) == chunks[0] + Concat(chunks[1..][..k - 1])
  {
    assert chunks[..k][0] == chunks[0] && chunks[..k][1..] == chunks[1..][..k - 1];
  }

  /** With the advancing loop, a frame split over several reads, the first holding at
      least its header and the next `k` non-empty ones the rest of it, is delivered as the
      message that was sent, and reading stops after the frame. */
  lemma SplitFrameReadBack(m: Payload, buf: seq<byte>, chunks: seq<Chunk>, k: nat)
    requires |m| % 4 == 0 && |m| != 4 && |m| < 4 * 0x100_0000
    requires |buf| == READ_BUFFER_SIZE
    requires k < |chunks| && Concat(chunks[..k + 1]) == Framed(m)
    requires |SendHeader(|m|)| <= |chunks[0]| < |Framed(m)|
    requires forall i :: 1 <= i <= k ==> |chunks[i]| > 0
    ensures var r := ReadMessage(buf, chunks, Advancing);
      r.Ok? && r.value.0 == Some(m) && r.value.2 == chunks[k + 1..]
  {
    var c := chunks[0];
    var h := SendHeader(|m|);
    var tail := chunks[1..];
    var x := Concat(tail[..k]);
    assert Framed(m) == c + x by {
      ConcatFirst(chunks, k + 1);
    }
    FrameHeaderRead(m, buf, c, x);
    SplitStart(buf, chunks, Advancing, |m|, |h|);
    var msg0 := c[|h|..] + Zeros(|m| - (|c| - |h|));
    var pointer := |c| - |h|;
    var e := Reassemble(msg0, pointer, |msg0| - pointer, tail, Put(buf, 0, c), Advancing);
    assert ReadMessage(buf, chunks, Advancing) == Reassembled(e);
    assert forall i :: 0 <= i < k ==> |tail[i]| > 0 by {
      forall i | 0 <= i < k ensures |tail[i]| > 0 {
        assert tail[i] == chunks[i + 1];
      }
    }
    AdvancingCompletes(msg0, pointer, tail, k, Put(buf, 0, c));
    assert msg0[..pointer] == c[|h|..];
    FrameRest(h, m, c, x);
    assert tail[k..] == chunks[k + 1..];
  }

  /** What follows the header in a frame's first read, followed by the later reads, is the
      message. */
  lemma FrameRest(h: seq<byte>, m: seq<byte>, c: seq<byte>, x: seq<byte>)
    requires h + m == c + x && |h| <= |c|
    ensures c[|h|..] + x == m
  {
    assert c[|h|..] + x == (c + x)[|h|..];
    assert (h + m)[|h|..] == m;
  }

  /** A first read that starts a frame and holds at least its header declares the frame's
      message length and header size. */
  lemma FrameHeaderRead(m: Payload, buf: seq<byte>, c: Chunk, more: seq<byte>)
    requires |m| % 4 == 0 && |m| != 4 && |m| < 4 * 0x100_0000
    requires |buf| == READ_BUFFER_SIZE && Framed(m) == c + more && |SendHeader(|m|)| <= |c|
    ensures DecodeHeader(Put(buf, 0, c)[..4]) == (|m|, |SendHeader(|m|)|)
  {
    var h := SendHeader(|m|);
    var b := Put(buf, 0, c);
    assert Framed(m) == h + m;
    assert b[..|h|] == h by {
      assert b[..|c|] == c;
      assert c[..|h|] == (c + more)[..|h|];
    }
    assert b[..4] == h + b[|h|..4];
    HeaderRoundTrip(|m|, b[|h|..4]);
  }

  /** As written, an eight-byte message framed as [2, 1, ..., 8] and read as [2, 1], then
      [2, 3], then [4, 5, 6, 7, 8] arrives as [1, 4, 5, 6, 7, 8, 0, 0]: the third read
      overwrites the second, and reading stops two bytes short. The advancing loop
      delivers [1, ..., 8]. */
  lemma SplitLosesData(buf: seq<byte>)
    requires |buf| == READ_BUFFER_SIZE
    ensures var chunks: seq<Chunk> := [[2, 1], [2, 3], [4, 5, 6, 7, 8]];
      && Framed([1, 2, 3, 4, 5, 6, 7, 8]) == [2, 1, 2, 3, 4, 5, 6, 7, 8]
      && ReadMessage(buf, chunks, AsWritten).Ok?
      && ReadMessage(buf, chunks, AsWritten).value.0 == Some([1, 4, 5, 6, 7, 8, 0, 0])
      && ReadMessage(buf, chunks, Advancing).Ok?
      && ReadMessage(buf, chunks, Advancing).value.0 == Some([1, 2, 3, 4, 5, 6, 7, 8])
  {
    var chunks: seq<Chunk> := [[2, 1], [2, 3], [4, 5, 6, 7, 8]];
    var m: Payload := [1, 2, 3, 4, 5, 6, 7, 8];
    assert Framed(m) == [2, 1, 2, 3, 4, 5, 6, 7, 8] by {
      assert SendHeader(8) == [2];
    }
    assert ReadMessage(buf, chunks, AsWritten).Ok? && ReadMessage(buf, chunks, AsWritten).value.0 == Some([1, 4, 5, 6, 7, 8, 0, 0]) by {
      SplitExampleRead(buf, chunks);
    }
    assert ReadMessage(buf, chunks, Advancing).Ok? && ReadMessage(buf, chunks, Advancing).value.0 == Some(m) by {
      SplitExampleFrame(chunks, m);
      SplitFrameReadBack(m, buf, chunks, 2);
    }
  }

  /** The reads of SplitLosesData carry its frame. */
  lemma SplitExampleFrame(chunks: seq<Chunk>, m: Payload)
    requires chunks == [[2, 1], [2, 3], [4, 5, 6, 7, 8]] && m == [1, 2, 3, 4, 5, 6, 7, 8]
    ensures Concat(chunks[..3]) == Framed(m) && |SendHeader(|m|)| == 1
  {
    assert SendHeader(8) == [2];
    assert chunks[..3] == chunks;
    assert Concat(chunks[2..]) == [4, 5, 6, 7, 8] by {
      assert chunks[2..][1..] == [];
    }
    assert Concat(chunks[1..]) == [2, 3] + [4, 5, 6, 7, 8] by {
      assert chunks[1..][1..] == chunks[2..];
    }
  }

  /** The reads of SplitLosesData, as written. */
  lemma SplitExampleRead(buf: seq<byte>, chunks: seq<Chunk>)
    requires |buf| == READ_BUFFER_SIZE && chunks == [[2, 1], [2, 3], [4, 5, 6, 7, 8]]
    ensures ReadMessage(buf, chunks, AsWritten).Ok? && ReadMessage(buf, chunks, AsWritten).value.0 == Some([1, 4, 5, 6, 7, 8, 0, 0])
  {
    var b1 := Put(buf, 0, chunks[0]);
    assert b1[0] == 2;
    assert DecodeHeader(b1[..4]) == (8, 1);
    SplitStart(buf, chunks, AsWritten, 8, 1);
    var start := chunks[0][1..] + Zeros(7);
    assert start == [1, 0, 0, 0, 0, 0, 0, 0];
    var rest := chunks[1..];
    assert rest == [[2, 3], [4, 5, 6, 7, 8]];
    assert ReadMessage(buf, chunks, AsWritten) == Reassembled(Reassemble(start, 1, 5, rest, b1, AsWritten));
    SplitExampleAsWritten(b1, rest);
  }

  /** The reads after the first in SplitLosesData, as written. */
  lemma SplitExampleAsWritten(b1: seq<byte>, chunks: seq<Chunk>)
    requires |b1| == READ_BUFFER_SIZE && chunks == [[2, 3], [4, 5, 6, 7, 8]]
    ensures var r := Reassemble([1, 0, 0, 0, 0, 0, 0, 0], 1, 5, chunks, b1, AsWritten);
      r.Ok? && r.value.0 == [1, 4, 5, 6, 7, 8, 0, 0]
  {
    var msg1: seq<byte> := [1, 0, 0, 0, 0, 0, 0, 0];
    var msg2: seq<byte> := [1, 2, 3, 0, 0, 0, 0, 0];
    var msg3: seq<byte> := [1, 4, 5, 6, 7, 8, 0, 0];
    var b2 := Put(b1, 0, chunks[0]);
    var b3 := Put(b2, 0, chunks[1]);
    assert Put(msg1, 1, chunks[0]) == msg2;
    assert Put(msg2, 1, chunks[1]) == msg3;
    assert Reassemble(msg3, 1, -2, chunks[2..], b3, AsWritten) == Ok((msg3, b3, chunks[2..]));
    assert Reassemble(msg2, 1, 3, chunks[1..], b2, AsWritten) == Ok((msg3, b3, chunks[2..]));
  }

  // ---- The connection ----

  /** Writing `d` into `a` from index `at` (Memory.CopyTo into a slice). */
  method Store(a: array<byte>, at: nat, d: seq<byte>)
    requires at + |d| <= a.Length
    modifies a
    ensures a[..] == Put(old(a[..]), at, d)
  {
    forall i | 0 <= i < |d| {
      a[at + i] := d[i];
    }
    assert a[..] == Put(old(a[..]), at, d);
  }

  class Connection {
    const dc: int
    /** The write channel. */
    var outbound: seq<Payload>
    /** The bytes written to the network stream. */
    var sent: seq<byte>
    /** What successive reads of the network stream return. */
    var incoming: seq<Chunk>
    /** The read channel. */
    var inbound: seq<seq<byte>>

    constructor (dc: int, incoming: seq<Chunk>)
      ensures this.dc == dc && this.incoming == incoming
      ensures outbound == [] && sent == [] && inbound == []
    {
      this.dc := dc;
      this.incoming := incoming;
      outbound := [];
      sent := [];
      inbound := [];
    }

    /** Write: queues a message on the write channel. */
    method Write(data: Payload)
      modifies this
      ensures outbound == old(outbound) + [data]
      ensures sent == old(sent) && incoming == old(incoming) && inbound == old(inbound)
    {
      outbound := outbound + [data];
    }

    /** WriteLoop, run until the write channel is empty: each message goes out framed. */
    method WriteLoop()
      modifies this
      ensures sent == old(sent) + Sent(old(outbound)) && outbound == []
      ensures incoming == old(incoming) && inbound == old(inbound)
    {
      ghost var total := sent + Sent(outbound);
      while outbound != []
        invariant sent + Sent(outbound) == total
        invariant incoming == old(incoming) && inbound == old(inbound)
        decreases |outbound|
      {
        var message := outbound[0];
        ghost var prev := sent;
        SentStep(sent, outbound, total);
        outbound := outbound[1..];
        if |message| == 1 && message[0] == MARKER {
          sent := sent + message;
        } else {
          var header := SendHeader(|message|);
          sent := sent + header + message;
          assert sent == prev + (header + message);
        }
        assert sent == prev + Framed(message);
      }
    }

    /** ReadLoop, run until the reads are exhausted or an exception ends it: the messages
        it delivers are appended to the read channel. The source's loop is
        `ReadLoop(AsWritten)`; `ReadLoop(Advancing)` runs the corrected split case. */
    method ReadLoop(loop: SplitLoop) returns (r: Result<()>)
      modifies this
      ensures var e := ReadAll(Zeros(READ_BUFFER_SIZE), old(incoming), loop);
        inbound == old(inbound) + e.0 && r == e.1
      ensures outbound == old(outbound) && sent == old(sent)
    {
      var buffer := new byte[READ_BUFFER_SIZE](_ => 0);
      assert buffer[..] == Zeros(READ_BUFFER_SIZE);
      ghost var want := old(inbound) + ReadAll(buffer[..], incoming, loop).0;
      ghost var ending := ReadAll(buffer[..], incoming, loop).1;
      while incoming != []
        invariant buffer.Length == READ_BUFFER_SIZE
        invariant inbound + ReadAll(buffer[..], incoming, loop).0 == want
        invariant ReadAll(buffer[..], incoming, loop).1 == ending
        invariant outbound == old(outbound) && sent == old(sent)
        decreases |incoming|
      {
        ghost var b0 := buffer[..];
        ghost var i0 := incoming;
        ghost var inb0 := inbound;
        DeliverStep(inbound, b0, i0, loop, want);
        var m := ReceiveOne(buffer, loop);
        if m.Err? {
          return Err(m.error);
        }
        if m.value.Some? {
          inbound := inbound + [m.value.value];
        }
        assert inbound == inb0 + Delivered(m.value);
      }
      r := Ok(());
    }

    /** One round of ReadLoop's loop, up to the message it delivers. */
    method ReceiveOne(buffer: array<byte>, loop: SplitLoop) returns (r: Result<Option<seq<byte>>>)
      requires buffer.Length == READ_BUFFER_SIZE && incoming != []
      modifies this, buffer
      ensures var e := ReadMessage(old(buffer[..]), old(incoming), loop);
        && (r.Ok? <==> e.Ok?)
        && (r.Err? ==> r.error == e.error)
        && (r.Ok? ==> r.value == e.value.0 && buffer[..] == e.value.1 && incoming == e.value.2)
      ensures outbound == old(outbound) && sent == old(sent) && inbound == old(inbound)
    {
      var readed := incoming[0];
      Store(buffer, 0, readed);
      incoming := incoming[1..];
      if |readed| == 0 {
        return Ok(None);
      }
      r := Unframe(buffer, |readed|, loop);
    }

    /** The rest of the round, once a non-empty read of `readedCount` bytes is in the
        buffer: the header, then the error, split or whole case. */
    method Unframe(buffer: array<byte>, readedCount: nat, loop: SplitLoop) returns (r: Result<Option<seq<byte>>>)
      requires buffer.Length == READ_BUFFER_SIZE && 0 < readedCount <= READ_BUFFER_SIZE
      modifies this, buffer
      ensures var e := Unframed(old(buffer[..]), readedCount, old(incoming), loop);
        && (r.Ok? <==> e.Ok?)
        && (r.Err? ==> r.error == e.error)
        && (r.Ok? ==> r.value == e.value.0 && buffer[..] == e.value.1 && incoming == e.value.2)
      ensures outbound == old(outbound) && sent == old(sent) && inbound == old(inbound)
    {
      var b := buffer[..];
      ghost var chunks := incoming;
      ghost var e := Unframed(b, readedCount, chunks, loop);
      var messageLength := DecodeHeader(b[..4]).0;
      var messageOffset := DecodeHeader(b[..4]).1;
      var messageMemory := new byte[messageLength](_ => 0);
      assert messageMemory[..] == Zeros(messageLength);
      if messageLength == 4 {
        if DecodeI32(b[messageOffset..messageOffset + 4]) == -TWO_31 {
          assert e == Err(OverflowError);
          return Err(OverflowError);
        }
        assert e == Ok((Some(Zeros(4)), b, chunks));
        r := Ok(Some(messageMemory[..]));
        assert buffer[..] == b;
      } else if messageLength > readedCount - messageOffset {
        if readedCount < messageOffset {
          assert e == Err(OutOfRange);
          return Err(OutOfRange);
        }
        var first := b[messageOffset..readedCount];
        var pointer := readedCount - messageOffset;
        var leftToRead := if loop == AsWritten then messageLength - readedCount - messageOffset
          else messageLength - (readedCount - messageOffset);
        ghost var rest := Reassembled(Reassemble(Put(Zeros(messageLength), 0, first), pointer, leftToRead, chunks, b, loop));
        assert e == rest;
        assert buffer[..] == b && messageMemory[..] == Zeros(messageLength);
        r := ReceiveRest(buffer, messageMemory, first, pointer, leftToRead, loop, rest);
      } else {
        var data := b[messageOffset..messageOffset + messageLength];
        assert e == Ok((Some(data), b, chunks));
        Store(messageMemory, 0, data);
        assert messageMemory[..] == data;
        r := Ok(Some(messageMemory[..]));
        assert buffer[..] == b;
      }
    }

    /** The split case: the first read's bytes after the header start the message, and
        the loop fills in the rest. */
    method ReceiveRest(buffer: array<byte>, messageMemory: array<byte>, first: seq<byte>, pointer: nat, leftToRead: int,
                       loop: SplitLoop, ghost e: Result<(Option<seq<byte>>, seq<byte>, seq<Chunk>)>)
      returns (r: Result<Option<seq<byte>>>)
      requires buffer.Length == READ_BUFFER_SIZE && buffer != messageMemory && pointer == |first| <= messageMemory.Length
      requires e == Reassembled(Reassemble(Put(messageMemory[..], 0, first), pointer, leftToRead, incoming, buffer[..], loop))
      modifies this, buffer, messageMemory
      ensures (r.Ok? <==> e.Ok?) && (r.Err? ==> r.error == e.error)
      ensures r.Ok? ==> r.value == e.value.0 && buffer[..] == e.value.1 && incoming == e.value.2
      ensures outbound == old(outbound) && sent == old(sent) && inbound == old(inbound)
    {
      Store(messageMemory, 0, first);
      var done := FillMessage(buffer, messageMemory, pointer, leftToRead, loop);
      if done.Err? {
        return Err(done.error);
      }
      r := Ok(Some(messageMemory[..]));
    }

    /** The split case's loop: reads into the buffer and copies each read to the message
        at the pointer until `leftToRead` is no longer positive. As written the pointer
        stays where it is; the advancing loop moves it past each read. */
    method FillMessage(buffer: array<byte>, messageMemory: array<byte>, pointer: nat, leftToRead: int, loop: SplitLoop) returns (r: Result<()>)
      requires buffer.Length == READ_BUFFER_SIZE && buffer != messageMemory
      modifies this, buffer, messageMemory
      ensures var e := Reassemble(old(messageMemory[..]), pointer, leftToRead, old(incoming), old(buffer[..]), loop);
        && (r.Ok? <==> e.Ok?)
        && (r.Err? ==> r.error == e.error)
        && (r.Ok? ==> messageMemory[..] == e.value.0 && buffer[..] == e.value.1 && incoming == e.value.2)
      ensures outbound == old(outbound) && sent == old(sent) && inbound == old(inbound)
    {
      ghost var e := Reassemble(messageMemory[..], pointer, leftToRead, incoming, buffer[..], loop);
      var at: nat := pointer;
      var left := leftToRead;
      while left > 0
        invariant Reassemble(messageMemory[..], at, left, incoming, buffer[..], loop) == e
        invariant outbound == old(outbound) && sent == old(sent) && inbound == old(inbound)
        decreases |incoming|
      {
        if incoming == [] {
          return Err(EndOfStream);
        }
        var readed := incoming[0];
        Store(buffer, 0, readed);
        incoming := incoming[1..];
        if at + |readed| > messageMemory.Length {
          return Err(OutOfRange);
        }
        Store(messageMemory, at, readed);
        if loop == Advancing {
          at := at + |readed|;
        }
        left := left - |readed|;
      }
      r := Ok(());
    }
  }

  /** The constructor: the address lookup fails for every dc but 2; the socket is opened
      (not modelled) and the marker is queued as the first message. */
  method Connect(dc: int, incoming: seq<Chunk>) returns (r: Result<Connection>)
    ensures r.Ok? <==> dc in DATA_CENTERS
    ensures r.Err? ==> r.error == KeyNotFound
    ensures r.Ok? ==> fresh(r.value) && r.value.dc == dc && r.value.incoming == incoming
    ensures r.Ok? ==> r.value.outbound == [[MARKER]] && r.value.sent == [] && r.value.inbound == []
  {
    if dc !in DATA_CENTERS {
      return Err(KeyNotFound);
    }
    var c := new Connection(dc, incoming);
    c.Write([MARKER]);
    r := Ok(c);
  }
}
