/** The TL wire primitives of TLObjectBase: little-endian words through a BinaryReader
    and a BinaryWriter over a memory stream, the two boolean sentinels, the vector
    marker, and the length-prefixed, 4-byte-aligned `bytes` encoding. */
module TLWire {
  import opened Wrappers
  import opened Bytes

  const BOOL_TRUE: uint32 := 0x997275b5
  const BOOL_FALSE: uint32 := 0xbc799737
  const VECTOR_MARKER: uint32 := 0x1cb5c415

  /** writeBool: the constructor id of boolTrue or of boolFalse. */
  function EncodeBool(b: bool): (r: seq<byte>)
    ensures |r| == 4
  {
    EncodeU32(if b then BOOL_TRUE else BOOL_FALSE)
  }

  /** readBool: only the boolTrue id reads as true; every other word reads as false. */
  function DecodeBool(w: uint32): bool
  {
    w == BOOL_TRUE
  }

  lemma BoolRoundTrip(b: bool)
    ensures DecodeBool(DecodeU32(EncodeBool(b))) == b
  {
    U32RoundTrip(if b then BOOL_TRUE else BOOL_FALSE);
  }

  // ---- The `bytes` encoding ----

  /** One length byte below 254, otherwise the byte 254 and three length bytes. */
  function HeaderLength(n: nat): nat
  {
    if n >= 254 then 4 else 1
  }

  /** The zero bytes that bring `start + n` up to a multiple of four. */
  function PadLength(n: nat, start: nat): (r: nat)
    ensures r < 4 && (start + n + r) % 4 == 0
  {
    var off := (n + start) % 4;
    if off != 0 then 4 - off else 0
  }

  /** The length prefix writeBytes emits; a length of 2^24 or more keeps only its low
      24 bits, as the masks `count & 0xFF`, `(count >> 8) & 0xFF`, `(count >> 16) & 0xFF` do. */
  function BytesHeader(n: nat): (r: seq<byte>)
    ensures |r| == HeaderLength(n)
  {
    if n >= 254 then [254, n % 256, (n / 256) % 256, (n / 0x1_0000) % 256] else [n]
  }

  /** writeBytes: prefix, payload, zero padding to a multiple of four bytes. */
  function EncodeBytes(v: seq<byte>): (r: seq<byte>)
    ensures |r| == HeaderLength(|v|) + |v| + PadLength(|v|, HeaderLength(|v|)) && |r| % 4 == 0
    ensures r[HeaderLength(|v|)..HeaderLength(|v|) + |v|] == v
    ensures forall i :: HeaderLength(|v|) + |v| <= i < |r| ==> r[i] == 0
  {
    var h := BytesHeader(|v|);
    var r := h + v + Zeros(PadLength(|v|, HeaderLength(|v|)));
    assert r[|h|..|h| + |v|] == v;
    r
  }

  /** estimateArray / estimateString of a payload of `n` units. */
  function EstimateArray(n: nat): nat
  {
    n + (if n >= 254 then 4 + (4 - (4 + n) % 4) % 4 else 1 + (4 - (1 + n) % 4) % 4)
  }

  /** The size estimate of a payload is exactly the length writeBytes produces. */
  lemma EstimateArrayExact(v: seq<byte>)
    ensures |EncodeBytes(v)| == EstimateArray(|v|)
  {
  }

  // ---- Reading from a position in a byte stream ----

  /** BinaryReader reading exactly `n` bytes, or EndOfStream. */
  function ReadFixed(data: seq<byte>, pos: nat, n: nat): (r: Result<(seq<byte>, nat)>)
    requires pos <= |data|
    ensures r.Ok? <==> pos + n <= |data|
    ensures r.Ok? ==> r.value.0 == data[pos..pos + n] && r.value.1 == pos + n
    ensures r.Err? ==> r.error == EndOfStream
  {
    if pos + n <= |data| then Ok((data[pos..pos + n], pos + n)) else Err(EndOfStream)
  }

  function ReadU32(data: seq<byte>, pos: nat): (r: Result<(uint32, nat)>)
    requires pos <= |data|
    ensures r.Ok? ==> r.value.1 == pos + 4 <= |data|
  {
    var b :- ReadFixed(data, pos, 4);
    Ok((DecodeU32(b.0), b.1))
  }

  function ReadI32(data: seq<byte>, pos: nat): (r: Result<(int32, nat)>)
    requires pos <= |data|
    ensures r.Ok? ==> r.value.1 == pos + 4 <= |data|
  {
    var b :- ReadFixed(data, pos, 4);
    Ok((DecodeI32(b.0), b.1))
  }

  function ReadI64(data: seq<byte>, pos: nat): (r: Result<(int64, nat)>)
    requires pos <= |data|
    ensures r.Ok? ==> r.value.1 == pos + 8 <= |data|
  {
    var b :- ReadFixed(data, pos, 8);
    Ok((DecodeI64(b.0), b.1))
  }

  /** BinaryReader.ReadBytes(n) and Read(buffer, 0, n) on a memory stream: as many of the
      next `n` bytes as there are, never an error. */
  function ReadAvailable(data: seq<byte>, pos: nat, n: nat): (r: (seq<byte>, nat))
    requires pos <= |data|
    ensures |r.0| <= n && r.1 == pos + |r.0| <= |data|
    ensures pos + n <= |data| ==> r.0 == data[pos..pos + n]
    ensures pos + n > |data| ==> r.1 == |data|
  {
    var m := if pos + n <= |data| then n else |data| - pos;
    (data[pos..pos + m], pos + m)
  }

  /** readBytes: the length prefix, `count` payload bytes (zero-filled where the stream
      ends early, since Read leaves the rest of the new array as it was), and the padding,
      skipped as far as the stream goes. Only a short prefix is an error. */
  function ParseBytes(data: seq<byte>, pos: nat): (r: Result<(seq<byte>, nat)>)
    requires pos <= |data|
    ensures r.Ok? ==> pos < r.value.1 <= |data|
    ensures r.Err? ==> r.error == EndOfStream
  {
    var h :- ReadFixed(data, pos, 1);
    var hd :- if h.0[0] >= 254 then
        (var t :- ReadFixed(data, h.1, 3);
         Ok((t.0[0] as int + 256 * t.0[1] as int + 0x1_0000 * t.0[2] as int, 4, t.1)))
      else Ok((h.0[0], 1, h.1));
    var count: nat, start, p := hd.0, hd.1, hd.2;
    var body := ReadAvailable(data, p, count);
    var pad := ReadAvailable(data, body.1, PadLength(count, start));
    Ok((body.0 + Zeros(count - |body.0|), pad.1))
  }

  lemma LongLength(n: nat)
    requires 254 <= n < 0x100_0000
    ensures n % 256 + 256 * ((n / 256) % 256) + 0x1_0000 * ((n / 0x1_0000) % 256) == n
  {
    var a, q := n % 256, n / 256;
    assert n == a + 256 * q;
    var b, c := q % 256, q / 256;
    assert q == b + 256 * c;
    assert c < 256;
    assert n / 0x1_0000 == c;
  }

  /** What writeBytes emits, readBytes takes back: the same payload, and the position
      just after the padding. Lengths from 2^24 up do not survive the three length bytes. */
  lemma BytesRoundTrip(v: seq<byte>, data: seq<byte>, pos: nat)
    requires |v| < 0x100_0000
    requires pos + |EncodeBytes(v)| <= |data| && data[pos..pos + |EncodeBytes(v)|] == EncodeBytes(v)
    ensures ParseBytes(data, pos).Ok?
    ensures ParseBytes(data, pos).value.0 == v
    ensures ParseBytes(data, pos).value.1 == pos + |EncodeBytes(v)|
  {
    HeaderBytesAt(v, data, pos);
    PayloadAt(v, data, pos);
  }

  /** The length prefix sits at `pos`: its first byte, and for a long payload the three
      length bytes, give back the payload's length. */
  lemma HeaderBytesAt(v: seq<byte>, data: seq<byte>, pos: nat)
    requires |v| < 0x100_0000
    requires pos + |EncodeBytes(v)| <= |data| && data[pos..pos + |EncodeBytes(v)|] == EncodeBytes(v)
    ensures |v| < 254 ==> data[pos] as int == |v|
    ensures |v| >= 254 ==>
      && data[pos] == 254 && pos + 4 <= |data|
      && data[pos + 1] as int + 256 * data[pos + 2] as int + 0x1_0000 * data[pos + 3] as int == |v|
  {
    var e, n := EncodeBytes(v), |v|;
    var h := BytesHeader(n);
    assert e == h + v + Zeros(PadLength(n, HeaderLength(n)));
    SliceWithin(data, pos, e, 0, |h|);
    assert e[..|h|] == h;
    var d := data[pos..pos + |h|];
    assert data[pos] == d[0] == h[0];
    if n >= 254 {
      assert data[pos + 1] == d[1] && data[pos + 2] == d[2] && data[pos + 3] == d[3];
      LongLength(n);
    }
  }

  /** The payload follows the prefix at `pos`, and the padding after it is in the stream. */
  lemma PayloadAt(v: seq<byte>, data: seq<byte>, pos: nat)
    requires pos + |EncodeBytes(v)| <= |data| && data[pos..pos + |EncodeBytes(v)|] == EncodeBytes(v)
    ensures var hl := HeaderLength(|v|);
      && pos + hl + |v| + PadLength(|v|, hl) == pos + |EncodeBytes(v)|
      && data[pos + hl..pos + hl + |v|] == v
  {
    var e, hl := EncodeBytes(v), HeaderLength(|v|);
    SliceWithin(data, pos, e, hl, hl + |v|);
  }

  /** A piece of what lies at `pos` lies at the matching offset of the stream. */
  lemma SliceWithin(data: seq<byte>, pos: nat, e: seq<byte>, i: nat, j: nat)
    requires pos + |e| <= |data| && data[pos..pos + |e|] == e && i <= j <= |e|
    ensures data[pos + i..pos + j] == e[i..j]
  {
    forall k | 0 <= k < j - i
      ensures data[pos + i..pos + j][k] == e[i..j][k]
    {
      assert data[pos + i..pos + j][k] == data[pos + i + k] == data[pos..pos + |e|][i + k];
    }
  }

  // ---- The stream objects ----

  /** A BinaryReader over a memory stream: fixed contents and a movable position. */
  class Reader {
    const data: seq<byte>
    var pos: nat

    ghost predicate Valid()
      reads this
    {
      pos <= |data|
    }

    constructor (data: seq<byte>)
      ensures this.data == data && pos == 0 && Valid()
    {
      this.data := data;
      pos := 0;
    }

    /** A read's result and the new position are those of the cursor-level read `spec`. */
    ghost predicate Agrees<T>(r: Result<T>, spec: Result<(T, nat)>)
      reads this
    {
      && (r.Ok? <==> spec.Ok?)
      && (spec.Ok? ==> r.value == spec.value.0 && pos == spec.value.1)
      && (spec.Err? ==> r.error == spec.error)
    }

    /** A failed read leaves the stream at its end, as a memory stream does. */
    method ReadExactly(n: nat) returns (r: Result<seq<byte>>)
      requires Valid()
      modifies this
      ensures Valid() && Agrees(r, ReadFixed(data, old(pos), n))
    {
      if pos + n <= |data| {
        r := Ok(data[pos..pos + n]);
        pos := pos + n;
      } else {
        pos := |data|;
        r := Err(EndOfStream);
      }
    }

    method ReadUInt32() returns (r: Result<uint32>)
      requires Valid()
      modifies this
      ensures Valid() && Agrees(r, ReadU32(data, old(pos)))
    {
      var b :- ReadExactly(4);
      r := Ok(DecodeU32(b));
    }

    method ReadInt32() returns (r: Result<int32>)
      requires Valid()
      modifies this
      ensures Valid() && Agrees(r, ReadI32(data, old(pos)))
    {
      var b :- ReadExactly(4);
      r := Ok(DecodeI32(b));
    }

    method ReadInt64() returns (r: Result<int64>)
      requires Valid()
      modifies this
      ensures Valid() && Agrees(r, ReadI64(data, old(pos)))
    {
      var b :- ReadExactly(8);
      r := Ok(DecodeI64(b));
    }

    method ReadAvailableBytes(n: nat) returns (b: seq<byte>)
      requires Valid()
      modifies this
      ensures Valid() && (b, pos) == ReadAvailable(data, old(pos), n)
    {
      var m := if pos + n <= |data| then n else |data| - pos;
      b := data[pos..pos + m];
      pos := pos + m;
    }

    /** Setting BaseStream.Position. */
    method Seek(p: nat)
      requires p <= |data|
      modifies this
      ensures pos == p && Valid()
    {
      pos := p;
    }
  }

  /** A BinaryWriter: everything written is appended to `out`. */
  class Writer {
    var out: seq<byte>

    constructor ()
      ensures out == []
    {
      out := [];
    }

    method Write(b: seq<byte>)
      modifies this
      ensures out == old(out) + b
    {
      out := out + b;
    }
  }

  /** readBytes on a reader. */
  method ReadTLBytes(r: Reader) returns (res: Result<seq<byte>>)
    requires r.Valid()
    modifies r
    ensures r.Valid() && r.Agrees(res, ParseBytes(r.data, old(r.pos)))
  {
    var h :- r.ReadExactly(1);
    var count: nat := h[0];
    var start := 1;
    if count >= 254 {
      var t :- r.ReadExactly(3);
      count := t[0] as int + 256 * t[1] as int + 0x1_0000 * t[2] as int;
      start := 4;
    }
    var body := r.ReadAvailableBytes(count);
    var raw := body + Zeros(count - |body|);
    var pad := r.ReadAvailableBytes(PadLength(count, start));
    res := Ok(raw);
  }

  /** writeBytes on a writer. */
  method WriteTLBytes(w: Writer, v: seq<byte>)
    modifies w
    ensures w.out == old(w.out) + EncodeBytes(v)
  {
    var count := |v|;
    var start := 1;
    if count >= 254 {
      start := 4;
      w.Write([254]);
      w.Write([count % 256]);
      w.Write([(count / 256) % 256]);
      w.Write([(count / 0x1_0000) % 256]);
    } else {
      w.Write([count]);
    }
    w.Write(v);
    var off := (count + start) % 4;
    if off != 0 {
      w.Write(Zeros(4 - off));
    }
  }
}
