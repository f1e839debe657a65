/** Bytes, fixed-width integers and their little- and big-endian encodings,
    as .NET's BinaryReader, BinaryWriter, BitConverter and BigInteger use them. */
module Bytes {

  type byte = b: int | 0 <= b < 256

  const TWO_31: int := 0x8000_0000
  const TWO_32: int := 0x1_0000_0000
  const TWO_63: int := 0x8000_0000_0000_0000
  const TWO_64: int := 0x1_0000_0000_0000_0000

  type uint32 = x: int | 0 <= x < 0x1_0000_0000
  type int32 = x: int | -0x8000_0000 <= x < 0x8000_0000
  type int64 = x: int | -0x8000_0000_0000_0000 <= x < 0x8000_0000_0000_0000

  function Pow256(n: nat): (r: nat)
    ensures r >= 1
  {
    if n == 0 then 1 else 256 * Pow256(n - 1)
  }

  lemma Pow256Values()
    ensures Pow256(1) == 256 && Pow256(3) == 0x100_0000
    ensures Pow256(4) == TWO_32 && Pow256(8) == TWO_64
  {
    assert Pow256(2) == 0x1_0000;
    assert Pow256(4) == 0x1_0000 * 0x1_0000;
    assert Pow256(8) == TWO_32 * TWO_32 by { assert Pow256(8) == 256 * 256 * 256 * 256 * Pow256(4); }
  }

  /** Two's-complement reinterpretation of the low 32 / 64 bits of `x`:
      what an unchecked C# cast or wrapping arithmetic produces. */
  function Wrap32(x: int): (r: int32)
    ensures (r - x) % TWO_32 == 0
  {
    var u := x % TWO_32;
    if u >= TWO_31 then u - TWO_32 else u
  }

  function Wrap64(x: int): (r: int64)
    ensures (r - x) % TWO_64 == 0
  {
    var u := x % TWO_64;
    if u >= TWO_63 then u - TWO_64 else u
  }

  lemma Wrap64Identity(x: int)
    requires -TWO_63 <= x < TWO_63
    ensures Wrap64(x) == x
  {
  }

  /** The low `n` bytes of `v`, least significant first. */
  function LE(v: nat, n: nat): (r: seq<byte>)
    ensures |r| == n
  {
    if n == 0 then [] else [v % 256] + LE(v / 256, n - 1)
  }

  /** The unsigned number whose little-endian bytes are `s`. */
  function FromLE(s: seq<byte>): (r: nat)
    ensures r < Pow256(|s|)
  {
    if s == [] then 0 else s[0] + 256 * FromLE(s[1..])
  }

  lemma {:induction false} FromLEOfLE(v: nat, n: nat)
    requires v < Pow256(n)
    ensures FromLE(LE(v, n)) == v
  {
    if n > 0 {
      FromLEOfLE(v / 256, n - 1);
      assert LE(v, n)[1..] == LE(v / 256, n - 1);
    }
  }

  lemma {:induction false} LEOfFromLE(s: seq<byte>)
    ensures LE(FromLE(s), |s|) == s
  {
    if s != [] {
      LEOfFromLE(s[1..]);
      assert (s[0] + 256 * FromLE(s[1..])) / 256 == FromLE(s[1..]);
    }
  }

  /** BinaryWriter.Write for uint, int and long: little-endian two's complement. */
  function EncodeU32(v: uint32): (r: seq<byte>)
    ensures |r| == 4
  {
    LE(v, 4)
  }

  function EncodeI32(v: int32): (r: seq<byte>)
    ensures |r| == 4
  {
    LE(v % TWO_32, 4)
  }

  function EncodeI64(v: int64): (r: seq<byte>)
    ensures |r| == 8
  {
    LE(v % TWO_64, 8)
  }

  /** BinaryReader.ReadUInt32 / ReadInt32 / ReadInt64 over exactly the bytes read. */
  function DecodeU32(s: seq<byte>): (r: uint32)
    requires |s| == 4
  {
    Pow256Values();
    FromLE(s)
  }

  function DecodeI32(s: seq<byte>): (r: int32)
    requires |s| == 4
  {
    Wrap32(FromLE(s))
  }

  function DecodeI64(s: seq<byte>): (r: int64)
    requires |s| == 8
  {
    Wrap64(FromLE(s))
  }

  lemma U32RoundTrip(v: uint32)
    ensures DecodeU32(EncodeU32(v)) == v
  {
    Pow256Values();
    FromLEOfLE(v, 4);
  }

  lemma I32RoundTrip(v: int32)
    ensures DecodeI32(EncodeI32(v)) == v
  {
    Pow256Values();
    FromLEOfLE(v % TWO_32, 4);
  }

  lemma I64RoundTrip(v: int64)
    ensures DecodeI64(EncodeI64(v)) == v
  {
    Pow256Values();
    FromLEOfLE(v % TWO_64, 8);
  }

  /** Eight bytes read as a long and written back are the same eight bytes. */
  lemma I64BytesRoundTrip(s: seq<byte>)
    requires |s| == 8
    ensures EncodeI64(DecodeI64(s)) == s
  {
    Pow256Values();
    var x := FromLE(s);
    assert DecodeI64(s) % TWO_64 == x;
    LEOfFromLE(s);
  }

  /** A uint32 and an int32 decoded from the same four bytes agree modulo 2^32. */
  lemma DecodeSignedUnsignedAgree(s: seq<byte>)
    requires |s| == 4
    ensures DecodeI32(s) % TWO_32 == DecodeU32(s)
  {
    Pow256Values();
  }

  function Pow2(k: nat): (r: nat)
    ensures r >= 1
  {
    if k == 0 then 1 else 2 * Pow2(k - 1)
  }

  /** Exclusive or of the low `k` bits of `a` and `b`, bit by bit. */
  function XorBits(a: nat, b: nat, k: nat): (r: nat)
    ensures r < Pow2(k)
  {
    if k == 0 then 0
    else (if a % 2 != b % 2 then 1 else 0) + 2 * XorBits(a / 2, b / 2, k - 1)
  }

  lemma {:induction false} XorBitsCancel(a: nat, b: nat, k: nat)
    requires a < Pow2(k)
    ensures XorBits(XorBits(a, b, k), b, k) == a
  {
    if k > 0 {
      var x := XorBits(a, b, k);
      XorBitsCancel(a / 2, b / 2, k - 1);
      assert x / 2 == XorBits(a / 2, b / 2, k - 1);
      assert x % 2 == (if a % 2 != b % 2 then 1 else 0);
    }
  }

  function Xor(a: byte, b: byte): byte
  {
    assert Pow2(8) == 256;
    XorBits(a, b, 8)
  }

  lemma XorCancel(a: byte, b: byte)
    ensures Xor(Xor(a, b), b) == a
  {
    assert Pow2(8) == 256;
    XorBitsCancel(a, b, 8);
  }

  /** Byte-wise exclusive or of two equally long sequences. */
  function XorSeq(a: seq<byte>, b: seq<byte>): (r: seq<byte>)
    requires |a| == |b|
    ensures |r| == |a|
  {
    seq(|a|, i requires 0 <= i < |a| => Xor(a[i], b[i]))
  }

  lemma XorSeqCancel(a: seq<byte>, b: seq<byte>)
    requires |a| == |b|
    ensures XorSeq(XorSeq(a, b), b) == a
  {
    forall i | 0 <= i < |a| ensures XorSeq(XorSeq(a, b), b)[i] == a[i] {
      XorCancel(a[i], b[i]);
    }
  }

  function Zeros(n: nat): (r: seq<byte>)
    ensures |r| == n && forall i :: 0 <= i < n ==> r[i] == 0
  {
    seq(n, _ => 0)
  }

  /** The unsigned number whose big-endian bytes are `s`. */
  function FromBE(s: seq<byte>): (r: nat)
    ensures r < Pow256(|s|)
  {
    if s == [] then 0 else FromBE(s[..|s| - 1]) * 256 + s[|s| - 1]
  }

  /** `new BigInteger(s, isBigEndian: true)`: big-endian two's complement; no bytes is zero. */
  function FromSignedBE(s: seq<byte>): int
  {
    if s == [] then 0
    else if s[0] >= 128 then FromBE(s) - Pow256(|s|)
    else FromBE(s)
  }

  /** `n.ToByteArray(isUnsigned: true, isBigEndian: true)`: the shortest big-endian
      bytes of `n`, a single zero byte for zero. */
  function ToBE(n: nat): (r: seq<byte>)
    ensures |r| >= 1
  {
    if n < 256 then [n] else ToBE(n / 256) + [n % 256]
  }

  lemma {:induction false} FromBEOfToBE(n: nat)
    ensures FromBE(ToBE(n)) == n
  {
    if n >= 256 {
      FromBEOfToBE(n / 256);
      var r := ToBE(n);
      assert r[..|r| - 1] == ToBE(n / 256);
    }
  }

  lemma {:induction false} ToBEMinimal(n: nat)
    ensures ToBE(n)[0] != 0 || n == 0
  {
    if n >= 256 {
      ToBEMinimal(n / 256);
    }
  }
}
