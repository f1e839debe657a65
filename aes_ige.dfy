/** AES-256 in Infinite Garble Extension mode (Aes.cs): the chaining of AesEnc over an
    abstract block transform. A `Transform` stands for `aes.CreateEncryptor(key, null)`
    or `aes.CreateDecryptor(key, null)` applied to one 16-byte block in ECB mode without
    padding; which key it was made from is not visible to the chaining. */
module AesIge {
  import opened Wrappers
  import opened Bytes

  /** One 16-byte AES block. */
  type Block = b: seq<byte> | |b| == 16 witness seq(16, _ => 0)

  /** The AES block function under a fixed key. */
  type Transform = Block -> Block

  /** `iv.Take(16)`: at most the first 16 bytes. */
  function Take16(iv: seq<byte>): (r: seq<byte>)
    ensures |iv| >= 16 ==> r == iv[..16]
    ensures |iv| < 16 ==> r == iv
  {
    if |iv| >= 16 then iv[..16] else iv
  }

  /** `iv.Skip(16)`: everything after the first 16 bytes. */
  function Skip16(iv: seq<byte>): (r: seq<byte>)
    ensures |iv| >= 16 ==> r == iv[16..]
    ensures |iv| < 16 ==> r == []
  {
    if |iv| >= 16 then iv[16..] else []
  }

  // ---- The chain, as a value ----

  /** Block `i` of `s`. */
  function BlockAt(s: seq<byte>, i: nat): Block
    requires 16 * i + 16 <= |s|
  {
    s[16 * i..16 * i + 16]
  }

  /** The blocks laid end to end. */
  function Flatten(bs: seq<Block>): (r: seq<byte>)
    ensures |r| == 16 * |bs|
  {
    if bs == [] then [] else Flatten(bs[..|bs| - 1]) + bs[|bs| - 1]
  }

  /** One IGE step: y_i = f(x_i xor y_(i-1)) xor x_(i-1). */
  function Step(f: Transform, x: Block, yPrev: Block, xPrev: Block): Block
  {
    XorSeq(f(XorSeq(x, yPrev)), xPrev)
  }

  /** The first `n` output blocks of the IGE chain over `src`, where x_0 and y_0 are the
      two halves of the IV and every later step chains on the input block and the output
      block before it. */
  function Chain(src: seq<byte>, x0: Block, y0: Block, f: Transform, n: nat): (r: seq<Block>)
    requires 16 * n <= |src|
    ensures |r| == n
    decreases n
  {
    if n == 0 then []
    else
      var prev := Chain(src, x0, y0, f, n - 1);
      var yPrev := if n == 1 then y0 else prev[n - 2];
      var xPrev := if n == 1 then x0 else BlockAt(src, n - 2);
      prev + [Step(f, BlockAt(src, n - 1), yPrev, xPrev)]
  }

  /** What IGECrypter returns for a long enough input: the chain over every whole block
      and, past the last whole block, the zeros of the freshly allocated output. */
  function Ige(src: seq<byte>, x0: Block, y0: Block, f: Transform): (r: seq<byte>)
    ensures |r| == |src|
  {
    Flatten(Chain(src, x0, y0, f, |src| / 16)) + Zeros(|src| % 16)
  }

  /** Past the last whole block the output keeps the zeros it was allocated with. */
  lemma IgeTail(src: seq<byte>, x0: Block, y0: Block, f: Transform)
    ensures var r := Ige(src, x0, y0, f);
      forall k :: 16 * (|src| / 16) <= k < |src| ==> r[k] == 0
  {
  }

  /** AES256IGEEncrypt: x_0 is the second half of the IV and y_0 the first. The first
      block reads 16 bytes of the source and of y_0, and the chain reads 16 bytes of
      x_0, so a shorter source or IV is an index out of range. */
  function Encrypt(src: seq<byte>, iv: seq<byte>, f: Transform): (r: Result<seq<byte>>)
  {
    if |src| < 16 || |iv| < 32 then Err(OutOfRange)
    else Ok(Ige(src, iv[16..32], iv[..16], f))
  }

  /** AES256IGEDecrypt: the same chain with the IV halves swapped. */
  function Decrypt(src: seq<byte>, iv: seq<byte>, f: Transform): (r: Result<seq<byte>>)
  {
    if |src| < 16 || |iv| < 32 then Err(OutOfRange)
    else Ok(Ige(src, iv[..16], iv[16..32], f))
  }

  // ---- Properties of the chain ----

  /** Block `i` of the flattened blocks is the `i`-th block. */
  lemma {:induction false} FlattenBlock(bs: seq<Block>, i: nat)
    requires i < |bs|
    ensures BlockAt(Flatten(bs), i) == bs[i]
    decreases |bs|
  {
    var init := bs[..|bs| - 1];
    assert Flatten(bs) == Flatten(init) + bs[|bs| - 1];
    if i < |bs| - 1 {
      FlattenBlock(init, i);
      assert BlockAt(Flatten(bs), i) == BlockAt(Flatten(init), i);
    }
  }

  /** Flattening one more block appends its bytes. */
  lemma FlattenSnoc(bs: seq<Block>, b: Block)
    ensures Flatten(bs + [b]) == Flatten(bs) + b
  {
    assert (bs + [b])[..|bs|] == bs;
  }

  /** A byte sequence is the flattening of its blocks. */
  lemma {:induction false} FlattenBlocksOf(bs: seq<Block>, s: seq<byte>)
    requires |s| == 16 * |bs|
    requires forall i :: 0 <= i < |bs| ==> bs[i] == BlockAt(s, i)
    ensures Flatten(bs) == s
    decreases |bs|
  {
    if bs != [] {
      var n := |bs| - 1;
      FlattenBlocksOf(bs[..n], s[..16 * n]);
      assert s == s[..16 * n] + BlockAt(s, n);
    }
  }

  /** A longer chain extends a shorter one over the same input. */
  lemma {:induction false} ChainPrefix(src: seq<byte>, x0: Block, y0: Block, f: Transform, m: nat, n: nat)
    requires m <= n && 16 * n <= |src|
    ensures Chain(src, x0, y0, f, n)[..m] == Chain(src, x0, y0, f, m)
    decreases n
  {
    if m < n {
      ChainPrefix(src, x0, y0, f, m, n - 1);
    }
  }

  /** Block `i` of the chain: f(x_1 xor y_0) xor x_0 for the first, and for each later one
      f(x_i xor y_(i-1)) xor x_(i-1) on the input block and the output block before it. */
  lemma ChainAt(src: seq<byte>, x0: Block, y0: Block, f: Transform, i: nat, n: nat)
    requires i < n && 16 * n <= |src|
    ensures var c := Chain(src, x0, y0, f, n);
      c[i] == if i == 0 then Step(f, BlockAt(src, 0), y0, x0)
              else Step(f, BlockAt(src, i), c[i - 1], BlockAt(src, i - 1))
  {
    ChainPrefix(src, x0, y0, f, i + 1, n);
  }

  /** The chain grows by one step at a time. */
  lemma ChainStep(src: seq<byte>, x0: Block, y0: Block, f: Transform, i: nat)
    requires 1 <= i && 16 * i + 16 <= |src|
    ensures var c := Chain(src, x0, y0, f, i);
      Chain(src, x0, y0, f, i + 1) == c + [Step(f, BlockAt(src, i), c[i - 1], BlockAt(src, i - 1))]
  {
  }

  /** Appending the next step to the bytes of a chain gives the bytes of the longer chain. */
  lemma NextPrefix(src: seq<byte>, x0: Block, y0: Block, f: Transform, i: nat, before: seq<byte>, y: Block)
    requires 1 <= i && 16 * i + 16 <= |src|
    requires before == Flatten(Chain(src, x0, y0, f, i))
    requires y == Step(f, BlockAt(src, i), BlockAt(before, i - 1), BlockAt(src, i - 1))
    ensures before + y == Flatten(Chain(src, x0, y0, f, i + 1))
  {
    var c := Chain(src, x0, y0, f, i);
    FlattenBlock(c, i - 1);
    ChainStep(src, x0, y0, f, i);
    FlattenSnoc(c, y);
  }

  /** The first output block is f(x_1 xor y_0) xor x_0. */
  lemma FirstBlock(src: seq<byte>, x0: Block, y0: Block, f: Transform)
    requires |src| >= 16
    ensures BlockAt(Ige(src, x0, y0, f), 0) == XorSeq(f(XorSeq(BlockAt(src, 0), y0)), x0)
  {
    var c := Chain(src, x0, y0, f, |src| / 16);
    ChainAt(src, x0, y0, f, 0, |src| / 16);
    FlattenBlock(c, 0);
    assert BlockAt(Ige(src, x0, y0, f), 0) == BlockAt(Flatten(c), 0);
  }

  /** Every later output block is f(x_i xor y_(i-1)) xor x_(i-1): it chains on the output
      block before it and the input block before it. */
  lemma LaterBlock(src: seq<byte>, x0: Block, y0: Block, f: Transform, i: nat)
    requires 1 <= i < |src| / 16
    ensures var out := Ige(src, x0, y0, f);
      BlockAt(out, i) == XorSeq(f(XorSeq(BlockAt(src, i), BlockAt(out, i - 1))), BlockAt(src, i - 1))
  {
    var out := Ige(src, x0, y0, f);
    var c := Chain(src, x0, y0, f, |src| / 16);
    ChainAt(src, x0, y0, f, i, |src| / 16);
    FlattenBlock(c, i);
    FlattenBlock(c, i - 1);
    assert BlockAt(out, i) == BlockAt(Flatten(c), i);
    assert BlockAt(out, i - 1) == BlockAt(Flatten(c), i - 1);
  }

  /** The IGE output is the whole chain followed by the zeros past the last block. */
  lemma IgeOf(src: seq<byte>, x0: Block, y0: Block, f: Transform, n: nat)
    requires n == |src| / 16
    ensures Ige(src, x0, y0, f) == Flatten(Chain(src, x0, y0, f, n)) + Zeros(|src| - 16 * n)
  {
  }

  /** The buffer after the first step: the first block of the chain, then zeros. */
  lemma FirstStep(src: seq<byte>, x0: Block, y0: Block, f: Transform)
    requires 16 <= |src|
    ensures Splice(Zeros(|src|), 0, Step(f, BlockAt(src, 0), y0, x0))
         == Flatten(Chain(src, x0, y0, f, 1)) + Zeros(|src| - 16)
  {
    assert Chain(src, x0, y0, f, 1) == [Step(f, BlockAt(src, 0), y0, x0)];
  }

  /** The buffer after each later step: one more block of the chain, then zeros. */
  lemma LaterStep(src: seq<byte>, x0: Block, y0: Block, f: Transform, i: nat, out: seq<byte>)
    requires 1 <= i && 16 * i + 16 <= |src|
    requires out == Flatten(Chain(src, x0, y0, f, i)) + Zeros(|src| - 16 * i)
    ensures Splice(out, 16 * i, Step(f, BlockAt(src, i), BlockAt(out, i - 1), BlockAt(src, i - 1)))
         == Flatten(Chain(src, x0, y0, f, i + 1)) + Zeros(|src| - 16 * i - 16)
  {
    var before := Flatten(Chain(src, x0, y0, f, i));
    assert out[..16 * i] == before;
    assert BlockAt(out, i - 1) == BlockAt(before, i - 1);
    var y := Step(f, BlockAt(src, i), BlockAt(out, i - 1), BlockAt(src, i - 1));
    NextPrefix(src, x0, y0, f, i, before, y);
    assert out[16 * i + 16..] == Zeros(|src| - 16 * i - 16);
  }

  /** Undoing one step: chaining the output block again, with the roles of the previous
      input and output blocks swapped and the inverse block function, gives the input
      block back. */
  lemma StepInverse(f: Transform, g: Transform, x: Block, yPrev: Block, xPrev: Block)
    requires forall blk: Block :: g(f(blk)) == blk
    ensures Step(g, Step(f, x, yPrev, xPrev), xPrev, yPrev) == x
  {
    XorSeqCancel(f(XorSeq(x, yPrev)), xPrev);
    XorSeqCancel(x, yPrev);
  }

  /** Block `i` of the input comes back when the encryption of a whole number of blocks
      is chained again with the IV halves swapped and the inverse block function. */
  lemma {:induction false} ChainInverse(p: seq<byte>, a: Block, b: Block, f: Transform, g: Transform, i: nat)
    requires forall blk: Block :: g(f(blk)) == blk
    requires |p| % 16 == 0 && i < |p| / 16
    ensures var c := Flatten(Chain(p, a, b, f, |p| / 16));
      Chain(c, b, a, g, |p| / 16)[i] == BlockAt(p, i)
    decreases i
  {
    var N := |p| / 16;
    var e := Chain(p, a, b, f, N);
    var c := Flatten(e);
    ChainAt(p, a, b, f, i, N);
    ChainAt(c, b, a, g, i, N);
    FlattenBlock(e, i);
    if i == 0 {
      StepInverse(f, g, BlockAt(p, 0), b, a);
    } else {
      ChainInverse(p, a, b, f, g, i - 1);
      FlattenBlock(e, i - 1);
      StepInverse(f, g, BlockAt(p, i), e[i - 1], BlockAt(p, i - 1));
    }
  }

  /** On a whole number of blocks nothing is left over for the zero tail. */
  lemma IgeWhole(src: seq<byte>, x0: Block, y0: Block, f: Transform, n: nat)
    requires |src| == 16 * n
    ensures Ige(src, x0, y0, f) == Flatten(Chain(src, x0, y0, f, n))
  {
    assert |src| / 16 == n && |src| % 16 == 0;
  }

  /** Decryption undoes encryption under the same IV when the decrypting block function
      inverts the encrypting one and the input is a whole number of blocks. */
  lemma DecryptEncrypt(p: seq<byte>, iv: seq<byte>, f: Transform, g: Transform)
    requires forall blk: Block :: g(f(blk)) == blk
    requires |p| >= 16 && |p| % 16 == 0 && |iv| >= 32
    ensures Encrypt(p, iv, f).Ok?
    ensures Decrypt(Encrypt(p, iv, f).value, iv, g) == Ok(p)
  {
    var a: Block, b: Block := iv[16..32], iv[..16];
    var N := |p| / 16;
    var c := Flatten(Chain(p, a, b, f, N));
    IgeWhole(p, a, b, f, N);
    IgeWhole(c, b, a, g, N);
    forall i | 0 <= i < N ensures Chain(c, b, a, g, N)[i] == BlockAt(p, i) {
      ChainInverse(p, a, b, f, g, i);
    }
    FlattenBlocksOf(Chain(c, b, a, g, N), p);
  }

  // ---- The in-place loops ----

  /** `a` with the block at `offset` replaced by `blk`. */
  function Splice(a: seq<byte>, offset: nat, blk: Block): (r: seq<byte>)
    requires offset + 16 <= |a|
    ensures |r| == |a|
  {
    a[..offset] + blk + a[offset + 16..]
  }

  /** The spliced block reads back. */
  lemma SpliceBlock(a: seq<byte>, offset: nat, blk: Block)
    requires offset + 16 <= |a|
    ensures Splice(a, offset, blk)[offset..offset + 16] == blk
  {
  }

  /** Splicing the same block twice keeps the second. */
  lemma SpliceTwice(a: seq<byte>, offset: nat, b: Block, c: Block)
    requires offset + 16 <= |a|
    ensures Splice(Splice(a, offset, b), offset, c) == Splice(a, offset, c)
  {
    var s := Splice(a, offset, b);
    assert s[..offset] == a[..offset] && s[offset + 16..] == a[offset + 16..];
  }

  /** One of the `for (int j = 0; j < 16; j++)` loops: the block at `offset` becomes the
      byte-wise exclusive or of `a` and `b`, and every byte outside it is kept. */
  method XorBlock(outData: array<byte>, offset: nat, a: seq<byte>, b: seq<byte>)
    requires offset + 16 <= outData.Length && |a| == 16 && |b| == 16
    modifies outData
    ensures outData[..] == Splice(old(outData[..]), offset, XorSeq(a, b))
  {
    for j := 0 to 16
      invariant forall k :: 0 <= k < j ==> outData[offset + k] == Xor(a[k], b[k])
      invariant forall k :: 0 <= k < outData.Length && !(offset <= k < offset + j) ==> outData[k] == old(outData[k])
    {
      outData[offset + j] := Xor(a[j], b[j]);
    }
    assert outData[..] == Splice(old(outData[..]), offset, XorSeq(a, b));
  }

  /** `TransformBlock(outData, offset, 16, outData, offset)`: one block replaced by its
      image under the block function, every other byte kept. */
  method TransformBlock(outData: array<byte>, offset: nat, f: Transform)
    requires offset + 16 <= outData.Length
    modifies outData
    ensures outData[..] == Splice(old(outData[..]), offset, f(old(outData[offset..offset + 16])))
  {
    var block: Block := outData[offset..offset + 16];
    var image := f(block);
    for j := 0 to 16
      invariant forall k :: 0 <= k < j ==> outData[offset + k] == image[k]
      invariant forall k :: 0 <= k < outData.Length && !(offset <= k < offset + j) ==> outData[k] == old(outData[k])
    {
      outData[offset + j] := image[j];
    }
    assert outData[..] == Splice(old(outData[..]), offset, image);
  }

  /** One step of the chain in place: the block at `offset` becomes
      f(x xor yPrev) xor xPrev, and every byte outside it is kept. */
  method StepBlock(outData: array<byte>, offset: nat, x: Block, yPrev: Block, xPrev: Block, f: Transform)
    requires offset + 16 <= outData.Length
    modifies outData
    ensures outData[..] == Splice(old(outData[..]), offset, Step(f, x, yPrev, xPrev))
  {
    ghost var a := outData[..];
    var m := XorSeq(x, yPrev);
    XorBlock(outData, offset, x, yPrev);
    SpliceBlock(a, offset, m);
    ghost var a1 := outData[..];
    TransformBlock(outData, offset, f);
    SpliceBlock(a1, offset, f(m));
    SpliceTwice(a, offset, m, f(m));
    var y := outData[offset..offset + 16];
    XorBlock(outData, offset, y, xPrev);
    SpliceTwice(a, offset, f(m), XorSeq(y, xPrev));
  }

  /** IGECrypter: the first block from x0 and y0, then every later block chained on the
      source (`x = src`) and on the output written so far (`y = outData`). The output is a
      new array; `src` is only read. */
  method IGECrypter(src: array<byte>, x0: seq<byte>, y0: seq<byte>, f: Transform) returns (r: Result<array<byte>>)
    ensures r.Ok? <==> src.Length >= 16 && |x0| >= 16 && |y0| >= 16
    ensures r.Ok? ==> fresh(r.value) && r.value[..] == Ige(src[..], x0[..16], y0[..16], f)
  {
    if src.Length < 16 || |y0| < 16 || |x0| < 16 {
      return Err(OutOfRange);
    }
    var x := src[..];
    var X0: Block, Y0: Block := x0[..16], y0[..16];
    var blocksCount := src.Length / 16;
    var outData := new byte[src.Length](_ => 0);
    assert 16 * blocksCount <= |x|;

    // y1 = f(x1 xor y0) xor x0
    assert outData[..] == Zeros(|x|);
    StepBlock(outData, 0, BlockAt(x, 0), Y0, X0, f);
    FirstStep(x, X0, Y0, f);

    // y2..n, each on the output block before it
    for i := 1 to blocksCount
      invariant outData[..] == Flatten(Chain(x, X0, Y0, f, i)) + Zeros(|x| - 16 * i)
    {
      var y := outData[..];
      StepBlock(outData, 16 * i, BlockAt(x, i), BlockAt(y, i - 1), BlockAt(x, i - 1), f);
      LaterStep(x, X0, Y0, f, i, y);
    }
    IgeOf(x, X0, Y0, f, blocksCount);
    return Ok(outData);
  }

  /** AES256IGEEncrypt over arrays: x0 is `iv.Skip(16)`, y0 is `iv.Take(16)`. */
  method AES256IGEEncrypt(src: array<byte>, iv: seq<byte>, f: Transform) returns (r: Result<array<byte>>)
    ensures r.Ok? ==> fresh(r.value)
    ensures r.Ok? <==> Encrypt(src[..], iv, f).Ok?
    ensures r.Ok? ==> r.value[..] == Encrypt(src[..], iv, f).value
  {
    r := IGECrypter(src, Skip16(iv), Take16(iv), f);
    if |iv| >= 32 {
      assert Skip16(iv)[..16] == iv[16..32];
      assert Take16(iv)[..16] == iv[..16];
    }
  }

  /** AES256IGEDecrypt over arrays: x0 is `iv.Take(16)`, y0 is `iv.Skip(16)`. */
  method AES256IGEDecrypt(src: array<byte>, iv: seq<byte>, f: Transform) returns (r: Result<array<byte>>)
    ensures r.Ok? ==> fresh(r.value)
    ensures r.Ok? <==> Decrypt(src[..], iv, f).Ok?
    ensures r.Ok? ==> r.value[..] == Decrypt(src[..], iv, f).value
  {
    r := IGECrypter(src, Take16(iv), Skip16(iv), f);
    if |iv| >= 32 {
      assert Take16(iv)[..16] == iv[..16];
      assert Skip16(iv)[..16] == iv[16..32];
    }
  }
}
