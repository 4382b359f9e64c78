/** The SHA1 class of the clang plugin, proved against FIPS 180-4. */
module Sha1 {
  import opened MachineNumbers
  import opened Sha1Standard

  /** The rotation as the class writes it. */
  function LeftRotate(value: bv32, count: nat): bv32
    requires 0 < count < 32
  {
    (value << count) ^ (value >> (32 - count))
  }

  lemma LeftRotateIsRotl(x: bv32)
    ensures LeftRotate(x, 1) == Rotl(x, 1) && LeftRotate(x, 5) == Rotl(x, 5) && LeftRotate(x, 30) == Rotl(x, 30)
  {
  }

  /** The class joins the terms of its round functions with OR where the standard uses XOR. */
  lemma OrFormsAreXorForms(x: bv32, y: bv32, z: bv32)
    ensures (x & y) | (!x & z) == Ch(x, y, z)
    ensures (x & y) | (x & z) | (y & z) == Maj(x, y, z)
    ensures x ^ y ^ z == Parity(x, y, z)
  {
  }

  function Rest(bytes: seq<Byte>): (r: seq<Byte>)
    ensures |r| == |bytes| % BLOCK_LENGTH
  {
    bytes[|bytes| - |bytes| % BLOCK_LENGTH..]
  }

  function ChainOf(d: seq<bv32>): Chain
    requires |d| == 5
  {
    Chain(d[0], d[1], d[2], d[3], d[4])
  }

  class SHA1 {
    const digest: array<bv32>
    const block: array<Byte>
    var blockByteIndex: nat
    var byteCount: Size
    ghost var fed: seq<Byte>

    /** The digest is the hash value after the complete blocks fed so far, and the buffer holds the remainder. */
    ghost predicate Valid()
      reads this, digest, block
    {
      && digest.Length == 5 && block.Length == BLOCK_LENGTH
      && blockByteIndex == |fed| % BLOCK_LENGTH
      && ChainOf(digest[..]) == Blocks(INITIAL, fed)
      && block[..blockByteIndex] == Rest(fed)
    }

    constructor ()
      ensures Valid() && fresh(digest) && fresh(block) && fed == [] && byteCount == 0
    {
      digest := new bv32[5];
      block := new Byte[BLOCK_LENGTH];
      blockByteIndex, byteCount, fed := 0, 0, [];
      new;
      Reset();
    }

    method Reset()
      requires digest.Length == 5 && block.Length == BLOCK_LENGTH
      modifies this, digest
      ensures Valid() && fed == [] && byteCount == 0
    {
      digest[0] := 0x67452301;
      digest[1] := 0xEFCDAB89;
      digest[2] := 0x98BADCFE;
      digest[3] := 0x10325476;
      digest[4] := 0xC3D2E1F0;
      blockByteIndex, byteCount, fed := 0, 0, [];
    }

    method ProcessByte(octet: Byte)
      requires Valid()
      modifies this, digest, block
      ensures Valid() && fed == old(fed) + [octet] && byteCount == (old(byteCount) + 1) % SIZE_MODULUS
      ensures blockByteIndex == NextIndex(old(blockByteIndex)) < BLOCK_LENGTH
    {
      hide Compress;
      block[blockByteIndex] := octet;
      blockByteIndex := blockByteIndex + 1;
      byteCount := (byteCount + 1) % SIZE_MODULUS;
      fed := fed + [octet];
      RestGrows(old(fed), octet);
      if blockByteIndex == BLOCK_LENGTH {
        assert block[..] == Rest(old(fed)) + [octet];
        blockByteIndex := 0;
        ProcessBlock();
        assert block[..0] == [] == Rest(fed);
      }
    }

    method ProcessBytes(data: seq<Byte>)
      requires Valid()
      modifies this, digest, block
      ensures Valid() && fed == old(fed) + data && byteCount == (old(byteCount) + |data|) % SIZE_MODULUS
    {
      hide Valid, NextIndex;
      for i := 0 to |data|
        invariant Valid() && fed == old(fed) + data[..i] && byteCount == (old(byteCount) + i) % SIZE_MODULUS
      {
        CountsOn(old(byteCount), i);
        ProcessByte(data[i]);
        assert data[..i + 1] == data[..i] + [data[i]];
      }
      assert data[..|data|] == data;
    }

    /** The message schedule of the full buffer. */
    method Schedule() returns (w: array<bv32>)
      requires block.Length == BLOCK_LENGTH
      ensures fresh(w) && w.Length == 80 && forall j :: 0 <= j < 80 ==> w[j] == W(block[..], j)
    {
      hide W, Rotl, Xor4, LeftRotate, Word;
      ghost var m := block[..];
      w := new bv32[80];
      for i := 0 to 16
        invariant forall j :: 0 <= j < i ==> w[j] == W(m, j)
      {
        w[i] := (block[i * 4 + 0] as bv32) << 24;
        w[i] := w[i] | ((block[i * 4 + 1] as bv32) << 16);
        w[i] := w[i] | ((block[i * 4 + 2] as bv32) << 8);
        w[i] := w[i] | (block[i * 4 + 3] as bv32);
        WordParts(m, i);
      }
      for i := 16 to 80
        invariant forall j :: 0 <= j < i ==> w[j] == W(m, j)
      {
        w[i] := LeftRotate(Xor4(w[i - 3], w[i - 8], w[i - 14], w[i - 16]), 1);
        LaterWord(m, i);
      }
    }

    /** The chain of conditions that selects a round function and its constant. */
    static method RoundFunction(i: nat, b: bv32, c: bv32, d: bv32) returns (f: bv32, k: bv32)
      requires i < 80
      ensures f == F(i, b, c, d) && k == K(i)
    {
      hide Ch, Parity, Maj;
      OrFormsAreXorForms(b, c, d);
      f, k := 0, 0;
      if i < 20 {
        f := (b & c) | (!b & d);
        k := 0x5A827999;
      } else if i < 40 {
        f := b ^ c ^ d;
        k := 0x6ED9EBA1;
      } else if i < 60 {
        f := (b & c) | (b & d) | (c & d);
        k := 0x8F1BBCDC;
      } else {
        f := b ^ c ^ d;
        k := 0xCA62C1D6;
      }
    }

    /** Runs the 80 rounds over the full buffer. */
    method ProcessBlock()
      requires digest.Length == 5 && block.Length == BLOCK_LENGTH
      modifies digest
      ensures ChainOf(digest[..]) == Compress(old(ChainOf(digest[..])), block[..])
    {
      hide W, F, K, Rotl, Plus, LeftRotate, Added;
      ghost var m := block[..];
      ghost var h := ChainOf(digest[..]);
      var w := Schedule();

      var a := digest[0];
      var b := digest[1];
      var c := digest[2];
      var d := digest[3];
      var e := digest[4];
      for i := 0 to 80
        invariant digest[..] == old(digest[..]) && forall j :: 0 <= j < 80 ==> w[j] == W(m, j)
        invariant Chain(a, b, c, d, e) == Rounds(h, m, i)
      {
        var f, k := RoundFunction(i, b, c, d);
        NextRound(h, m, i);
        LeftRotateIsRotl(a);
        LeftRotateIsRotl(b);
        var temp := Plus(Plus(Plus(Plus(LeftRotate(a, 5), f), e), k), w[i]);
        e := d;
        d := c;
        c := LeftRotate(b, 30);
        b := a;
        a := temp;
      }

      AddToDigest(a, b, c, d, e);
    }

    /** Adds the working variables to the hash value. */
    method AddToDigest(a: bv32, b: bv32, c: bv32, d: bv32, e: bv32)
      requires digest.Length == 5
      modifies digest
      ensures ChainOf(digest[..]) == Added(old(ChainOf(digest[..])), Chain(a, b, c, d, e))
    {
      hide Plus;
      digest[0] := Plus(digest[0], a);
      digest[1] := Plus(digest[1], b);
      digest[2] := Plus(digest[2], c);
      digest[3] := Plus(digest[3], d);
      digest[4] := Plus(digest[4], e);
    }

    /** Feeds zeros until the buffer index is `goal`. */
    method FeedZerosUntil(goal: nat)
      requires Valid() && blockByteIndex < BLOCK_LENGTH && (goal == 0 || blockByteIndex <= goal < BLOCK_LENGTH)
      modifies this, digest, block
      ensures Valid() && blockByteIndex == goal
      ensures fed == old(fed) + Zeros(Missing(old(blockByteIndex), goal))
    {
      hide Valid;
      ghost var n := 0;
      while if goal == 0 then blockByteIndex != 0 else blockByteIndex < goal
        invariant Valid() && fed == old(fed) + Zeros(n) && blockByteIndex < BLOCK_LENGTH
        invariant goal == 0 || blockByteIndex <= goal
        invariant n + Missing(blockByteIndex, goal) == Missing(old(blockByteIndex), goal)
        decreases Missing(blockByteIndex, goal)
      {
        ProcessByte(0);
        n := n + 1;
        assert Zeros(n) == Zeros(n - 1) + [0];
      }
    }

    /** Feeds zeros up to eight bytes before the end of the buffer, by way of a further block if need be. */
    method FeedZeros()
      requires Valid() && blockByteIndex < BLOCK_LENGTH
      modifies this, digest, block
      ensures Valid() && fed == old(fed) + Zeros(ZerosFrom(old(blockByteIndex)))
    {
      hide Valid;
      ghost var index := blockByteIndex;
      if blockByteIndex > 56 {
        FeedZerosUntil(0);
        FeedZerosUntil(56);
        assert Zeros(BLOCK_LENGTH - index) + Zeros(56) == Zeros(120 - index);
      } else {
        FeedZerosUntil(56);
      }
    }

    /** Feeds the length in bits, of which only the lower 32 bits are written. */
    method FeedLength(bitCount: Size)
      requires Valid()
      modifies this, digest, block
      ensures Valid() && fed == old(fed) + LengthWritten(bitCount)
    {
      hide Valid, ByteOf;
      ProcessByte(0);
      ProcessByte(0);
      ProcessByte(0);
      ProcessByte(0);
      ProcessByte(ByteOf(bitCount, 3));
      ProcessByte(ByteOf(bitCount, 2));
      ProcessByte(ByteOf(bitCount, 1));
      ProcessByte(ByteOf(bitCount, 0));
    }

    /** Pads the message. */
    method FeedPadding()
      requires Valid()
      modifies this, digest, block
      ensures Valid() && fed == old(fed) + PaddingWritten(|old(fed)|, old(byteCount))
    {
      ghost var message := fed;
      ghost var total := byteCount;
      var bitCount := byteCount * 8 % SIZE_MODULUS;
      ValidIndex();
      hide Valid, LengthWritten, PaddingWritten, NextIndex, ZerosFrom, ZeroCount;
      ZerosMatch(|message|);
      ProcessByte(0x80);
      FeedZeros();
      FeedLength(bitCount);
      PaddingParts(message, total);
    }

    /** Pads the message, and delivers the hash value. */
    method Finalize() returns (result: Chain, count: nat)
      requires Valid()
      modifies this, digest, block
      ensures Valid() && fed == old(fed) + PaddingWritten(|old(fed)|, old(byteCount))
      ensures result == Blocks(INITIAL, old(fed) + PaddingWritten(|old(fed)|, old(byteCount)))
      ensures old(byteCount) == |old(fed)| < 0x2000_0000 ==> result == Sha1(old(fed))
      ensures count == byteCount % UINT32_MODULUS
    {
      hide Valid, Blocks, PaddingWritten, Sha1;
      if byteCount == |fed| < 0x2000_0000 {
        StandardDigest(fed);
      }
      FeedPadding();
      ValidDigest();
      result, count := ChainOf(digest[..]), byteCount % UINT32_MODULUS;
    }

    lemma ValidIndex()
      requires Valid()
      ensures blockByteIndex == |fed| % BLOCK_LENGTH < BLOCK_LENGTH
    {
    }

    lemma ValidDigest()
      requires Valid()
      ensures digest.Length == 5 && ChainOf(digest[..]) == Blocks(INITIAL, fed)
    {
    }
  }

  /** Feeds a message byte by byte to a new object: the digest is that of the standard below 2^29 bytes. */
  method DigestOf(message: seq<Byte>) returns (result: Chain)
    ensures |message| < 0x2000_0000 ==> result == Sha1(message)
  {
    hide Sha1, Blocks, PaddingWritten, SHA1.Valid;
    var hash := new SHA1();
    hash.ProcessBytes(message);
    assert [] + message == message;
    var count;
    result, count := hash.Finalize();
  }

  /** The zero bytes between a buffer index and the goal, around the end of the buffer if need be. */
  function Missing(index: nat, goal: nat): nat
    requires index < BLOCK_LENGTH && (goal == 0 || index <= goal)
  {
    if goal == 0 && index > 0 then BLOCK_LENGTH - index else goal - index
  }

  function NextIndex(index: nat): nat {
    if index == BLOCK_LENGTH - 1 then 0 else index + 1
  }

  /** The zero bytes from a buffer index up to the length. */
  function ZerosFrom(index: nat): nat
    requires index < BLOCK_LENGTH
  {
    if index <= 56 then 56 - index else 120 - index
  }

  /** The zero bytes that the class writes before the length. */
  function ZeroCount(length: nat): nat {
    var n := length % BLOCK_LENGTH;
    if n <= 55 then 55 - n else 119 - n
  }

  /** The length as the class writes it. */
  function LengthWritten(bitCount: Size): seq<Byte> {
    [0, 0, 0, 0, ByteOf(bitCount, 3), ByteOf(bitCount, 2), ByteOf(bitCount, 1), ByteOf(bitCount, 0)]
  }

  /** The padding as the class writes it. */
  function PaddingWritten(length: nat, count: Size): seq<Byte> {
    var bitCount := count * 8 % SIZE_MODULUS;
    [0x80] + Zeros(ZeroCount(length)) + LengthWritten(bitCount)
  }

  lemma StandardDigest(message: seq<Byte>)
    requires |message| < 0x2000_0000
    ensures Sha1(message) == Blocks(INITIAL, message + PaddingWritten(|message|, |message|))
  {
    hide Blocks, PaddingWritten, Padding;
    PaddingIsStandard(|message|);
  }

  lemma ZerosMatch(length: nat)
    ensures ZerosFrom(NextIndex(length % BLOCK_LENGTH)) == ZeroCount(length)
  {
  }

  lemma PaddingParts(message: seq<Byte>, count: Size)
    ensures message + [0x80] + Zeros(ZeroCount(|message|)) + LengthWritten(count * 8 % SIZE_MODULUS)
         == message + PaddingWritten(|message|, count)
  {
  }

  lemma {:induction false} BigEndianAt(n: nat, width: nat, i: nat)
    requires i < width
    ensures BigEndian(n, width)[i] == ByteOf(n, width - 1 - i)
  {
    hide ByteOf;
    if i > 0 {
      BigEndianAt(n, width - 1, i - 1);
    }
  }

  /** The upper four bytes of the length are zero exactly for lengths below 2^32 bits. */
  lemma UpperBytes(n: nat)
    requires n < SIZE_MODULUS
    ensures n < UINT32_MODULUS <==> ByteOf(n, 7) == 0 && ByteOf(n, 6) == 0 && ByteOf(n, 5) == 0 && ByteOf(n, 4) == 0
  {
    assert Power256(4) == 0x1_0000_0000 && Power256(5) == 0x100_0000_0000;
    assert Power256(6) == 0x1_0000_0000_0000 && Power256(7) == 0x100_0000_0000_0000;
  }

  /** The padding written is that of the standard exactly for messages shorter than 2^29 bytes. */
  lemma PaddingIsStandard(length: nat)
    requires 8 * length < SIZE_MODULUS
    ensures PaddingWritten(length, length) == Padding(length) <==> length < 0x2000_0000
  {
    hide ByteOf;
    var bits := 8 * length;
    UpperBytes(bits);
    PaddingLength(length);
    forall i | 0 <= i < 8
      ensures BigEndian(bits, 8)[i] == ByteOf(bits, 7 - i)
    {
      BigEndianAt(bits, 8, i);
    }
    var start := [0x80] + Zeros(ZeroCount(length));
    assert PaddingWritten(length, length) == start + LengthWritten(bits);
    assert Padding(length) == start + BigEndian(bits, 8);
    SameEnds(start, LengthWritten(bits), BigEndian(bits, 8));
    var b := BigEndian(bits, 8);
    assert b == [b[0], b[1], b[2], b[3], b[4], b[5], b[6], b[7]];
    assert LengthWritten(bits) == b <==> [b[0], b[1], b[2], b[3]] == [0, 0, 0, 0];
  }

  lemma SameEnds(start: seq<Byte>, a: seq<Byte>, b: seq<Byte>)
    ensures start + a == start + b <==> a == b
  {
    assert a == (start + a)[|start|..] && b == (start + b)[|start|..];
  }

  lemma WordParts(m: seq<Byte>, i: nat)
    requires |m| == BLOCK_LENGTH && i < 16
    ensures W(m, i) == ((((m[i * 4 + 0] as bv32) << 24) | ((m[i * 4 + 1] as bv32) << 16))
            | ((m[i * 4 + 2] as bv32) << 8))
                       | (m[i * 4 + 3] as bv32)
  {
  }

  lemma LaterWord(m: seq<Byte>, i: nat)
    requires |m| == BLOCK_LENGTH && 16 <= i < 80
    ensures W(m, i) == LeftRotate(Xor4(W(m, i - 3), W(m, i - 8), W(m, i - 14), W(m, i - 16)), 1)
  {
    LeftRotateIsRotl(Xor4(W(m, i - 3), W(m, i - 8), W(m, i - 14), W(m, i - 16)));
  }

  lemma NextRound(h: Chain, m: seq<Byte>, i: nat)
    requires |m| == BLOCK_LENGTH && i < 80
    ensures Rounds(h, m, i + 1) == Round(Rounds(h, m, i), i, W(m, i))
  {
    hide Round, W;
  }

  /** One more byte either grows the remainder or completes a block. */
  lemma RestGrows(fed: seq<Byte>, octet: Byte)
    ensures (|fed| + 1) % BLOCK_LENGTH == if |Rest(fed)| + 1 == BLOCK_LENGTH then 0 else |Rest(fed)| + 1
    ensures |Rest(fed)| + 1 < BLOCK_LENGTH ==>
              Rest(fed + [octet]) == Rest(fed) + [octet] && Blocks(INITIAL, fed + [octet]) == Blocks(INITIAL, fed)
    ensures |Rest(fed)| + 1 == BLOCK_LENGTH ==>
              Blocks(INITIAL, fed + [octet]) == Compress(Blocks(INITIAL, fed), Rest(fed) + [octet])
  {
    hide Compress, Blocks;
    BlocksOfPrefix(INITIAL, fed, [octet]);
    var b := Rest(fed) + [octet];
    LastBlock(Blocks(INITIAL, fed), b);
  }

  lemma LastBlock(h: Chain, b: seq<Byte>)
    requires |b| <= BLOCK_LENGTH
    ensures Blocks(h, b) == if |b| == BLOCK_LENGTH then Compress(h, b) else h
  {
    hide Compress;
    if |b| == BLOCK_LENGTH {
      assert b[..BLOCK_LENGTH] == b && b[BLOCK_LENGTH..] == [];
      assert Blocks(Compress(h, b), []) == Compress(h, b);
    }
  }

  /** Appending to a message of which the remainder still waits for a block. */
  lemma {:induction false} BlocksOfPrefix(h: Chain, a: seq<Byte>, b: seq<Byte>)
    ensures Blocks(h, a + b) == Blocks(Blocks(h, a), Rest(a) + b)
    decreases |a|
  {
    hide Compress;
    if |a| < BLOCK_LENGTH {
      assert Rest(a) == a;
    } else {
      BlocksOfPrefix(Compress(h, a[..BLOCK_LENGTH]), a[BLOCK_LENGTH..], b);
      assert (a + b)[..BLOCK_LENGTH] == a[..BLOCK_LENGTH];
      assert (a + b)[BLOCK_LENGTH..] == a[BLOCK_LENGTH..] + b;
      assert Rest(a[BLOCK_LENGTH..]) == Rest(a);
    }
  }
}
