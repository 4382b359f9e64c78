/** SHA-1 as FIPS 180-4 defines it, for messages of whole bytes. */
module Sha1Standard {
  import opened MachineNumbers

  const BLOCK_LENGTH := 64

  /** The five words of a hash value, and the five working variables. */
  datatype Chain = Chain(a: bv32, b: bv32, c: bv32, d: bv32, e: bv32)

  /** Section 5.3.1. */
  const INITIAL := Chain(0x67452301, 0xefcdab89, 0x98badcfe, 0x10325476, 0xc3d2e1f0)

  function Plus(x: bv32, y: bv32): bv32 { x + y }

  /** Section 2.2.2. */
  function Rotl(x: bv32, n: nat): bv32
    requires 0 < n < 32
  {
    (x << n) | (x >> (32 - n))
  }

  /** Section 4.1.1. */
  function Ch(x: bv32, y: bv32, z: bv32): bv32 { (x & y) ^ (!x & z) }
  function Parity(x: bv32, y: bv32, z: bv32): bv32 { x ^ y ^ z }
  function Maj(x: bv32, y: bv32, z: bv32): bv32 { (x & y) ^ (x & z) ^ (y & z) }

  function F(t: nat, x: bv32, y: bv32, z: bv32): bv32 {
    if t < 20 then Ch(x, y, z) else if t < 40 then Parity(x, y, z) else if t < 60 then Maj(x, y, z) else Parity(x, y, z)
  }

  /** Section 4.2.1. */
  function K(t: nat): bv32 {
    if t < 20 then 0x5a827999 else if t < 40 then 0x6ed9eba1 else if t < 60 then 0x8f1bbcdc else 0xca62c1d6
  }

  /** A 32-bit word of a block: four bytes, the most significant first (section 3.1). */
  function Word(b0: Byte, b1: Byte, b2: Byte, b3: Byte): bv32 {
    ((b0 as bv32) << 24) | ((b1 as bv32) << 16) | ((b2 as bv32) << 8) | (b3 as bv32)
  }

  function Xor4(p: bv32, q: bv32, r: bv32, s: bv32): bv32 { p ^ q ^ r ^ s }

  /** The message schedule, step 1 of section 6.1.2. */
  function W(block: seq<Byte>, t: nat): bv32
    requires |block| == BLOCK_LENGTH && t < 80
    decreases t
  {
    if t < 16 then Word(block[4 * t], block[4 * t + 1], block[4 * t + 2], block[4 * t + 3])
    else Rotl(Xor4(W(block, t - 3), W(block, t - 8), W(block, t - 14), W(block, t - 16)), 1)
  }

  /** One round, the body of step 3. */
  function Round(v: Chain, t: nat, w: bv32): Chain {
    var temp := Plus(Plus(Plus(Plus(Rotl(v.a, 5), F(t, v.b, v.c, v.d)), v.e), K(t)), w);
    Chain(temp, v.a, Rotl(v.b, 30), v.c, v.d)
  }

  /** The working variables after `t` rounds. */
  function Rounds(h: Chain, block: seq<Byte>, t: nat): Chain
    requires |block| == BLOCK_LENGTH && t <= 80
    decreases t
  {
    if t == 0 then h else Round(Rounds(h, block, t - 1), t - 1, W(block, t - 1))
  }

  function Added(h: Chain, v: Chain): Chain {
    Chain(Plus(h.a, v.a), Plus(h.b, v.b), Plus(h.c, v.c), Plus(h.d, v.d), Plus(h.e, v.e))
  }

  /** Step 4: the intermediate hash value after a block. */
  function Compress(h: Chain, block: seq<Byte>): Chain
    requires |block| == BLOCK_LENGTH
  {
    Added(h, Rounds(h, block, 80))
  }

  /** The hash value after all complete blocks. */
  function Blocks(h: Chain, bytes: seq<Byte>): Chain
    decreases |bytes|
  {
    if |bytes| < BLOCK_LENGTH then h else Blocks(Compress(h, bytes[..BLOCK_LENGTH]), bytes[BLOCK_LENGTH..])
  }

  function Zeros(n: nat): (z: seq<Byte>)
    ensures |z| == n
  {
    seq(n, _ => 0)
  }

  function ByteOf(n: nat, place: nat): Byte {
    (n / Power256(place) % 256) as Byte
  }

  /** A number as `width` bytes, the most significant first. */
  function BigEndian(n: nat, width: nat): (b: seq<Byte>)
    ensures |b| == width
  {
    if width == 0 then [] else [ByteOf(n, width - 1)] + BigEndian(n, width - 1)
  }

  /** Section 5.1.1: a one bit, the smallest number of zero bits that ends 64 bits before a block boundary, and the
      length in bits as a 64-bit number. */
  function Padding(length: nat): seq<Byte> {
    [0x80] + Zeros((BLOCK_LENGTH + 55 - length % BLOCK_LENGTH) % BLOCK_LENGTH) + BigEndian(8 * length, 8)
  }

  /** The message digest. */
  function Sha1(message: seq<Byte>): Chain {
    Blocks(INITIAL, message + Padding(|message|))
  }

  /** Reads bytes as a number, the most significant first. */
  function Read(bytes: seq<Byte>): (n: nat)
    decreases |bytes|
  {
    if bytes == [] then 0 else 256 * Read(bytes[..|bytes| - 1]) + bytes[|bytes| - 1] as nat
  }

  lemma {:induction false} ReadAppend(a: seq<Byte>, b: seq<Byte>)
    ensures Read(a + b) == Power256(|b|) * Read(a) + Read(b)
    decreases |b|
  {
    if b == [] {
      assert a + b == a;
    } else {
      var n := |b| - 1;
      ReadAppend(a, b[..n]);
      assert (a + b)[..|a + b| - 1] == a + b[..n] && (a + b)[|a + b| - 1] == b[n];
      OneMoreDigit(Power256(n), Read(a), Read(b[..n]), b[n] as nat);
    }
  }

  lemma OneMoreDigit(p: nat, upper: nat, lower: nat, digit: nat)
    ensures 256 * (p * upper + lower) + digit == 256 * p * upper + (256 * lower + digit)
  {
    Associates(256, p, upper);
  }

  lemma ByteReadsBack(n: nat)
    requires n < 256
    ensures (n as Byte) as nat == n
  {
    assert n % 256 == n;
    var b := n as Byte;
    var m := b as int;
    assert 0 <= m < 256;
    assert m as Byte == b;
  }

  /** The bytes of a number are those of its residue. */
  lemma {:induction false} BigEndianReads(n: nat, width: nat)
    ensures Read(BigEndian(n, width)) == n % Power256(width)
  {
    if width == 0 {
      assert BigEndian(n, 0) == [];
    } else {
      var p := Power256(width - 1);
      BigEndianReads(n, width - 1);
      ReadAppend([ByteOf(n, width - 1)], BigEndian(n, width - 1));
      ByteReadsBack(n / p % 256);
      assert Read([ByteOf(n, width - 1)]) == n / p % 256 by {
        assert [ByteOf(n, width - 1)][..0] == [];
      }
      LeadingDigit(n, p);
    }
  }

  lemma EightBytes()
    ensures Power256(8) == 0x1_0000_0000_0000_0000
  {
    assert Power256(2) == 0x1_0000 && Power256(4) == 0x1_0000_0000 && Power256(6) == 0x1_0000_0000_0000;
  }

  /** A number that fits reads back from its bytes, and so does the length in bits from the end of the padding. */
  lemma LengthReadsBack(length: nat)
    requires 8 * length < 0x1_0000_0000_0000_0000
    ensures var p := Padding(length); Read(p[|p| - 8..]) == 8 * length
  {
    hide BigEndian, Read;
    var p := Padding(length);
    assert p[|p| - 8..] == BigEndian(8 * length, 8);
    BigEndianReads(8 * length, 8);
    EightBytes();
  }

  predicate EndsBlock(length: nat, zeros: nat) {
    (length + 1 + zeros + 8) % BLOCK_LENGTH == 0
  }

  /** The padded message consists of complete blocks, and no shorter zero padding would do. */
  lemma PaddingCompletes(length: nat)
    ensures EndsBlock(length, |Padding(length)| - 9) && (length + |Padding(length)|) % BLOCK_LENGTH == 0
    ensures forall k :: 0 <= k < |Padding(length)| - 9 ==> !EndsBlock(length, k)
  {
    var q, n := length / BLOCK_LENGTH, length % BLOCK_LENGTH;
    PaddingLength(length);
    hide Padding;
    var zeros := if n <= 55 then 55 - n else 119 - n;
    var blocks := if n <= 55 then q + 1 else q + 2;
    QuotientIs(length + 9 + zeros, BLOCK_LENGTH, blocks, 0);
    forall k | 0 <= k < zeros
      ensures !EndsBlock(length, k)
    {
      QuotientIs(length + 9 + k, BLOCK_LENGTH, blocks - 1, BLOCK_LENGTH - zeros + k);
    }
  }

  /** The zero bytes of the padding. */
  lemma PaddingLength(length: nat)
    ensures var n := length % BLOCK_LENGTH;
            |Padding(length)| == 1 + (if n <= 55 then 55 - n else 119 - n) + 8
  {
    var n := length % BLOCK_LENGTH;
    QuotientIs(119 - n, BLOCK_LENGTH, if n <= 55 then 1 else 0, if n <= 55 then 55 - n else 119 - n);
  }
}
