/** The stream operators of the gcc plugin's hash class, over the MurMurHash3 class. */
module StreamHash {
  import opened MachineNumbers
  import opened MurmurMixing
  import opened Murmur
  import opened MurmurInjective

  type UInt8 = n: nat | n < 0x100
  type UInt16 = n: nat | n < 0x1_0000
  type UInt32 = n: nat | n < UINT32_MODULUS
  type UInt64 = n: nat | n < SIZE_MODULUS
  type Int8 = n: int | -0x80 <= n < 0x80
  type Int16 = n: int | -0x8000 <= n < 0x8000
  type Int32 = n: int | -0x8000_0000 <= n < 0x8000_0000
  type Int64 = n: int | -0x8000_0000_0000_0000 <= n < 0x8000_0000_0000_0000

  /** A number's lowest bytes, the least significant first; for a negative number those of its two's complement. */
  function LittleEndian(n: int, width: nat): (b: seq<Byte>)
    ensures |b| == width
    decreases width
  {
    if width == 0 then [] else [(n % 256) as Byte] + LittleEndian(n / 256, width - 1)
  }

  /** Reads bytes back as an unsigned number. */
  function Unsigned(bytes: seq<Byte>): (n: nat)
    ensures n < Power256(|bytes|)
  {
    if bytes == [] then 0 else bytes[0] as nat + 256 * Unsigned(bytes[1..])
  }

  /** Reads bytes back as a number in two's complement. */
  function Signed(bytes: seq<Byte>): int {
    var n := Unsigned(bytes);
    if 2 * n < Power256(|bytes|) then n else n - Power256(|bytes|)
  }

  /** A cast to a signed type of `modulus` values. */
  function Wrapped(n: int, modulus: int): int
    requires modulus > 0
  {
    var u := n % modulus;
    if 2 * u < modulus then u else u - modulus
  }

  lemma WrappedResidue(n: int, modulus: int)
    requires modulus > 0
    ensures Wrapped(n, modulus) % modulus == n % modulus
  {
    var u := n % modulus;
    QuotientIs(u, modulus, 0, u);
    QuotientIs(u - modulus, modulus, -1, u);
  }

  /** A word in memory, the least significant byte first. */
  function WordBytes(h: bv64): (b: seq<Byte>)
    ensures |b| == 8
  {
    seq(8, i requires 0 <= i < 8 => ByteAt(h, i))
  }

  lemma UnplaceIsByte(h: bv64, i: nat)
    requires i < 8
    ensures Unplace(h, i) < 256
  {
  }

  function ByteAt(h: bv64, i: nat): Byte
    requires i < 8
  {
    UnplaceIsByte(h, i);
    Unplace(h, i) as Byte
  }

  function StateBytes(s: State): (b: seq<Byte>)
    ensures |b| == 16
  {
    WordBytes(s.h1) + WordBytes(s.h2)
  }

  datatype Digest = Digest(value: State, length: UInt32)

  class Hash {
    const core: MurMurHash3

    ghost predicate Valid()
      reads this, core, core.block
    {
      core.Valid()
    }

    constructor ()
      ensures Valid() && fresh(core) && fresh(core.block) && core.fed == [] && core.byteCount == 0
    {
      core := new MurMurHash3();
    }

    method ProcessBytes(data: seq<Byte>)
      requires Valid()
      modifies core, core.block
      ensures Valid() && core.fed == old(core.fed) + data
      ensures core.byteCount == (old(core.byteCount) + |data|) % SIZE_MODULUS
    {
      hide MurMurHash3.Valid;
      core.Update(data);
    }

    method GetDigest() returns (digest: Digest)
      requires Valid()
      ensures digest == Digest(OneShot(core.fed, core.byteCount), core.byteCount % UINT32_MODULUS)
    {
      hide OneShot, Blocks, Rest;
      var copy := new MurMurHash3.Copy(core);
      var value, length := copy.Finalize();
      digest := Digest(value, length);
    }

    method AddUInt8(x: UInt8)
      requires Valid()
      modifies core, core.block
      ensures Valid() && core.fed == old(core.fed) + LittleEndian(x, 1)
      ensures core.byteCount == (old(core.byteCount) + 1) % SIZE_MODULUS
    {
      hide MurMurHash3.Valid;
      core.ProcessByte(x as Byte);
    }

    method AddUInt16(x: UInt16)
      requires Valid()
      modifies core, core.block
      ensures Valid() && core.fed == old(core.fed) + LittleEndian(x, 2)
      ensures core.byteCount == (old(core.byteCount) + 2) % SIZE_MODULUS
    {
      hide Valid, LittleEndian;
      AddUInt8(x % 0x100);
      AddUInt8(x / 0x100);
      Halves(x, x % 0x100, x / 0x100, 1);
    }

    method AddUInt32(x: UInt32)
      requires Valid()
      modifies core, core.block
      ensures Valid() && core.fed == old(core.fed) + LittleEndian(x, 4)
      ensures core.byteCount == (old(core.byteCount) + 4) % SIZE_MODULUS
    {
      hide Valid, LittleEndian;
      AddUInt16(x % 0x1_0000);
      AddUInt16(x / 0x1_0000);
      Halves(x, x % 0x1_0000, x / 0x1_0000, 2);
    }

    method AddUInt64(x: UInt64)
      requires Valid()
      modifies core, core.block
      ensures Valid() && core.fed == old(core.fed) + LittleEndian(x, 8)
      ensures core.byteCount == (old(core.byteCount) + 8) % SIZE_MODULUS
    {
      hide Valid, LittleEndian;
      AddUInt32(x % 0x1_0000_0000);
      AddUInt32(x / 0x1_0000_0000);
      Halves(x, x % 0x1_0000_0000, x / 0x1_0000_0000, 4);
    }

    method AddInt8(x: Int8)
      requires Valid()
      modifies core, core.block
      ensures Valid() && core.fed == old(core.fed) + LittleEndian(x, 1)
      ensures core.byteCount == (old(core.byteCount) + 1) % SIZE_MODULUS
    {
      hide MurMurHash3.Valid;
      core.ProcessByte((x % 256) as Byte);
    }

    method AddInt16(x: Int16)
      requires Valid()
      modifies core, core.block
      ensures Valid() && core.fed == old(core.fed) + LittleEndian(x, 2)
      ensures core.byteCount == (old(core.byteCount) + 2) % SIZE_MODULUS
    {
      hide Valid, LittleEndian;
      AddInt8(Wrapped(x % 0x100, 0x100));
      AddInt8(x / 0x100);
      WrappedResidue(x % 0x100, 0x100);
      Halves(x, Wrapped(x % 0x100, 0x100), x / 0x100, 1);
    }

    method AddInt32(x: Int32)
      requires Valid()
      modifies core, core.block
      ensures Valid() && core.fed == old(core.fed) + LittleEndian(x, 4)
      ensures core.byteCount == (old(core.byteCount) + 4) % SIZE_MODULUS
    {
      hide Valid, LittleEndian;
      AddInt16(Wrapped(x % 0x1_0000, 0x1_0000));
      AddInt16(x / 0x1_0000);
      WrappedResidue(x % 0x1_0000, 0x1_0000);
      Halves(x, Wrapped(x % 0x1_0000, 0x1_0000), x / 0x1_0000, 2);
    }

    method AddInt64(x: Int64)
      requires Valid()
      modifies core, core.block
      ensures Valid() && core.fed == old(core.fed) + LittleEndian(x, 8)
      ensures core.byteCount == (old(core.byteCount) + 8) % SIZE_MODULUS
    {
      hide Valid, LittleEndian;
      AddInt32(Wrapped(x % 0x1_0000_0000, 0x1_0000_0000));
      AddInt32(x / 0x1_0000_0000);
      WrappedResidue(x % 0x1_0000_0000, 0x1_0000_0000);
      Halves(x, Wrapped(x % 0x1_0000_0000, 0x1_0000_0000), x / 0x1_0000_0000, 4);
    }

    /** Absorbing a digest counts the bytes hashed into it as well. */
    method AddDigest(x: Digest)
      requires Valid()
      modifies core, core.block
      ensures Valid() && core.fed == old(core.fed) + StateBytes(x.value)
      ensures core.byteCount == (old(core.byteCount) + x.length + 16) % SIZE_MODULUS
    {
      hide Blocks, Rest, StateBytes;
      core.byteCount := (core.byteCount + x.length) % SIZE_MODULUS;
      ProcessBytes(StateBytes(x.value));
    }

    method AddHash(other: Hash)
      requires Valid() && other.Valid()
      modifies core, core.block
      ensures Valid() && core.fed == old(core.fed) + StateBytes(OneShot(old(other.core.fed), old(other.core.byteCount)))
      ensures core.byteCount == (old(core.byteCount) + old(other.core.byteCount) % UINT32_MODULUS + 16) % SIZE_MODULUS
    {
      hide MurMurHash3.Valid, StateBytes, OneShot;
      var digest := other.GetDigest();
      AddDigest(digest);
    }
  }

  /** Splitting a number into two halves splits its bytes, also when the lower half was wrapped to a signed type. */
  lemma Halves(n: int, lower: int, upper: int, half: nat)
    requires half in {1, 2, 4}
    requires lower % Power256(half) == n % Power256(half) && upper == n / Power256(half)
    ensures LittleEndian(n, 2 * half) == LittleEndian(lower, half) + LittleEndian(upper, half)
  {
    LittleEndianSplits(n, half, half);
    LittleEndianOfResidue(n, lower, half);
  }

  lemma {:induction false} LittleEndianSplits(n: int, a: nat, b: nat)
    ensures LittleEndian(n, a + b) == LittleEndian(n, a) + LittleEndian(n / Power256(a), b)
    decreases a
  {
    if a == 0 {
    } else {
      LittleEndianSplits(n / 256, a - 1, b);
      DivisionsCompose(n, Power256(a - 1));
    }
  }

  lemma {:induction false} LittleEndianOfResidue(n: int, m: int, width: nat)
    requires n % Power256(width) == m % Power256(width)
    ensures LittleEndian(n, width) == LittleEndian(m, width)
    decreases width
  {
    if width > 0 {
      ResidueStep(n, m, Power256(width - 1));
      LittleEndianOfResidue(n / 256, m / 256, width - 1);
    }
  }

  lemma DivisionsCompose(n: int, p: nat)
    requires p > 0
    ensures n / 256 / p == n / (256 * p)
  {
    var q, r := n / 256 / p, n / 256 % p;
    assert n == 256 * (p * q + r) + n % 256;
    var low := 256 * r + n % 256;
    assert 0 <= low < 256 * p;
    QuotientIs(n, 256 * p, q, low);
  }

  lemma ResidueStep(n: int, m: int, p: nat)
    requires p > 0 && n % (256 * p) == m % (256 * p)
    ensures n % 256 == m % 256 && n / 256 % p == m / 256 % p
  {
    var r := n % (256 * p);
    ResidueParts(n, p);
    ResidueParts(m, p);
  }

  lemma ResidueParts(n: int, p: nat)
    requires p > 0
    ensures n % 256 == n % (256 * p) % 256 && n / 256 % p == n % (256 * p) / 256
  {
    DivisionsCompose(n, p);
    var q := n / (256 * p);
    assert n / 256 == p * q + n / 256 % p;
    var r := n / 256 % p;
    QuotientIs(n, 256 * p, q, 256 * r + n % 256);
    QuotientIs(256 * r + n % 256, 256, r, n % 256);
  }

  /** What an operator feeds determines the value that went in. */
  lemma {:induction false} UnsignedRoundTrip(n: nat, width: nat)
    requires n < Power256(width)
    ensures Unsigned(LittleEndian(n, width)) == n
  {
    if width > 0 {
      UnsignedRoundTrip(n / 256, width - 1);
      ByteRoundTrip(n % 256);
    }
  }

  lemma SignedRoundTrip(n: int, width: nat)
    requires width > 0 && 0 <= 2 * n + Power256(width) < 2 * Power256(width)
    ensures Signed(LittleEndian(n, width)) == n
  {
    var m := if n < 0 then n + Power256(width) else n;
    QuotientIs(n, Power256(width), if n < 0 then -1 else 0, m);
    QuotientIs(m, Power256(width), 0, m);
    LittleEndianOfResidue(n, m, width);
    UnsignedRoundTrip(m, width);
  }

  lemma ByteRoundTrip(n: nat)
    requires n < 256
    ensures (n as Byte) as nat == n
  {
    assert n % 256 == n;
    var b := n as Byte;
    var m := b as int;
    assert 0 <= m < 256;
    assert m as Byte == b;
  }

  /** The bytes of an absorbed word, read as a block word, give it back. */
  lemma WordRoundTrip(h: bv64)
    ensures Word(WordBytes(h)) == h
  {
    hide Xor, And, Not, Below;
    WordFromRoundTrip(h, 0);
    AndNotBelow0(h);
  }

  /** An absorbed digest is its first word followed by its second, as a block would be read. */
  lemma StateRoundTrip(s: State)
    ensures Word(StateBytes(s)[..8]) == s.h1 && Word(StateBytes(s)[8..]) == s.h2
  {
    hide Word, WordBytes;
    WordRoundTrip(s.h1);
    WordRoundTrip(s.h2);
    assert StateBytes(s)[..8] == WordBytes(s.h1) && StateBytes(s)[8..] == WordBytes(s.h2);
  }

  lemma AndNotBelow0(h: bv64)
    ensures And(h, Not(Below(0))) == h && And(h, Not(Below(8))) == 0
  {
  }

  lemma {:induction false} WordFromRoundTrip(h: bv64, i: nat)
    requires i <= 8
    ensures WordFrom(WordBytes(h), i) == And(h, Not(Below(i)))
    decreases 8 - i
  {
    hide Xor, And, Not, Below, Place, ByteAt;
    if i == 8 {
      AndNotBelow0(h);
    } else {
      WordFromRoundTrip(h, i + 1);
      OneMoreByte(h, i);
    }
  }

  lemma OneMoreByte(h: bv64, i: nat)
    requires i < 8
    ensures Xor(And(h, Not(Below(i + 1))), Place(ByteAt(h, i), i)) == And(h, Not(Below(i)))
  {
    hide Xor, And, Not, Below, Unplace;
    UnplaceIsByte(h, i);
    CastBack(Unplace(h, i));
    MaskedParts(h, i);
  }

  lemma CastBack(x: bv64)
    requires x < 256
    ensures (x as Byte) as bv64 == x
  {
  }

  function Shifted(x: bv64, i: nat): bv64
    requires i < 8
  {
    match i
    case 0 => x
    case 1 => x << 8
    case 2 => x << 16
    case 3 => x << 24
    case 4 => x << 32
    case 5 => x << 40
    case 6 => x << 48
    case _ => x << 56
  }

  lemma MaskedParts(h: bv64, i: nat)
    requires i < 8
    ensures Xor(And(h, Not(Below(i + 1))), Shifted(Unplace(h, i), i)) == And(h, Not(Below(i)))
  {
    hide Xor, And, Not, Below, Shifted, Unplace;
    PlaceBits(0, i);
    OnePart(h, i);
    TwoParts(h, Below(i), Below(i + 1));
  }

  lemma OnePart(h: bv64, i: nat)
    requires i < 8
    ensures IsPart(h, i)
  {
    hide IsPart;
    match i {
      case 0 => Part0(h);
      case 1 => Part1(h);
      case 2 => Part2(h);
      case 3 => Part3(h);
      case 4 => Part4(h);
      case 5 => Part5(h);
      case 6 => Part6(h);
      case _ => Part7(h);
    }
  }

  predicate IsPart(h: bv64, i: nat)
    requires i < 8
  {
    Shifted(Unplace(h, i), i) == And(h, And(Below(i + 1), Not(Below(i))))
  }

  lemma Part0(h: bv64) ensures IsPart(h, 0) { }
  lemma Part1(h: bv64) ensures IsPart(h, 1) { }
  lemma Part2(h: bv64) ensures IsPart(h, 2) { }
  lemma Part3(h: bv64) ensures IsPart(h, 3) { }
  lemma Part4(h: bv64) ensures IsPart(h, 4) { }
  lemma Part5(h: bv64) ensures IsPart(h, 5) { }
  lemma Part6(h: bv64) ensures IsPart(h, 6) { }
  lemma Part7(h: bv64) ensures IsPart(h, 7) { }

  lemma TwoParts(h: bv64, lower: bv64, upper: bv64)
    requires And(lower, Not(upper)) == 0
    ensures Xor(And(h, Not(upper)), And(h, And(upper, Not(lower)))) == And(h, Not(lower))
  {
  }
}
