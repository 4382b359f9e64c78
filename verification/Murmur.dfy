/** The streaming MurmurHash3 class and its one-shot specification from the start state of this repository. */
module Murmur {
  import opened MachineNumbers
  import opened MurmurMixing

  const BLOCK_LENGTH := 16

  datatype State = State(h1: bv64, h2: bv64)

  const START := State(0x6745230198BADCFE, 0xEFCDAB8910325476)

  /** A byte at its little-endian place in a word. */
  function Place(b: Byte, i: nat): bv64
    requires i < 8
  {
    match i
    case 0 => b as bv64
    case 1 => (b as bv64) << 8
    case 2 => (b as bv64) << 16
    case 3 => (b as bv64) << 24
    case 4 => (b as bv64) << 32
    case 5 => (b as bv64) << 40
    case 6 => (b as bv64) << 48
    case _ => (b as bv64) << 56
  }

  /** The bytes from position `i` on, each at its place. */
  function WordFrom(b: seq<Byte>, i: nat): bv64
    requires |b| <= 8
    decreases 8 - i
  {
    if i >= |b| then 0 else Xor(WordFrom(b, i + 1), Place(b[i], i))
  }

  /** Up to eight bytes in memory, read as a little-endian word. */
  function Word(b: seq<Byte>): bv64
    requires |b| <= 8
  {
    WordFrom(b, 0)
  }

  /** The effect of one full block on the state. */
  function BlockStep(s: State, k1: bv64, k2: bv64): State {
    var h1 := Affine1(Plus(Rotl(Xor(s.h1, Mix1(k1)), 27), s.h2));
    var h2 := Affine2(Plus(Rotl(Xor(s.h2, Mix2(k2)), 31), h1));
    State(h1, h2)
  }

  /** The state after all complete blocks of a message. */
  function Blocks(s: State, bytes: seq<Byte>): State
    decreases |bytes|
  {
    if |bytes| < BLOCK_LENGTH then s
    else Blocks(BlockStep(s, Word(bytes[..8]), Word(bytes[8..16])), bytes[BLOCK_LENGTH..])
  }

  /** The bytes after the last complete block. */
  function Rest(bytes: seq<Byte>): (r: seq<Byte>)
    ensures |r| == |bytes| % BLOCK_LENGTH
  {
    bytes[|bytes| - |bytes| % BLOCK_LENGTH..]
  }

  function ZeroPadded(bytes: seq<Byte>): (r: seq<Byte>)
    requires |bytes| <= BLOCK_LENGTH
    ensures |r| == BLOCK_LENGTH
  {
    bytes + seq(BLOCK_LENGTH - |bytes|, _ => 0)
  }

  /** The remainder is mixed in as a zero-padded block, but without the state mixing of a full block. */
  function Tail(s: State, rest: seq<Byte>): State
    requires |rest| < BLOCK_LENGTH
  {
    var block := ZeroPadded(rest);
    State(Xor(s.h1, Mix1(Word(block[..8]))), Xor(s.h2, Mix2(Word(block[8..]))))
  }

  function CrossAdd(s: State): State {
    State(Plus(s.h1, s.h2), Plus(s.h2, Plus(s.h1, s.h2)))
  }

  /** The final mix with the byte count. */
  function Finish(s: State, count: bv64): State {
    var t := CrossAdd(State(Xor(s.h1, count), Xor(s.h2, count)));
    CrossAdd(State(Fmix64(t.h1), Fmix64(t.h2)))
  }

  function CountWord(count: Size): bv64 {
    count as bv64
  }

  /** The digest of a message, for a byte count that need not be its length. */
  function OneShot(message: seq<Byte>, count: Size): State {
    Finish(Tail(Blocks(START, message), Rest(message)), CountWord(count))
  }

  /** The digest of a message. */
  function Digest(message: seq<Byte>): State {
    OneShot(message, |message| % SIZE_MODULUS)
  }

  class MurMurHash3 {
    var h1: bv64
    var h2: bv64
    const block: array<Byte>
    var blockByteIndex: nat
    var byteCount: Size
    ghost var fed: seq<Byte>

    /** The state is the fold over the complete blocks fed so far, and the buffer holds the remainder. */
    ghost predicate Valid()
      reads this, block
    {
      && block.Length == BLOCK_LENGTH
      && blockByteIndex == |fed| % BLOCK_LENGTH
      && State(h1, h2) == Blocks(START, fed)
      && block[..blockByteIndex] == Rest(fed)
    }

    constructor ()
      ensures Valid() && fresh(block) && fed == [] && byteCount == 0
    {
      block := new Byte[BLOCK_LENGTH];
      h1, h2 := START.h1, START.h2;
      blockByteIndex, byteCount, fed := 0, 0, [];
    }

    constructor Copy(other: MurMurHash3)
      requires other.Valid()
      ensures Valid() && fresh(block) && fed == other.fed && byteCount == other.byteCount
    {
      hide BlockStep, Word, Blocks, Rest;
      block := new Byte[BLOCK_LENGTH];
      h1, h2 := other.h1, other.h2;
      blockByteIndex, byteCount, fed := other.blockByteIndex, other.byteCount, other.fed;
      new;
      forall i | 0 <= i < BLOCK_LENGTH {
        block[i] := other.block[i];
      }
      assert block[..blockByteIndex] == other.block[..blockByteIndex];
    }

    method Reset()
      requires block.Length == BLOCK_LENGTH
      modifies this
      ensures Valid() && fed == [] && byteCount == 0
    {
      h1, h2 := 0x6745230198BADCFE, 0xEFCDAB8910325476;
      blockByteIndex, byteCount, fed := 0, 0, [];
    }

    method ProcessByte(octet: Byte)
      requires Valid()
      modifies this, block
      ensures Valid() && fed == old(fed) + [octet] && byteCount == (old(byteCount) + 1) % SIZE_MODULUS
    {
      hide BlockStep, Word;
      block[blockByteIndex] := octet;
      blockByteIndex := blockByteIndex + 1;
      byteCount := (byteCount + 1) % SIZE_MODULUS;
      fed := fed + [octet];
      RestGrows(old(fed), octet);
      if blockByteIndex == BLOCK_LENGTH {
        ghost var full := Rest(old(fed)) + [octet];
        assert block[..] == full && block[..8] == full[..8] && block[8..] == full[8..];
        blockByteIndex := 0;
        ProcessBlock();
        assert block[..0] == [] == Rest(fed);
      }
    }

    /** Mixes the full buffer into the state. */
    method ProcessBlock()
      requires block.Length == BLOCK_LENGTH
      modifies this`h1, this`h2
      ensures State(h1, h2) == BlockStep(old(State(h1, h2)), Word(block[..8]), Word(block[8..]))
    {
      hide Word, MulC1, MulC2, Rotl, Affine1, Affine2, Xor, Plus;
      var k1 := Word(block[..8]);
      var k2 := Word(block[8..]);

      k1 := MulC1(k1);
      k1 := Rotl(k1, 31);
      k1 := MulC2(k1);
      h1 := Xor(h1, k1);

      h1 := Rotl(h1, 27);
      h1 := Plus(h1, h2);
      h1 := Affine1(h1);

      k2 := MulC2(k2);
      k2 := Rotl(k2, 33);
      k2 := MulC1(k2);
      h2 := Xor(h2, k2);

      h2 := Rotl(h2, 31);
      h2 := Plus(h2, h1);
      h2 := Affine2(h2);
    }

    /** The upper half of the switch that falls through: buffered bytes 14 down to 8. */
    method UpperTail(n: nat) returns (k2: bv64)
      requires block.Length == BLOCK_LENGTH && n < BLOCK_LENGTH
      ensures k2 == if n <= 8 then 0 else Word(block[8..n])
    {
      hide Xor, Place;
      k2 := 0;
      ghost var bytes := if n <= 8 then [] else block[8..n];
      if n >= 15 { k2 := Xor(k2, Place(block[14], 6)); }
      if n >= 14 { k2 := Xor(k2, Place(block[13], 5)); }
      if n >= 13 { k2 := Xor(k2, Place(block[12], 4)); }
      if n >= 12 { k2 := Xor(k2, Place(block[11], 3)); }
      if n >= 11 { k2 := Xor(k2, Place(block[10], 2)); }
      if n >= 10 { k2 := Xor(k2, Place(block[9], 1)); }
      if n >= 9 { k2 := Xor(k2, Place(block[8], 0)); }
      assert k2 == Word(bytes);
    }

    /** Its lower half: buffered bytes 7 down to 0. */
    method LowerTail(n: nat) returns (k1: bv64)
      requires block.Length == BLOCK_LENGTH && n < BLOCK_LENGTH
      ensures k1 == Word(block[..if n < 8 then n else 8])
    {
      hide Xor, Place;
      k1 := 0;
      ghost var bytes := block[..if n < 8 then n else 8];
      if n >= 8 { k1 := Xor(k1, Place(block[7], 7)); }
      if n >= 7 { k1 := Xor(k1, Place(block[6], 6)); }
      if n >= 6 { k1 := Xor(k1, Place(block[5], 5)); }
      if n >= 5 { k1 := Xor(k1, Place(block[4], 4)); }
      if n >= 4 { k1 := Xor(k1, Place(block[3], 3)); }
      if n >= 3 { k1 := Xor(k1, Place(block[2], 2)); }
      if n >= 2 { k1 := Xor(k1, Place(block[1], 1)); }
      if n >= 1 { k1 := Xor(k1, Place(block[0], 0)); }
      assert k1 == Word(bytes);
    }

    /** Mixes the remainder into the state; words without bytes are not mixed at all. */
    method MixTail()
      requires Valid()
      modifies this`h1, this`h2
      ensures State(h1, h2) == Tail(old(State(h1, h2)), Rest(fed))
    {
      hide Word, MulC1, MulC2, Rotl, Xor, Plus, Blocks;
      TailWords(State(h1, h2), Rest(fed), block[..]);
      var n := blockByteIndex;
      var k2 := UpperTail(n);
      if n >= 9 {
        k2 := MulC2(k2);
        k2 := Rotl(k2, 33);
        k2 := MulC1(k2);
        h2 := Xor(h2, k2);
      }
      var k1 := LowerTail(n);
      if n >= 1 {
        k1 := MulC1(k1);
        k1 := Rotl(k1, 31);
        k1 := MulC2(k1);
        h1 := Xor(h1, k1);
      }
    }

    /** Mixes the remainder and the byte count into the state, which is then no longer usable. */
    method Finalize() returns (digest: State, count: nat)
      requires Valid()
      modifies this`h1, this`h2
      ensures digest == OneShot(fed, byteCount) && count == byteCount % UINT32_MODULUS
    {
      hide Tail, Rest, Xor, Plus, Fmix64, CountWord;
      MixTail();

      h1 := Xor(h1, CountWord(byteCount));
      h2 := Xor(h2, CountWord(byteCount));

      h1 := Plus(h1, h2);
      h2 := Plus(h2, h1);

      h1 := Fmix64(h1);
      h2 := Fmix64(h2);

      h1 := Plus(h1, h2);
      h2 := Plus(h2, h1);

      digest, count := State(h1, h2), byteCount % UINT32_MODULUS;
    }

    /** Adds bytes to the hash. */
    method Update(data: seq<Byte>)
      requires Valid()
      modifies this, block
      ensures Valid() && fed == old(fed) + data && byteCount == (old(byteCount) + |data|) % SIZE_MODULUS
    {
      hide Valid;
      var i := 0;
      while i < |data|
        invariant 0 <= i <= |data|
        invariant Valid() && fed == old(fed) + data[..i] && byteCount == (old(byteCount) + i) % SIZE_MODULUS
      {
        ProcessByte(data[i]);
        assert data[..i + 1] == data[..i] + [data[i]];
        i := i + 1;
      }
      assert data[..i] == data;
    }

    /** The digest so far; works on a copy. */
    method Final() returns (digest: State)
      requires Valid()
      ensures digest == OneShot(fed, byteCount)
    {
      hide Blocks, Rest, OneShot;
      var copy := new MurMurHash3.Copy(this);
      var count;
      digest, count := copy.Finalize();
    }
  }

  function Joined(parts: seq<seq<Byte>>): seq<Byte> {
    if parts == [] then [] else Joined(parts[..|parts| - 1]) + parts[|parts| - 1]
  }

  lemma JoinedGrows(parts: seq<seq<Byte>>)
    ensures Joined(parts[..0]) == []
    ensures forall i :: 0 <= i < |parts| ==> Joined(parts[..i + 1]) == Joined(parts[..i]) + parts[i]
  {
    forall i | 0 <= i < |parts|
      ensures Joined(parts[..i + 1]) == Joined(parts[..i]) + parts[i]
    {
      assert parts[..i + 1][..i] == parts[..i];
    }
  }

  /** However a message is split into updates, and although a digest is taken after each of them, every digest is
      the one of the message so far. */
  method DigestsOfParts(parts: seq<seq<Byte>>) returns (digests: seq<State>)
    ensures |digests| == |parts|
    ensures forall i :: 0 <= i < |parts| ==> digests[i] == Digest(Joined(parts[..i + 1]))
  {
    hide OneShot, Joined, MurMurHash3.Valid;
    JoinedGrows(parts);
    var hash := new MurMurHash3();
    digests := [];
    var i := 0;
    while i < |parts|
      invariant 0 <= i <= |parts| && |digests| == i
      invariant fresh(hash) && fresh(hash.block) && hash.Valid()
      invariant hash.fed == Joined(parts[..i]) && hash.byteCount == |hash.fed| % SIZE_MODULUS
      invariant forall j :: 0 <= j < i ==> digests[j] == Digest(Joined(parts[..j + 1]))
    {
      hash.Update(parts[i]);
      var digest := hash.Final();
      digests := digests + [digest];
      i := i + 1;
    }
  }

  /** The tail in terms of the buffer: words without bytes can be left out. */
  lemma TailWords(s: State, rest: seq<Byte>, block: seq<Byte>)
    requires |rest| < BLOCK_LENGTH == |block| && block[..|rest|] == rest
    ensures var n := |rest|;
            && Tail(s, rest).h2 == (if n >= 9 then Xor(s.h2, Mix2(Word(block[8..n]))) else s.h2)
            && Tail(s, rest).h1 == (if n >= 1 then Xor(s.h1, Mix1(Word(block[..if n < 8 then n else 8]))) else s.h1)
  {
    UpperTailWord(s.h2, rest, block);
    LowerTailWord(s.h1, rest, block);
  }

  lemma UpperTailWord(h2: bv64, rest: seq<Byte>, block: seq<Byte>)
    requires |rest| < BLOCK_LENGTH == |block| && block[..|rest|] == rest
    ensures Xor(h2, Mix2(Word(ZeroPadded(rest)[8..])))
         == if |rest| >= 9 then Xor(h2, Mix2(Word(block[8..|rest|]))) else h2
  {
    hide Mix2, Xor;
    PaddedWords(rest);
    if |rest| >= 9 {
      assert block[8..|rest|] == rest[8..];
    } else {
      assert rest[if |rest| < 8 then |rest| else 8..] == [];
      XorMixOfZero(0, h2);
    }
  }

  lemma LowerTailWord(h1: bv64, rest: seq<Byte>, block: seq<Byte>)
    requires |rest| < BLOCK_LENGTH == |block| && block[..|rest|] == rest
    ensures var n := if |rest| < 8 then |rest| else 8;
            Xor(h1, Mix1(Word(ZeroPadded(rest)[..8]))) == if n >= 1 then Xor(h1, Mix1(Word(block[..n]))) else h1
  {
    hide Mix1, Xor;
    PaddedWords(rest);
    var n := if |rest| < 8 then |rest| else 8;
    assert block[..n] == rest[..n];
    if n == 0 {
      assert rest[..0] == [];
      XorMixOfZero(h1, 0);
    }
  }

  lemma XorMixOfZero(h1: bv64, h2: bv64)
    ensures Xor(h1, Mix1(0)) == h1 && Xor(h2, Mix2(0)) == h2
  {
    MixOfZero();
  }

  /** Padding with zeros does not change the words of a remainder. */
  lemma PaddedWords(rest: seq<Byte>)
    requires |rest| < BLOCK_LENGTH
    ensures var n := if |rest| < 8 then |rest| else 8;
            && Word(ZeroPadded(rest)[..8]) == Word(rest[..n])
            && Word(ZeroPadded(rest)[8..]) == Word(rest[n..])
  {
    var n := if |rest| < 8 then |rest| else 8;
    PaddedWordFrom(rest[..n], ZeroPadded(rest)[..8], 0);
    PaddedWordFrom(rest[n..], ZeroPadded(rest)[8..], 0);
  }

  lemma {:induction false} PaddedWordFrom(b: seq<Byte>, padded: seq<Byte>, i: nat)
    requires |b| <= |padded| == 8
    requires forall j :: 0 <= j < 8 ==> padded[j] == if j < |b| then b[j] else 0
    ensures WordFrom(padded, i) == WordFrom(b, i)
    decreases 8 - i
  {
    if i < 8 {
      PaddedWordFrom(b, padded, i + 1);
      if i >= |b| {
        PlaceOfZero(i);
      }
    }
  }

  lemma PlaceOfZero(i: nat)
    requires i < 8
    ensures Place(0, i) == 0 && Xor(0, 0) == 0
  {
  }

  /** One more byte either grows the remainder or completes a block. */
  lemma RestGrows(fed: seq<Byte>, octet: Byte)
    ensures (|fed| + 1) % BLOCK_LENGTH == if |Rest(fed)| + 1 == BLOCK_LENGTH then 0 else |Rest(fed)| + 1
    ensures |Rest(fed)| + 1 < BLOCK_LENGTH ==>
              Rest(fed + [octet]) == Rest(fed) + [octet] && Blocks(START, fed + [octet]) == Blocks(START, fed)
    ensures |Rest(fed)| + 1 == BLOCK_LENGTH ==>
              var b := Rest(fed) + [octet];
              Blocks(START, fed + [octet]) == BlockStep(Blocks(START, fed), Word(b[..8]), Word(b[8..]))
  {
    hide BlockStep, Word, Blocks;
    BlocksOfPrefix(START, fed, [octet]);
    var b := Rest(fed) + [octet];
    if |b| == BLOCK_LENGTH {
      LastBlock(Blocks(START, fed), b, Word(b[..8]), Word(b[8..]));
    } else {
      NoBlock(Blocks(START, fed), b);
    }
  }

  lemma LastBlock(s: State, b: seq<Byte>, k1: bv64, k2: bv64)
    requires |b| == BLOCK_LENGTH && k1 == Word(b[..8]) && k2 == Word(b[8..])
    ensures Blocks(s, b) == BlockStep(s, k1, k2)
  {
    hide BlockStep, Word;
    assert b[8..16] == b[8..] && b[16..] == [];
    var t := BlockStep(s, k1, k2);
    assert Blocks(t, []) == t;
  }

  lemma NoBlock(s: State, b: seq<Byte>)
    requires |b| < BLOCK_LENGTH
    ensures Blocks(s, b) == s
  {
    hide BlockStep, Word;
  }

  /** Appending to a message of which `|Rest(a)|` bytes still wait for a block. */
  lemma {:induction false} BlocksOfPrefix(s: State, a: seq<Byte>, b: seq<Byte>)
    ensures Blocks(s, a + b) == Blocks(Blocks(s, a), Rest(a) + b)
    decreases |a|
  {
    hide BlockStep, Word;
    if |a| < BLOCK_LENGTH {
      assert Rest(a) == a;
    } else {
      var t := BlockStep(s, Word(a[..8]), Word(a[8..16]));
      BlocksOfPrefix(t, a[BLOCK_LENGTH..], b);
      assert (a + b)[..8] == a[..8] && (a + b)[8..16] == a[8..16];
      assert (a + b)[BLOCK_LENGTH..] == a[BLOCK_LENGTH..] + b;
      assert Rest(a[BLOCK_LENGTH..]) == Rest(a);
    }
  }
}
