/** Literal digests: they fix the start state, every constant and rotation, and the part of the byte count. */
module MurmurExamples {
  import opened MachineNumbers
  import opened MurmurMixing
  import opened Murmur

  lemma FinalMixes()
    ensures Finish(START, 0) == State(0xacff35713db0d241, 0x0ba1fa304caf28e0)
    ensures Finish(START, 1) == State(0xb805fba24309e802, 0xfdd6af7933aa5210)
    ensures Finish(State(0x87de45959bae0483, 0x469555b78fc5157f), 31) == State(0x3a71fbbb046b0256, 0x9bbc1c3851797fce)
  {
  }

  lemma Mixes()
    ensures Mix1(0x0807060504030201) == 0x84912ea0966db987 && Mix2(0x100f0e0d0c0b0a09) == 0x1c70dd70c03cdcd6
    ensures Mix1(0x1817161514131211) == 0x5e88441d34dfab1b && Mix2(0x001f1e1d1c1b1a19) == 0x80470889891e6766
  {
  }

  lemma StepsOfSample()
    ensures Xor(0x6745230198badcfe, 0x84912ea0966db987) == 0xe3d40da10ed76579
    ensures Rotl(0xe3d40da10ed76579, 27) == 0x0876bb2bcf1ea06d
    ensures Plus(0x0876bb2bcf1ea06d, 0xefcdab8910325476) == 0xf84466b4df50f4e3
    ensures Affine1(0xf84466b4df50f4e3) == 0xd9560188af71af98
    ensures Xor(0xefcdab8910325476, 0x1c70dd70c03cdcd6) == 0xf3bd76f9d00e88a0
    ensures Rotl(0xf3bd76f9d00e88a0, 31) == 0xe807445079debb7c
    ensures Plus(0xe807445079debb7c, 0xd9560188af71af98) == 0xc15d45d929506b14
    ensures Affine2(0xc15d45d929506b14) == 0xc6d25d3e06db7219
  {
  }

  lemma BlockOfSample()
    ensures BlockStep(START, 0x0807060504030201, 0x100f0e0d0c0b0a09) == State(0xd9560188af71af98, 0xc6d25d3e06db7219)
  {
    hide Mix1, Mix2, Xor, Plus, Rotl, Affine1, Affine2;
    Mixes();
    StepsOfSample();
  }

  /** Eight bytes as a word. */
  lemma WordOfEight(b: seq<Byte>)
    requires |b| == 8
    ensures Word(b) == Xor(Xor(Xor(Xor(Xor(Xor(Xor(Xor(0, Place(b[7], 7)), Place(b[6], 6)), Place(b[5], 5)),
                           Place(b[4], 4)), Place(b[3], 3)), Place(b[2], 2)), Place(b[1], 1)), Place(b[0], 0))
  {
    hide Xor, Place;
  }

  lemma Words()
    ensures Word([1, 2, 3, 4, 5, 6, 7, 8]) == 0x0807060504030201
    ensures Word([9, 10, 11, 12, 13, 14, 15, 16]) == 0x100f0e0d0c0b0a09
    ensures Word([17, 18, 19, 20, 21, 22, 23, 24]) == 0x1817161514131211
    ensures Word([25, 26, 27, 28, 29, 30, 31, 0]) == 0x001f1e1d1c1b1a19
  {
    hide Word;
    WordOfEight([1, 2, 3, 4, 5, 6, 7, 8]);
    WordOfEight([9, 10, 11, 12, 13, 14, 15, 16]);
    WordOfEight([17, 18, 19, 20, 21, 22, 23, 24]);
    WordOfEight([25, 26, 27, 28, 29, 30, 31, 0]);
  }

  lemma Counts()
    ensures CountWord(0) == 0 && CountWord(1) == 1 && CountWord(31) == 31
  {
  }

  lemma SampleTail()
    ensures Xor(0xd9560188af71af98, 0x5e88441d34dfab1b) == 0x87de45959bae0483
    ensures Xor(0xc6d25d3e06db7219, 0x80470889891e6766) == 0x469555b78fc5157f
  {
  }

  /** A full block and a remainder that reaches into its second word. */
  lemma DigestOfSample()
    ensures Digest([1, 2, 3, 4, 5, 6, 7, 8] + [9, 10, 11, 12, 13, 14, 15, 16] + [17, 18, 19, 20, 21, 22, 23, 24]
                   + [25, 26, 27, 28, 29, 30, 31]) == State(0x3a71fbbb046b0256, 0x9bbc1c3851797fce)
  {
    hide Word, BlockStep, Finish, Mix1, Mix2, CountWord, Xor;
    Words();
    Mixes();
    BlockOfSample();
    SampleTail();
    Counts();
    FinalMixes();
    var w, x: seq<Byte>, y, z := [1, 2, 3, 4, 5, 6, 7, 8], [9, 10, 11, 12, 13, 14, 15, 16],
                                 [17, 18, 19, 20, 21, 22, 23, 24], [25, 26, 27, 28, 29, 30, 31];
    TwoParts(w, x, y, z);
    assert z + [0] == [25, 26, 27, 28, 29, 30, 31, 0];
  }

  /** The digest of a block and a remainder, word by word. */
  lemma TwoParts(w: seq<Byte>, x: seq<Byte>, y: seq<Byte>, z: seq<Byte>)
    requires |w| == |x| == |y| == 8 && |z| == 7
    ensures var s := BlockStep(START, Word(w), Word(x));
            Digest(w + x + y + z)
            == Finish(State(Xor(s.h1, Mix1(Word(y))), Xor(s.h2, Mix2(Word(z + [0])))), CountWord(31))
  {
    hide Word, BlockStep, Finish, Mix1, Mix2, CountWord, Xor;
    var m := w + x + y + z;
    var rest := m[16..];
    assert m[..8] == w && m[8..16] == x && rest == y + z && Rest(m) == rest;
    NoBlock(BlockStep(START, Word(w), Word(x)), rest);
    assert ZeroPadded(rest)[..8] == y && ZeroPadded(rest)[8..] == z + [0];
  }

  /** Nothing and a zero byte leave the state as it was; only the count tells them apart. */
  lemma DigestsOfZeros()
    ensures Digest([]) == State(0xacff35713db0d241, 0x0ba1fa304caf28e0)
    ensures Digest([0]) == State(0xb805fba24309e802, 0xfdd6af7933aa5210)
  {
    hide Finish, Blocks, Rest, Tail, CountWord;
    FinalMixes();
    Counts();
    TailOfZeros([]);
    TailOfZeros([0]);
  }

  lemma TailOfZeros(rest: seq<Byte>)
    requires rest == [] || rest == [0]
    ensures Blocks(START, rest) == START && Rest(rest) == rest && Tail(START, rest) == START
  {
    hide Mix1, Mix2, Xor;
    PaddedWords(rest);
    PlaceOfZero(0);
    XorMixOfZero(START.h1, START.h2);
    assert rest[..|rest|] == rest && rest[|rest|..] == [];
    assert Word([]) == 0 && Word([0]) == 0;
  }
}
