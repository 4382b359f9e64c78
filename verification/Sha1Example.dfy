/** The digest of the message "abc", an example of the standard, worked out from the definitions. It fixes the order of
    the words and bytes, the schedule, every round function and constant, and the additions. */
module Sha1Example {
  import opened MachineNumbers
  import opened Sha1Standard

  /** The padded message. */
  ghost predicate IsPaddedAbc(b: seq<Byte>) {
    b == [0x61, 0x62, 0x63, 0x80] + Zeros(59) + [0x18]
  }

  lemma FirstWords(b: seq<Byte>)
    requires IsPaddedAbc(b)
    ensures W(b, 0) == 0x61626380 && W(b, 15) == 0x18 && forall t :: 1 <= t < 15 ==> W(b, t) == 0
  {
  }

  lemma RoundsTo10(b: seq<Byte>)
    requires IsPaddedAbc(b)
    ensures Rounds(INITIAL, b, 10) == Chain(0x8351f929, 0x4b6ae328, 0x27a301f5, 0x664f8c30, 0x0ff1f290)
  {
    FirstWords(b);
  }

  lemma RoundsTo20(b: seq<Byte>)
    requires IsPaddedAbc(b)
    ensures Rounds(INITIAL, b, 20) == Chain(0xfd9e1d7d, 0xdc64901d, 0x20aa99ca, 0xd3a49608, 0xc82f758b)
  {
    RoundsTo10(b);
    FirstWords(b);
  }

  lemma RoundsTo30(b: seq<Byte>)
    requires IsPaddedAbc(b)
    ensures Rounds(INITIAL, b, 30) == Chain(0xc5fbaf5d, 0x8370b52e, 0xd2aa1365, 0x6f8d7ef5, 0x12104ee9)
  {
    RoundsTo20(b);
    FirstWords(b);
  }

  lemma RoundsTo40(b: seq<Byte>)
    requires IsPaddedAbc(b)
    ensures Rounds(INITIAL, b, 40) == Chain(0x32de1cba, 0x4c986405, 0xf718e5cf, 0x03d447f6, 0xf72eec32)
  {
    RoundsTo30(b);
    FirstWords(b);
  }

  lemma RoundsTo50(b: seq<Byte>)
    requires IsPaddedAbc(b)
    ensures Rounds(INITIAL, b, 50) == Chain(0x120731c5, 0xbaf39337, 0xafab40b2, 0x2806e11b, 0x8714787c)
  {
    RoundsTo40(b);
    FirstWords(b);
  }

  lemma RoundsTo60(b: seq<Byte>)
    requires IsPaddedAbc(b)
    ensures Rounds(INITIAL, b, 60) == Chain(0x3f52de5a, 0x09d785fd, 0x3498bfd4, 0xf211824f, 0xd79915ab)
  {
    RoundsTo50(b);
    FirstWords(b);
  }

  lemma RoundsTo70(b: seq<Byte>)
    requires IsPaddedAbc(b)
    ensures Rounds(INITIAL, b, 70) == Chain(0x3f2588c2, 0x497093c0, 0xde37534a, 0x030f7cad, 0x4405957e)
  {
    RoundsTo60(b);
    FirstWords(b);
  }

  lemma RoundsTo80(b: seq<Byte>)
    requires IsPaddedAbc(b)
    ensures Rounds(INITIAL, b, 80) == Chain(0x42541b35, 0x5738d5e1, 0x21834873, 0x681e6df6, 0xd8fdf6ad)
  {
    RoundsTo70(b);
    FirstWords(b);
  }

  lemma PaddedAbc()
    ensures IsPaddedAbc([0x61, 0x62, 0x63] + Padding(3))
  {
    hide ByteOf;
    LengthBytes();
    assert Padding(3) == [0x80] + Zeros(52) + BigEndian(24, 8);
    assert Zeros(59) == Zeros(52) + Zeros(7);
  }

  lemma LengthBytes()
    ensures BigEndian(24, 8) == Zeros(7) + [0x18]
  {
    assert ByteOf(24, 0) == 0x18;
    assert BigEndian(24, 1) == [0x18];
    SmallBigEndian(24, 8);
  }

  /** A number below 256 has only its last byte. */
  lemma {:induction false} SmallBigEndian(n: nat, width: nat)
    requires n < 256 && width >= 1
    ensures BigEndian(n, width) == Zeros(width - 1) + BigEndian(n, 1)
  {
    if width == 1 {
      assert Zeros(0) == [];
    } else {
      SmallBigEndian(n, width - 1);
      NoHighByte(n, width - 1);
      assert Zeros(width - 1) == [0] + Zeros(width - 2);
    }
  }

  lemma {:induction false} NoHighByte(n: nat, place: nat)
    requires n < 256 && place >= 1
    ensures n < Power256(place) && ByteOf(n, place) == 0
  {
    if place > 1 {
      NoHighByte(n, place - 1);
    }
    QuotientIs(n, Power256(place), 0, n);
  }

  lemma DigestOfAbc()
    ensures Sha1([0x61, 0x62, 0x63]) == Chain(0xa9993e36, 0x4706816a, 0xba3e2571, 0x7850c26c, 0x9cd0d89d)
  {
    hide Rounds, Padding;
    PaddedAbc();
    var b := [0x61, 0x62, 0x63] + Padding(3);
    RoundsTo80(b);
    assert |b| == BLOCK_LENGTH && b[..BLOCK_LENGTH] == b && b[BLOCK_LENGTH..] == [];
    assert Blocks(Compress(INITIAL, b), []) == Compress(INITIAL, b);
  }
}
