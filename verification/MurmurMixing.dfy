/** The word arithmetic of MurmurHash3 x64-128 as clang-plugin/MurMurHash3.h writes it, and its inverses.
    Multiplication by an odd constant is undone by multiplication with the inverse modulo 2^64. */
module MurmurMixing {

  function Rotl(x: bv64, r: nat): bv64
    requires 0 < r < 64
  {
    (x << r) | (x >> (64 - r))
  }

  function Xor(x: bv64, y: bv64): bv64 { x ^ y }
  function Plus(x: bv64, y: bv64): bv64 { x + y }

  function MulC1(k: bv64): bv64 { k * 0x87c37b91114253d5 }
  function DivC1(k: bv64): bv64 { k * 0xa98409e882ce4d7d }
  function MulC2(k: bv64): bv64 { k * 0x4cf5ad432745937f }
  function DivC2(k: bv64): bv64 { k * 0xa81e14edd9de2c7f }
  function MulF1(k: bv64): bv64 { k * 0xff51afd7ed558ccd }
  function DivF1(k: bv64): bv64 { k * 0x4f74430c22a54005 }
  function MulF2(k: bv64): bv64 { k * 0xc4ceb9fe1a85ec53 }
  function DivF2(k: bv64): bv64 { k * 0x9cb4b2f8129337db }

  /** The affine steps that end the two halves of a block. */
  function Affine1(h: bv64): bv64 { h * 5 + 0x52dce729 }
  function Unaffine1(h: bv64): bv64 { (h - 0x52dce729) * 0xcccccccccccccccd }
  function Affine2(h: bv64): bv64 { h * 5 + 0x38495ab5 }
  function Unaffine2(h: bv64): bv64 { (h - 0x38495ab5) * 0xcccccccccccccccd }

  function XorShift(k: bv64): bv64 { k ^ (k >> 33) }

  /** What happens to the first and the second word of a block before it meets the state. */
  function Mix1(k: bv64): bv64 { MulC2(Rotl(MulC1(k), 31)) }
  function Unmix1(k: bv64): bv64 { DivC1(Rotl(DivC2(k), 33)) }
  function Mix2(k: bv64): bv64 { MulC1(Rotl(MulC2(k), 33)) }
  function Unmix2(k: bv64): bv64 { DivC2(Rotl(DivC1(k), 31)) }

  function Fmix64(k: bv64): bv64 { XorShift(MulF2(XorShift(MulF1(XorShift(k))))) }
  function Unfmix64(k: bv64): bv64 { XorShift(DivF1(XorShift(DivF2(XorShift(k))))) }

  // The assertions name the inner product as the argument of the outer function, so that unfolding
  // the outer function yields a product of two constants.

  lemma ProductsCancel(k: bv64)
    ensures DivC1(MulC1(k)) == k && MulC1(DivC1(k)) == k
    ensures DivC2(MulC2(k)) == k && MulC2(DivC2(k)) == k
  {
    assert DivC1(k * 0x87c37b91114253d5) == k && MulC1(k * 0xa98409e882ce4d7d) == k;
    assert DivC2(k * 0x4cf5ad432745937f) == k && MulC2(k * 0xa81e14edd9de2c7f) == k;
  }

  lemma FinalProductsCancel(k: bv64)
    ensures DivF1(MulF1(k)) == k && MulF1(DivF1(k)) == k
    ensures DivF2(MulF2(k)) == k && MulF2(DivF2(k)) == k
  {
    assert DivF1(k * 0xff51afd7ed558ccd) == k && MulF1(k * 0x4f74430c22a54005) == k;
    assert DivF2(k * 0xc4ceb9fe1a85ec53) == k && MulF2(k * 0x9cb4b2f8129337db) == k;
  }

  lemma AffineCancels(h: bv64)
    ensures Unaffine1(Affine1(h)) == h && Affine1(Unaffine1(h)) == h
    ensures Unaffine2(Affine2(h)) == h && Affine2(Unaffine2(h)) == h
  {
    assert Unaffine1(h * 5 + 0x52dce729) == h && Affine1((h - 0x52dce729) * 0xcccccccccccccccd) == h;
    assert Unaffine2(h * 5 + 0x38495ab5) == h && Affine2((h - 0x38495ab5) * 0xcccccccccccccccd) == h;
  }

  lemma XorShiftTwice(k: bv64)
    ensures XorShift(XorShift(k)) == k
  {
    assert XorShift(k ^ (k >> 33)) == k;
  }

  lemma RotationsCancel(x: bv64)
    ensures Rotl(Rotl(x, 31), 33) == x && Rotl(Rotl(x, 33), 31) == x
    ensures Rotl(Rotl(x, 27), 37) == x && Rotl(Rotl(x, 37), 27) == x
  {
    assert Rotl((x << 31) | (x >> 33), 33) == x && Rotl((x << 33) | (x >> 31), 31) == x;
    assert Rotl((x << 27) | (x >> 37), 37) == x && Rotl((x << 37) | (x >> 27), 27) == x;
  }

  lemma Mix1Inverse(k: bv64)
    ensures Unmix1(Mix1(k)) == k && Mix1(Unmix1(k)) == k
  {
    ProductsCancel(k);
    ProductsCancel(Rotl(MulC1(k), 31));
    RotationsCancel(MulC1(k));
    RotationsCancel(DivC2(k));
    ProductsCancel(Rotl(DivC2(k), 33));
  }

  lemma Mix2Inverse(k: bv64)
    ensures Unmix2(Mix2(k)) == k && Mix2(Unmix2(k)) == k
  {
    ProductsCancel(k);
    ProductsCancel(Rotl(MulC2(k), 33));
    RotationsCancel(MulC2(k));
    RotationsCancel(DivC1(k));
    ProductsCancel(Rotl(DivC1(k), 31));
  }

  lemma Fmix64Inverse(k: bv64)
    ensures Unfmix64(Fmix64(k)) == k && Fmix64(Unfmix64(k)) == k
  {
    var a := XorShift(k);
    var b := XorShift(MulF1(a));
    XorShiftTwice(k);
    FinalProductsCancel(a);
    XorShiftTwice(MulF1(a));
    FinalProductsCancel(b);
    XorShiftTwice(MulF2(b));
    var c := XorShift(DivF2(a));
    XorShiftTwice(DivF2(a));
    FinalProductsCancel(c);
    XorShiftTwice(DivF1(c));
  }

  lemma MixOfZero()
    ensures Mix1(0) == 0 && Mix2(0) == 0
  {
    assert MulC1(0) == 0 && MulC2(0) == 0 && Rotl(0, 31) == 0 && Rotl(0, 33) == 0;
  }
}
