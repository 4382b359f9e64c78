/** The hash as a bijection: every step can be undone, so messages of equal length that differ only inside
    one block, or only inside the remainder, never collide. */
module MurmurInjective {
  import opened MurmurMixing
  import opened MachineNumbers
  import opened Murmur

  function Minus(x: bv64, y: bv64): bv64 { x - y }

  lemma MinusUndoesPlus(x: bv64, y: bv64)
    ensures Minus(Plus(x, y), y) == x
  {
    assert Minus(x + y, y) == x;
  }

  lemma PlusUndoesMinus(x: bv64, y: bv64)
    ensures Plus(Minus(x, y), y) == x
  {
    assert Plus(x - y, y) == x;
  }

  lemma XorCancels(x: bv64, y: bv64)
    ensures Xor(Xor(x, y), y) == x && Xor(Xor(x, y), x) == y && Xor(x, Xor(x, y)) == y
  {
    assert Xor(x ^ y, y) == x && Xor(x ^ y, x) == y && Xor(x, x ^ y) == y;
  }

  /** What the two rotated halves of a block step were before the affine steps. */
  function Peel1(t: State, h2: bv64): bv64 { Rotl(Minus(Unaffine1(t.h1), h2), 37) }
  function Peel2(t: State): bv64 { Rotl(Minus(Unaffine2(t.h2), t.h1), 33) }

  /** The state before a block, from the state after it and the block. */
  function BlockBack(t: State, k1: bv64, k2: bv64): State {
    var h2 := Xor(Peel2(t), Mix2(k2));
    State(Xor(Peel1(t, h2), Mix1(k1)), h2)
  }

  /** The block, from the states before and after it. */
  function BlockBetween(s: State, t: State): (bv64, bv64) {
    (Unmix1(Xor(s.h1, Peel1(t, s.h2))), Unmix2(Xor(s.h2, Peel2(t))))
  }

  lemma PeelStep(s: State, k1: bv64, k2: bv64)
    ensures var t := BlockStep(s, k1, k2);
            Peel1(t, s.h2) == Xor(s.h1, Mix1(k1)) && Peel2(t) == Xor(s.h2, Mix2(k2))
  {
    hide Xor, Plus, Minus, Rotl, Affine1, Affine2, Unaffine1, Unaffine2, Mix1, Mix2;
    var x1, x2 := Xor(s.h1, Mix1(k1)), Xor(s.h2, Mix2(k2));
    RotationsCancel(x1);
    RotationsCancel(x2);
    MinusUndoesPlus(Rotl(x1, 27), s.h2);
    AffineCancels(Plus(Rotl(x1, 27), s.h2));
    var t := BlockStep(s, k1, k2);
    MinusUndoesPlus(Rotl(x2, 31), t.h1);
    AffineCancels(Plus(Rotl(x2, 31), t.h1));
  }

  /** For a fixed block the step is a bijection of the state, with BlockBack as its inverse. */
  lemma BlockStepBijectiveInState(s: State, k1: bv64, k2: bv64)
    ensures BlockBack(BlockStep(s, k1, k2), k1, k2) == s
    ensures BlockStep(BlockBack(s, k1, k2), k1, k2) == s
  {
    PeelStep(s, k1, k2);
    hide Xor, Plus, Minus, Rotl, Affine1, Affine2, Unaffine1, Unaffine2, Mix1, Mix2;
    XorCancels(s.h1, Mix1(k1));
    XorCancels(s.h2, Mix2(k2));
    var b := BlockBack(s, k1, k2);
    XorCancels(Peel2(s), Mix2(k2));
    XorCancels(Peel1(s, b.h2), Mix1(k1));
    RotationsCancel(Minus(Unaffine1(s.h1), b.h2));
    RotationsCancel(Minus(Unaffine2(s.h2), s.h1));
    PlusUndoesMinus(Unaffine1(s.h1), b.h2);
    PlusUndoesMinus(Unaffine2(s.h2), s.h1);
    AffineCancels(s.h1);
    AffineCancels(s.h2);
  }

  /** For a fixed state the step is a bijection from blocks to states, with BlockBetween as its inverse. */
  lemma BlockStepBijectiveInBlock(s: State, t: State, k1: bv64, k2: bv64)
    ensures BlockBetween(s, BlockStep(s, k1, k2)) == (k1, k2)
    ensures var k := BlockBetween(s, t); BlockStep(s, k.0, k.1) == t
  {
    PeelStep(s, k1, k2);
    hide Xor, Plus, Minus, Rotl, Affine1, Affine2, Unaffine1, Unaffine2, Mix1, Mix2, Unmix1, Unmix2;
    XorCancels(s.h1, Mix1(k1));
    XorCancels(s.h2, Mix2(k2));
    Mix1Inverse(k1);
    Mix2Inverse(k2);
    Mix1Inverse(Xor(s.h1, Peel1(t, s.h2)));
    Mix2Inverse(Xor(s.h2, Peel2(t)));
    XorCancels(s.h1, Peel1(t, s.h2));
    XorCancels(s.h2, Peel2(t));
    RotationsCancel(Minus(Unaffine1(t.h1), s.h2));
    RotationsCancel(Minus(Unaffine2(t.h2), t.h1));
    PlusUndoesMinus(Unaffine1(t.h1), s.h2);
    PlusUndoesMinus(Unaffine2(t.h2), t.h1);
    AffineCancels(t.h1);
    AffineCancels(t.h2);
  }

  function Uncross(s: State): State {
    var h2 := Minus(s.h2, s.h1);
    State(Minus(s.h1, h2), h2)
  }

  lemma UncrossCross(s: State)
    ensures Uncross(CrossAdd(s)) == s
  {
    MinusUndoesPlus(s.h2, Plus(s.h1, s.h2));
    MinusUndoesPlus(s.h1, s.h2);
  }

  /** The state before the final mix, from the digest and the byte count. */
  function Unfinish(d: State, count: bv64): State {
    var t := Uncross(d);
    var s := Uncross(State(Unfmix64(t.h1), Unfmix64(t.h2)));
    State(Xor(s.h1, count), Xor(s.h2, count))
  }

  lemma FinishInverse(s: State, count: bv64)
    ensures Unfinish(Finish(s, count), count) == s
  {
    hide Xor, Plus, Minus, Fmix64, Unfmix64, CrossAdd, Uncross;
    XorCancels(s.h1, count);
    XorCancels(s.h2, count);
    var a := State(Xor(s.h1, count), Xor(s.h2, count));
    UncrossCross(a);
    var t := CrossAdd(a);
    Fmix64Inverse(t.h1);
    Fmix64Inverse(t.h2);
    UncrossCross(State(Fmix64(t.h1), Fmix64(t.h2)));
  }

  /** The byte count can be taken out of a digest again, and what is left is the state after the tail. */
  lemma CountComesOut(message: seq<Byte>, count: Size)
    ensures Unfinish(OneShot(message, count), count as bv64) == Tail(Blocks(START, message), Rest(message))
  {
    hide Finish, Tail, Blocks, Unfinish;
    FinishInverse(Tail(Blocks(START, message), Rest(message)), count as bv64);
  }

  lemma FinishInjectiveInCount(s: State, x: bv64, y: bv64)
    requires Finish(s, x) == Finish(s, y)
    ensures x == y
  {
    hide Xor, Plus, Minus, Fmix64, Unfmix64, CrossAdd, Uncross;
    var a, b := State(Xor(s.h1, x), Xor(s.h2, x)), State(Xor(s.h1, y), Xor(s.h2, y));
    var t, u := CrossAdd(a), CrossAdd(b);
    UncrossCross(State(Fmix64(t.h1), Fmix64(t.h2)));
    UncrossCross(State(Fmix64(u.h1), Fmix64(u.h2)));
    Fmix64Inverse(t.h1);
    Fmix64Inverse(t.h2);
    Fmix64Inverse(u.h1);
    Fmix64Inverse(u.h2);
    UncrossCross(a);
    UncrossCross(b);
    XorCancels(s.h1, x);
    XorCancels(s.h1, y);
  }

  /** A digest depends on the byte count: different counts give different digests of the same bytes. */
  lemma CountShows(message: seq<Byte>, count: Size, other: Size)
    ensures OneShot(message, count) == OneShot(message, other) <==> count == other
  {
    hide Finish, Tail, Blocks, CountWord;
    if OneShot(message, count) == OneShot(message, other) {
      FinishInjectiveInCount(Tail(Blocks(START, message), Rest(message)), CountWord(count), CountWord(other));
      CountWordReadsBack(count);
      CountWordReadsBack(other);
    }
  }

  lemma CountWordReadsBack(count: Size)
    ensures CountWord(count) as nat == count
  {
    assert count % SIZE_MODULUS == count;
    var w := count as bv64;
    var n := w as int;
    assert 0 <= n < SIZE_MODULUS;
    assert n as bv64 == w;
  }

  lemma {:induction false} BlocksInjectiveInState(s: State, t: State, bytes: seq<Byte>)
    requires Blocks(s, bytes) == Blocks(t, bytes)
    ensures s == t
    decreases |bytes|
  {
    hide BlockStep, Word;
    if |bytes| >= BLOCK_LENGTH {
      var k1, k2 := Word(bytes[..8]), Word(bytes[8..16]);
      BlocksInjectiveInState(BlockStep(s, k1, k2), BlockStep(t, k1, k2), bytes[BLOCK_LENGTH..]);
      BlockStepBijectiveInState(s, k1, k2);
      BlockStepBijectiveInState(t, k1, k2);
    }
  }

  /** The places below `i`. */
  function Below(i: nat): bv64 {
    if i == 0 then 0
    else if i == 1 then 0xff
    else if i == 2 then 0xffff
    else if i == 3 then 0xffffff
    else if i == 4 then 0xffffffff
    else if i == 5 then 0xffffffffff
    else if i == 6 then 0xffffffffffff
    else if i == 7 then 0xffffffffffffff
    else 0xffffffffffffffff
  }

  function And(x: bv64, y: bv64): bv64 { x & y }
  function Not(x: bv64): bv64 { !x }

  lemma DisjointXor(x: bv64, y: bv64, p: bv64, q: bv64, mask: bv64)
    requires And(x, mask) == 0 && And(y, mask) == 0 && And(p, Not(mask)) == 0 && And(q, Not(mask)) == 0
    ensures Xor(x, p) == Xor(y, q) ==> x == y && p == q
  {
  }

  lemma StillClear(x: bv64, p: bv64, mask: bv64, lower: bv64)
    requires And(x, mask) == 0 && And(lower, Not(mask)) == 0 && And(p, lower) == 0
    ensures And(Xor(x, p), lower) == 0
  {
  }

  lemma PlaceBits(a: Byte, i: nat)
    requires i < 8
    ensures And(Place(a, i), Not(Below(i + 1))) == 0 && And(Place(a, i), Below(i)) == 0
            && And(Below(i), Not(Below(i + 1))) == 0
  {
    match i {
      case 0 => case 1 => case 2 => case 3 => case 4 => case 5 => case 6 => case _ =>
    }
  }

  function Unplace(w: bv64, i: nat): bv64
    requires i < 8
  {
    match i
    case 0 => w & 0xff
    case 1 => (w >> 8) & 0xff
    case 2 => (w >> 16) & 0xff
    case 3 => (w >> 24) & 0xff
    case 4 => (w >> 32) & 0xff
    case 5 => (w >> 40) & 0xff
    case 6 => (w >> 48) & 0xff
    case _ => (w >> 56) & 0xff
  }

  lemma PlaceInverse(a: Byte, i: nat)
    requires i < 8
    ensures Unplace(Place(a, i), i) == a as bv64
  {
    match i {
      case 0 => assert Unplace(a as bv64, 0) == a as bv64;
      case 1 => assert Unplace((a as bv64) << 8, 1) == a as bv64;
      case 2 => assert Unplace((a as bv64) << 16, 2) == a as bv64;
      case 3 => assert Unplace((a as bv64) << 24, 3) == a as bv64;
      case 4 => assert Unplace((a as bv64) << 32, 4) == a as bv64;
      case 5 => assert Unplace((a as bv64) << 40, 5) == a as bv64;
      case 6 => assert Unplace((a as bv64) << 48, 6) == a as bv64;
      case _ => assert Unplace((a as bv64) << 56, i) == a as bv64;
    }
  }

  lemma PlaceInjective(a: Byte, b: Byte, i: nat)
    requires i < 8 && Place(a, i) == Place(b, i)
    ensures a == b
  {
    hide Place, Unplace;
    PlaceInverse(a, i);
    PlaceInverse(b, i);
  }

  /** Putting a byte below what is already placed loses nothing. */
  lemma PlaceBelow(x: bv64, y: bv64, a: Byte, b: Byte, i: nat)
    requires i < 8 && And(x, Below(i + 1)) == 0 && And(y, Below(i + 1)) == 0
    ensures And(Xor(x, Place(a, i)), Below(i)) == 0
    ensures Xor(x, Place(a, i)) == Xor(y, Place(b, i)) ==> x == y && a == b
  {
    hide Place, Below, Xor, And, Not;
    PlaceBits(a, i);
    PlaceBits(b, i);
    if Place(a, i) == Place(b, i) {
      PlaceInjective(a, b, i);
    }
    DisjointXor(x, y, Place(a, i), Place(b, i), Below(i + 1));
    StillClear(x, Place(a, i), Below(i + 1), Below(i));
  }

  lemma {:induction false} WordFromClear(b: seq<Byte>, i: nat)
    requires i <= |b| <= 8
    ensures And(WordFrom(b, i), Below(i)) == 0
    decreases 8 - i
  {
    hide Xor, Place;
    if i < |b| {
      WordFromClear(b, i + 1);
      PlaceBelow(WordFrom(b, i + 1), WordFrom(b, i + 1), b[i], b[i], i);
    }
  }

  /** Bytes of the same number are determined by their word. */
  lemma {:induction false} WordInjective(a: seq<Byte>, b: seq<Byte>, i: nat)
    requires i <= |a| == |b| <= 8
    requires WordFrom(a, i) == WordFrom(b, i)
    ensures a[i..] == b[i..]
    decreases 8 - i
  {
    hide Xor, Place, And, Below;
    if i < |a| {
      WordFromClear(a, i + 1);
      WordFromClear(b, i + 1);
      PlaceBelow(WordFrom(a, i + 1), WordFrom(b, i + 1), a[i], b[i], i);
      WordInjective(a, b, i + 1);
    }
  }

  lemma WordsOfBlockInjective(a: seq<Byte>, b: seq<Byte>)
    requires |a| == |b| <= BLOCK_LENGTH
    requires Word(ZeroPadded(a)[..8]) == Word(ZeroPadded(b)[..8])
             && Word(ZeroPadded(a)[8..]) == Word(ZeroPadded(b)[8..])
    ensures a == b
  {
    var x, y := ZeroPadded(a), ZeroPadded(b);
    WordInjective(x[..8], y[..8], 0);
    WordInjective(x[8..], y[8..], 0);
    assert x[..8] == x[..8][0..] && y[..8] == y[..8][0..] && x[8..] == x[8..][0..] && y[8..] == y[8..][0..];
    assert x == x[..8] + x[8..] && y == y[..8] + y[8..];
    assert a == x[..|a|] && b == y[..|b|];
  }

  /** For a fixed remainder the tail is injective in the state, and for a fixed state in the remainder. */
  lemma TailInjective(s: State, t: State, a: seq<Byte>, b: seq<Byte>)
    requires |a| == |b| < BLOCK_LENGTH && Tail(s, a) == Tail(t, b)
    ensures a == b ==> s == t
    ensures s == t ==> a == b
  {
    hide Word, Mix1, Mix2, Unmix1, Unmix2, Xor;
    var a1, a2 := Word(ZeroPadded(a)[..8]), Word(ZeroPadded(a)[8..]);
    var b1, b2 := Word(ZeroPadded(b)[..8]), Word(ZeroPadded(b)[8..]);
    XorCancels(s.h1, Mix1(a1));
    XorCancels(s.h2, Mix2(a2));
    XorCancels(t.h1, Mix1(b1));
    XorCancels(t.h2, Mix2(b2));
    if s == t {
      Mix1Inverse(a1);
      Mix1Inverse(b1);
      Mix2Inverse(a2);
      Mix2Inverse(b2);
      WordsOfBlockInjective(a, b);
    }
  }

  /** Cutting a message before and after its block number `i`. */
  lemma BlocksSplit(s: State, m: seq<Byte>, i: nat)
    requires (i + 1) * BLOCK_LENGTH <= |m|
    ensures var x := m[i * BLOCK_LENGTH..(i + 1) * BLOCK_LENGTH];
            var t := BlockStep(Blocks(s, m[..i * BLOCK_LENGTH]), Word(x[..8]), Word(x[8..]));
            Blocks(s, m) == Blocks(t, m[(i + 1) * BLOCK_LENGTH..])
  {
    hide BlockStep, Word;
    var a, b := m[..i * BLOCK_LENGTH], m[i * BLOCK_LENGTH..];
    var x := m[i * BLOCK_LENGTH..(i + 1) * BLOCK_LENGTH];
    BlocksOfPrefix(s, a, b);
    assert Rest(a) == [] && a + b == m && Rest(a) + b == b;
    assert b[..8] == x[..8] && b[8..16] == x[8..] && b[BLOCK_LENGTH..] == m[(i + 1) * BLOCK_LENGTH..];
  }

  lemma BlocksIgnoreRest(s: State, m: seq<Byte>, n: nat)
    requires n * BLOCK_LENGTH <= |m| < (n + 1) * BLOCK_LENGTH
    ensures Blocks(s, m) == Blocks(s, m[..n * BLOCK_LENGTH])
  {
    hide BlockStep, Word;
    var a, r := m[..n * BLOCK_LENGTH], m[n * BLOCK_LENGTH..];
    BlocksOfPrefix(s, a, r);
    assert Rest(a) == [] && a + r == m && Rest(a) + r == r;
    assert Blocks(Blocks(s, a), r) == Blocks(s, a);
  }

  /** The messages have the same length and differ at most within the aligned 16 bytes of number `i`. */
  ghost predicate DifferOnlyIn(a: seq<Byte>, b: seq<Byte>, i: nat) {
    |a| == |b| && forall j :: 0 <= j < |a| && !(i * BLOCK_LENGTH <= j < (i + 1) * BLOCK_LENGTH) ==> a[j] == b[j]
  }

  /** Differences within one complete block. */
  lemma BlockDifferenceShows(a: seq<Byte>, b: seq<Byte>, i: nat)
    requires DifferOnlyIn(a, b, i) && (i + 1) * BLOCK_LENGTH <= |a|
    ensures Blocks(START, a) == Blocks(START, b) ==> a == b
  {
    hide BlockStep, Word, Blocks, BlockBetween;
    var lo, hi := i * BLOCK_LENGTH, (i + 1) * BLOCK_LENGTH;
    BlocksSplit(START, a, i);
    BlocksSplit(START, b, i);
    assert a[..lo] == b[..lo] && a[hi..] == b[hi..];
    if Blocks(START, a) == Blocks(START, b) {
      var s := Blocks(START, a[..lo]);
      var x, y := a[lo..hi], b[lo..hi];
      var t, u := BlockStep(s, Word(x[..8]), Word(x[8..])), BlockStep(s, Word(y[..8]), Word(y[8..]));
      BlocksInjectiveInState(t, u, a[hi..]);
      BlockStepBijectiveInBlock(s, t, Word(x[..8]), Word(x[8..]));
      BlockStepBijectiveInBlock(s, u, Word(y[..8]), Word(y[8..]));
      assert ZeroPadded(x) == x && ZeroPadded(y) == y;
      WordsOfBlockInjective(x, y);
      assert a == a[..lo] + x + a[hi..] && b == b[..lo] + y + b[hi..];
    }
  }

  /** No two messages of equal length that differ only inside one aligned block, or only in the remainder,
      have the same digest. */
  lemma NoCollisionWithinBlock(a: seq<Byte>, b: seq<Byte>, i: nat, count: Size)
    requires DifferOnlyIn(a, b, i)
    ensures OneShot(a, count) == OneShot(b, count) <==> a == b
  {
    hide Finish, Tail, Blocks, CountWord, Unfinish;
    if OneShot(a, count) == OneShot(b, count) {
      FinishInverse(Tail(Blocks(START, a), Rest(a)), CountWord(count));
      FinishInverse(Tail(Blocks(START, b), Rest(b)), CountWord(count));
      TailInjective(Blocks(START, a), Blocks(START, b), Rest(a), Rest(b));
      var n := |a| / BLOCK_LENGTH;
      if (i + 1) * BLOCK_LENGTH <= |a| {
        assert Rest(a) == Rest(b);
        BlockDifferenceShows(a, b, i);
      } else {
        var whole := n * BLOCK_LENGTH;
        BlocksIgnoreRest(START, a, n);
        BlocksIgnoreRest(START, b, n);
        assert a[..whole] == b[..whole];
        assert a == a[..whole] + Rest(a) && b == b[..whole] + Rest(b);
      }
    }
  }

  /** On messages of one length up to 16 bytes the digest is injective. */
  lemma ShortMessagesNeverCollide(a: seq<Byte>, b: seq<Byte>)
    requires |a| == |b| <= BLOCK_LENGTH
    ensures Digest(a) == Digest(b) <==> a == b
  {
    hide OneShot;
    NoCollisionWithinBlock(a, b, 0, |a| % SIZE_MODULUS);
  }
}
