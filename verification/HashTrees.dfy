/** Hashes that absorb the digests of other hashes, to any depth: what the length of the root digest says, and
    what its value determines. */
module HashTrees {
  import opened MachineNumbers
  import opened Murmur
  import opened MurmurInjective
  import opened StreamHash

  /** What a hash is given: bytes, or another hash with its own items. */
  datatype Item = Written(data: seq<Byte>) | Absorbed(items: seq<Item>)

  function FedBy(item: Item): seq<Byte>
    decreases item
  {
    match item
    case Written(data) => data
    case Absorbed(items) => StateBytes(Value(items))
  }

  function Fed(items: seq<Item>): seq<Byte>
    decreases items, 0
  {
    if items == [] then [] else Fed(items[..|items| - 1]) + FedBy(items[|items| - 1])
  }

  function CountedFor(item: Item): nat
    decreases item
  {
    match item
    case Written(data) => |data|
    case Absorbed(items) => Count(items) % UINT32_MODULUS + 16
  }

  function Count(items: seq<Item>): Size
    decreases items
  {
    if items == [] then 0 else (Count(items[..|items| - 1]) + CountedFor(items[|items| - 1])) % SIZE_MODULUS
  }

  /** The value of the digest. */
  function Value(items: seq<Item>): State
    decreases items, 1
  {
    OneShot(Fed(items), Count(items))
  }

  /** Hashes a tree with the stream operators. */
  method HashItems(items: seq<Item>) returns (hash: Hash)
    ensures fresh(hash) && fresh(hash.core) && fresh(hash.core.block) && hash.Valid()
    ensures hash.core.fed == Fed(items) && hash.core.byteCount == Count(items)
    decreases items
  {
    hide Hash.Valid, OneShot, StateBytes, Fed, Count;
    Empty();
    hash := new Hash();
    assert items[..0] == [];
    for i := 0 to |items|
      invariant fresh(hash) && fresh(hash.core) && fresh(hash.core.block) && hash.Valid()
      invariant hash.core.fed == Fed(items[..i]) && hash.core.byteCount == Count(items[..i])
    {
      match items[i] {
        case Written(data) =>
          hash.ProcessBytes(data);
        case Absorbed(inner) =>
          var other := HashItems(inner);
          hash.AddHash(other);
      }
      Grows(items, i);
    }
    assert items[..|items|] == items;
  }

  lemma Empty()
    ensures Fed([]) == [] && Count([]) == 0
  {
  }

  lemma Grows(items: seq<Item>, i: nat)
    requires i < |items|
    ensures Fed(items[..i + 1]) == Fed(items[..i]) + FedBy(items[i])
    ensures Count(items[..i + 1]) == (Count(items[..i]) + CountedFor(items[i])) % SIZE_MODULUS
  {
    hide FedBy, CountedFor;
    assert items[..i + 1][..i] == items[..i];
  }

  function WrittenBytes(items: seq<Item>): nat
    decreases items
  {
    if items == [] then 0 else
      WrittenBytes(items[..|items| - 1])
      + match items[|items| - 1] { case Written(data) => |data| case Absorbed(inner) => WrittenBytes(inner) }
  }

  function AbsorbedHashes(items: seq<Item>): nat
    decreases items
  {
    if items == [] then 0 else
      AbsorbedHashes(items[..|items| - 1])
      + match items[|items| - 1] { case Written(_) => 0 case Absorbed(inner) => 1 + AbsorbedHashes(inner) }
  }

  function Total(items: seq<Item>): nat {
    WrittenBytes(items) + 16 * AbsorbedHashes(items)
  }

  function TotalOf(item: Item): nat {
    match item
    case Written(data) => |data|
    case Absorbed(inner) => Total(inner) + 16
  }

  /** The length of the root digest is the number of bytes written anywhere in the tree plus 16 for each absorbed
      hash, although every digest on the way truncates its count to 32 bits. */
  lemma {:induction false} LengthIsTotal(items: seq<Item>)
    ensures Count(items) % UINT32_MODULUS == Total(items) % UINT32_MODULUS
    ensures Count(items) % UINT32_MODULUS == Total(items) <==> Total(items) < UINT32_MODULUS
    decreases items
  {
    hide Total, TotalOf, CountedFor;
    if items == [] {
      EmptyTotal();
    } else {
      var rest, last := items[..|items| - 1], items[|items| - 1];
      LengthIsTotal(rest);
      LengthOfItem(last);
      TotalStep(items);
      CountStep(Count(rest), CountedFor(last), Total(rest), TotalOf(last));
    }
  }

  lemma LengthOfItem(item: Item)
    ensures CountedFor(item) % UINT32_MODULUS == TotalOf(item) % UINT32_MODULUS
    decreases item
  {
    hide Total, Count;
    if item.Absorbed? {
      LengthIsTotal(item.items);
      CountStep(Count(item.items) % UINT32_MODULUS, 16, Total(item.items), 16);
    }
  }

  lemma EmptyTotal()
    ensures Total([]) == 0
  {
  }

  lemma TotalStep(items: seq<Item>)
    requires items != []
    ensures Total(items) == Total(items[..|items| - 1]) + TotalOf(items[|items| - 1])
  {
  }

  lemma CountStep(c: nat, k: nat, x: nat, y: nat)
    requires c % UINT32_MODULUS == x % UINT32_MODULUS && k % UINT32_MODULUS == y % UINT32_MODULUS
    ensures (c + k) % SIZE_MODULUS % UINT32_MODULUS == (c + k) % UINT32_MODULUS == (x + y) % UINT32_MODULUS
  {
    SameResidue(c + k, (c + k) % SIZE_MODULUS, UINT32_MODULUS * ((c + k) / SIZE_MODULUS));
    SameResidue(c + k, x + y, c / UINT32_MODULUS - x / UINT32_MODULUS + k / UINT32_MODULUS - y / UINT32_MODULUS);
  }

  lemma SameResidue(a: int, b: int, t: int)
    requires a == b + UINT32_MODULUS * t
    ensures a % UINT32_MODULUS == b % UINT32_MODULUS
  {
    QuotientIs(a, UINT32_MODULUS, b / UINT32_MODULUS + t, b % UINT32_MODULUS);
  }

  method DigestOf(items: seq<Item>) returns (digest: Digest)
    ensures digest.value == Value(items)
    ensures digest.length == Total(items) % UINT32_MODULUS
  {
    var hash := HashItems(items);
    digest := hash.GetDigest();
    LengthIsTotal(items);
  }

  /** The same nesting, with byte strings of the same lengths. */
  predicate SameShape(a: seq<Item>, b: seq<Item>)
    decreases a
  {
    |a| == |b| && forall i :: 0 <= i < |a| ==> SameItemShape(a[i], b[i])
  }

  predicate SameItemShape(x: Item, y: Item)
    decreases x
  {
    match x
    case Written(data) => y.Written? && |y.data| == |data|
    case Absorbed(items) => y.Absorbed? && SameShape(items, y.items)
  }

  /** Somewhere at the same place in both trees, two different messages have the same hash value. */
  predicate CollidesIn(a: seq<Item>, b: seq<Item>)
    decreases a
  {
    || (Fed(a) != Fed(b) && Value(a) == Value(b))
    || exists i :: 0 <= i < |a| && i < |b| && CollidesAt(a[i], b[i])
  }

  predicate CollidesAt(x: Item, y: Item)
    decreases x
  {
    x.Absorbed? && y.Absorbed? && CollidesIn(x.items, y.items)
  }

  /** Trees of the same shape with the same root digest are the same, unless a collision occurs inside them. */
  lemma EqualDigestsEqualTrees(a: seq<Item>, b: seq<Item>)
    requires SameShape(a, b)
    ensures Value(a) == Value(b) ==> (a == b <==> !CollidesIn(a, b))
  {
    if a == b {
      NoCollisionWithSelf(a);
    } else if Value(a) == Value(b) && Fed(a) == Fed(b) {
      SameFed(a, b);
    }
  }

  lemma {:induction false} NoCollisionWithSelf(a: seq<Item>)
    ensures !CollidesIn(a, a)
    decreases a
  {
    forall i | 0 <= i < |a|
      ensures !CollidesAt(a[i], a[i])
    {
      if a[i].Absorbed? {
        NoCollisionWithSelf(a[i].items);
      }
    }
  }

  lemma {:induction false} ShapeDecidesCount(a: seq<Item>, b: seq<Item>)
    requires SameShape(a, b)
    ensures Count(a) == Count(b) && |Fed(a)| == |Fed(b)|
    decreases a
  {
    if a != [] {
      var n := |a| - 1;
      ShapeDecidesCount(a[..n], b[..n]);
      assert SameItemShape(a[n], b[n]);
      if a[n].Absorbed? {
        ShapeDecidesCount(a[n].items, b[n].items);
      }
    }
  }

  lemma {:induction false} SameFed(a: seq<Item>, b: seq<Item>)
    requires SameShape(a, b) && Fed(a) == Fed(b)
    ensures a == b || CollidesIn(a, b)
    decreases a
  {
    hide FedBy, SameItemShape, CollidesAt;
    forall i | 0 <= i < |a|
      ensures a[i] == b[i] || CollidesAt(a[i], b[i])
    {
      SameFedItems(a, b, i);
      SameFedItem(a[i], b[i]);
    }
  }

  lemma SameFedItem(x: Item, y: Item)
    requires SameItemShape(x, y) && FedBy(x) == FedBy(y)
    ensures x == y || CollidesAt(x, y)
    decreases x
  {
    hide SameShape, OneShot, StateBytes, Fed;
    if x.Absorbed? {
      SameStateBytes(Value(x.items), Value(y.items));
      if Fed(x.items) == Fed(y.items) {
        SameFed(x.items, y.items);
      }
    }
  }

  lemma {:induction false} SameFedItems(a: seq<Item>, b: seq<Item>, i: nat)
    requires SameShape(a, b) && Fed(a) == Fed(b) && i < |a|
    ensures FedBy(a[i]) == FedBy(b[i])
    decreases |a|
  {
    hide FedBy, SameItemShape;
    var n := |a| - 1;
    ShapeDecidesCount(a[..n], b[..n]);
    SplitsEqually(Fed(a[..n]), FedBy(a[n]), Fed(b[..n]), FedBy(b[n]));
    if i < n {
      SameFedItems(a[..n], b[..n], i);
    }
  }

  lemma SplitsEqually(p: seq<Byte>, x: seq<Byte>, q: seq<Byte>, y: seq<Byte>)
    requires |p| == |q| && p + x == q + y
    ensures p == q && x == y
  {
    assert p == (p + x)[..|p|] && q == (q + y)[..|p|] && x == (p + x)[|p|..] && y == (q + y)[|p|..];
  }

  lemma SameStateBytes(s: State, t: State)
    requires StateBytes(s) == StateBytes(t)
    ensures s == t
  {
    hide StateBytes;
    StateRoundTrip(s);
    StateRoundTrip(t);
  }

  /** No hash of the tree is fed more than one block. */
  predicate Narrow(a: seq<Item>)
    decreases a
  {
    && |Fed(a)| <= BLOCK_LENGTH
    && forall i :: 0 <= i < |a| && a[i].Absorbed? ==> Narrow(a[i].items)
  }

  /** Trees of one shape in which no hash is fed more than one block never have the same digest. */
  lemma NarrowTreesNeverCollide(a: seq<Item>, b: seq<Item>)
    requires SameShape(a, b) && Narrow(a)
    ensures Value(a) == Value(b) <==> a == b
  {
    EqualDigestsEqualTrees(a, b);
    NarrowHasNoCollision(a, b);
  }

  lemma {:induction false} NarrowHasNoCollision(a: seq<Item>, b: seq<Item>)
    requires SameShape(a, b) && Narrow(a)
    ensures !CollidesIn(a, b)
    decreases a
  {
    ShapeDecidesCount(a, b);
    NoCollisionWithinBlock(Fed(a), Fed(b), 0, Count(a));
    forall i | 0 <= i < |a|
      ensures !CollidesAt(a[i], b[i])
    {
      assert SameItemShape(a[i], b[i]);
      if a[i].Absorbed? {
        NarrowHasNoCollision(a[i].items, b[i].items);
      }
    }
  }
}
