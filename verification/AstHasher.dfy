/** The memoising AST hasher (hash-visitor.h): a stack of running hashes, and silos that keep the digests of types
    and of some declarations, against the plain recursive digest of the same syntax graph. */
module AstHasher {
  import opened MachineNumbers

  type Digest = seq<Byte>
  type Id = nat

  /** What visiting a node does, in order: feed collected data, refer to a declaration, or use a type with
      the qualifiers it has at this place. A declaration without a node is a null pointer. */
  datatype Item = Data(bytes: seq<Byte>) | DeclRef(decl: Id) | TypeUse(tp: Id, qualifiers: seq<Byte>)

  /** A declaration, and whether its digest is kept: defined functions, variables with global storage and
      complete records. */
  datatype Decl = Decl(cached: bool, items: seq<Item>)

  /** The syntax graph; the ranks show that it is acyclic. */
  datatype Ast = Ast(types: map<Id, seq<Item>>, decls: map<Id, Decl>, typeRank: map<Id, nat>, declRank: map<Id, nat>) {
    /** The item leads only to nodes of lower rank. */
    ghost predicate Below(item: Item, bound: nat) {
      match item
      case Data(_) => true
      case DeclRef(d) => d in decls ==> d in declRank && declRank[d] < bound
      case TypeUse(t, _) => t in types && t in typeRank && typeRank[t] < bound
    }

    ghost predicate AllBelow(items: seq<Item>, bound: nat) {
      forall i :: 0 <= i < |items| ==> Below(items[i], bound)
    }

    ghost predicate Valid() {
      && (forall t :: t in types ==> t in typeRank && AllBelow(types[t], typeRank[t]))
      && (forall d :: d in decls ==> d in declRank && AllBelow(decls[d].items, declRank[d]))
    }
  }

  /** The bytes that an un-memoised traversal feeds to the enclosing hash. */
  ghost function Fed(a: Ast, h: seq<Byte> -> Digest, items: seq<Item>, bound: nat): seq<Byte>
    requires a.Valid() && a.AllBelow(items, bound)
    decreases bound, 0, |items|
  {
    if items == [] then []
    else FedByItem(a, h, items[0], bound) + Fed(a, h, items[1..], bound)
  }

  ghost function FedByItem(a: Ast, h: seq<Byte> -> Digest, item: Item, bound: nat): seq<Byte>
    requires a.Valid() && a.Below(item, bound)
    decreases bound, 0, 0
  {
    match item
    case Data(bytes) => bytes
    case DeclRef(d) => if d in a.decls then FedByDecl(a, h, d) else []
    case TypeUse(t, qualifiers) => TypeDigest(a, h, t) + qualifiers
  }

  ghost function FedByDecl(a: Ast, h: seq<Byte> -> Digest, d: Id): seq<Byte>
    requires a.Valid() && d in a.decls
    decreases a.declRank[d], 2
  {
    if a.decls[d].cached then DeclDigest(a, h, d)
    else Fed(a, h, a.decls[d].items, a.declRank[d])
  }

  ghost function DeclDigest(a: Ast, h: seq<Byte> -> Digest, d: Id): Digest
    requires a.Valid() && d in a.decls
    decreases a.declRank[d], 1
  {
    h(Fed(a, h, a.decls[d].items, a.declRank[d]))
  }

  ghost function TypeDigest(a: Ast, h: seq<Byte> -> Digest, t: Id): Digest
    requires a.Valid() && t in a.types
    decreases a.typeRank[t], 1
  {
    h(Fed(a, h, a.types[t], a.typeRank[t]))
  }

  /** What a reference to a declaration feeds; a null pointer feeds nothing. */
  ghost function FedByRef(a: Ast, h: seq<Byte> -> Digest, d: Id): seq<Byte>
    requires a.Valid()
  {
    if d in a.decls then FedByDecl(a, h, d) else []
  }

  lemma {:induction false} FedAppend(a: Ast, h: seq<Byte> -> Digest, xs: seq<Item>, x: Item, bound: nat)
    requires a.Valid() && a.AllBelow(xs + [x], bound)
    ensures a.AllBelow(xs, bound) && a.Below(x, bound)
    ensures Fed(a, h, xs + [x], bound) == Fed(a, h, xs, bound) + FedByItem(a, h, x, bound)
    decreases |xs|
  {
    assert forall i :: 0 <= i < |xs| ==> (xs + [x])[i] == xs[i];
    assert (xs + [x])[|xs|] == x;
    if xs == [] {
      assert xs + [x] == [x] && [x][1..] == [];
    } else {
      assert (xs + [x])[1..] == xs[1..] + [x];
      FedAppend(a, h, xs[1..], x, bound);
    }
  }

  /** The kinds of top-level declarations the traversal distinguishes. */
  datatype Kind = Typedef | Record | Enum | Variable(externStorage: bool) | Function(definition: bool, alias: bool)
    | OtherKind

  datatype Child = Child(decl: Id, kind: Kind)

  /** A translation unit: the data of the unit itself, and its top-level declarations. */
  datatype Unit = Unit(items: seq<Item>, rank: nat, children: seq<Child>)

  ghost predicate UnitOk(a: Ast, unit: Unit) {
    a.AllBelow(unit.items, unit.rank)
  }

  /** Types, external variables, and functions without a definition that are no aliases. */
  predicate Skipped(kind: Kind) {
    match kind
    case Typedef => true
    case Record => true
    case Enum => true
    case Variable(externStorage) => externStorage
    case Function(definition, alias) => !definition && !alias
    case OtherKind => false
  }

  ghost function FedByChildren(a: Ast, h: seq<Byte> -> Digest, children: seq<Child>): seq<Byte>
    requires a.Valid()
  {
    if children == [] then []
    else
      var last := children[|children| - 1];
      FedByChildren(a, h, children[..|children| - 1]) + if Skipped(last.kind) then [] else FedByRef(a, h, last.decl)
  }

  ghost function FedByUnit(a: Ast, h: seq<Byte> -> Digest, unit: Unit): seq<Byte>
    requires a.Valid() && UnitOk(a, unit)
  {
    Fed(a, h, unit.items, unit.rank) + FedByChildren(a, h, unit.children)
  }

  /** Every kept digest is the plain digest of its node. */
  ghost predicate Coherent(a: Ast, h: seq<Byte> -> Digest, typeSilo: map<Id, Digest>, declSilo: map<Id, Digest>)
    requires a.Valid()
  {
    && (forall t :: t in typeSilo && t in a.types ==> typeSilo[t] == TypeDigest(a, h, t))
    && (forall d :: d in declSilo && d in a.decls ==> declSilo[d] == DeclDigest(a, h, d))
  }

  /** The visitor: one running hash per entry of the stack, given by the bytes it was fed, and the two silos. */
  class CHashVisitor {
    var hashStack: seq<seq<Byte>>
    var typeSilo: map<Id, Digest>
    var declSilo: map<Id, Digest>

    constructor ()
      ensures hashStack == [] && typeSilo == map[] && declSilo == map[]
    {
      hashStack, typeSilo, declSilo := [], map[], map[];
    }

    method PushHash()
      modifies this`hashStack
      ensures hashStack == old(hashStack) + [[]]
    {
      hashStack := hashStack + [[]];
    }

    method PopHash(h: seq<Byte> -> Digest) returns (digest: Digest)
      requires hashStack != []
      modifies this`hashStack
      ensures hashStack == old(hashStack[..|hashStack| - 1]) && digest == h(old(hashStack[|hashStack| - 1]))
    {
      digest := h(hashStack[|hashStack| - 1]);
      hashStack := hashStack[..|hashStack| - 1];
    }

    method UpdateTop(bytes: seq<Byte>)
      requires hashStack != []
      modifies this`hashStack
      ensures hashStack == Topped(old(hashStack), bytes)
    {
      hashStack := hashStack[|hashStack| - 1 := hashStack[|hashStack| - 1] + bytes];
    }

    /** Visits the parts of a node in order. */
    method TraverseItems(ghost a: Ast, types: map<Id, seq<Item>>, decls: map<Id, Decl>, items: seq<Item>,
                         h: seq<Byte> -> Digest, ghost bound: nat)
      requires a.Valid() && a.types == types && a.decls == decls && a.AllBelow(items, bound)
      requires Coherent(a, h, typeSilo, declSilo) && hashStack != []
      modifies this
      ensures Coherent(a, h, typeSilo, declSilo)
      ensures hashStack == Topped(old(hashStack), Fed(a, h, items, bound))
      decreases 2 * bound + 1
    {
      hide FedByItem, Coherent, Topped;
      ToppedNothing(hashStack);
      var i := 0;
      while i < |items|
        invariant 0 <= i <= |items| && a.AllBelow(items[..i], bound)
        invariant Coherent(a, h, typeSilo, declSilo)
        invariant hashStack == Topped(old(hashStack), Fed(a, h, items[..i], bound))
      {
        assert items[..i + 1] == items[..i] + [items[i]];
        FedAppend(a, h, items[..i], items[i], bound);
        ghost var before := hashStack;
        match items[i] {
          case Data(bytes) => UpdateTop(bytes);
          case DeclRef(d) => TraverseDecl(a, types, decls, d, h);
          case TypeUse(t, qualifiers) => AddType(a, types, decls, t, qualifiers, h);
        }
        ItemFeeds(a, h, items[i], bound);
        assert hashStack == Topped(before, FedByItem(a, h, items[i], bound));
        ToppedTwice(old(hashStack), Fed(a, h, items[..i], bound), FedByItem(a, h, items[i], bound));
        i := i + 1;
      }
      assert items[..i] == items;
    }

    /** A type is hashed once; later uses take the digest from the silo. The qualifiers follow either way. */
    method AddType(ghost a: Ast, types: map<Id, seq<Item>>, decls: map<Id, Decl>, t: Id, qualifiers: seq<Byte>,
                   h: seq<Byte> -> Digest)
      requires a.Valid() && a.types == types && a.decls == decls && t in types
      requires Coherent(a, h, typeSilo, declSilo) && hashStack != []
      modifies this
      ensures Coherent(a, h, typeSilo, declSilo)
      ensures hashStack == Topped(old(hashStack), TypeDigest(a, h, t) + qualifiers)
      decreases 2 * a.typeRank[t] + 2
    {
      hide Fed, Topped;
      ghost var before := hashStack;
      ghost var fed := Fed(a, h, types[t], a.typeRank[t]);
      PushedTop(before, fed);
      ToppedTwice(before, TypeDigest(a, h, t), qualifiers);
      if t in typeSilo {
        UpdateTop(typeSilo[t]);
      } else {
        PushHash();
        TraverseItems(a, types, decls, types[t], h, a.typeRank[t]);
        var digest := PopHash(h);
        UpdateTop(digest);
        typeSilo := typeSilo[t := digest];
      }
      UpdateTop(qualifiers);
    }

    method TraverseDecl(ghost a: Ast, types: map<Id, seq<Item>>, decls: map<Id, Decl>, d: Id, h: seq<Byte> -> Digest)
      requires a.Valid() && a.types == types && a.decls == decls
      requires Coherent(a, h, typeSilo, declSilo) && hashStack != []
      modifies this
      ensures Coherent(a, h, typeSilo, declSilo)
      ensures hashStack == Topped(old(hashStack), FedByRef(a, h, d))
      decreases if d in a.decls then 2 * a.declRank[d] + 2 else 0
    {
      hide Fed, Topped;
      ghost var before := hashStack;
      ToppedNothing(before);
      if d !in decls {
        return;
      }
      if !decls[d].cached {
        TraverseItems(a, types, decls, decls[d].items, h, a.declRank[d]);
        return;
      }
      if d in declSilo {
        UpdateTop(declSilo[d]);
        return;
      }
      PushedTop(before, Fed(a, h, decls[d].items, a.declRank[d]));
      PushHash();
      TraverseItems(a, types, decls, decls[d].items, h, a.declRank[d]);
      var digest := PopHash(h);
      declSilo := declSilo[d := digest];
      UpdateTop(digest);
    }

    /** The whole translation unit in a hash of its own, without the top-level declarations that are skipped. */
    method TraverseTranslationUnitDecl(ghost a: Ast, types: map<Id, seq<Item>>, decls: map<Id, Decl>, tu: Id,
                                       unit: Unit, h: seq<Byte> -> Digest)
      requires a.Valid() && a.types == types && a.decls == decls && UnitOk(a, unit) && tu !in decls
      requires Coherent(a, h, typeSilo, declSilo)
      modifies this
      ensures Coherent(a, h, typeSilo, declSilo) && hashStack == old(hashStack)
      ensures tu in declSilo && declSilo[tu] == h(FedByUnit(a, h, unit))
    {
      hide Fed, Coherent, Topped, FedByRef;
      ghost var before := hashStack;
      PushHash();
      ghost var pushed := hashStack;
      TraverseItems(a, types, decls, unit.items, h, unit.rank);
      ghost var own := Fed(a, h, unit.items, unit.rank);
      var i := 0;
      assert unit.children[..0] == [] && own + [] == own;
      while i < |unit.children|
        invariant 0 <= i <= |unit.children|
        invariant Coherent(a, h, typeSilo, declSilo)
        invariant hashStack == Topped(pushed, own + FedByChildren(a, h, unit.children[..i]))
      {
        ghost var soFar := FedByChildren(a, h, unit.children[..i]);
        var child := unit.children[i];
        assert unit.children[..i + 1][..i] == unit.children[..i] && soFar + [] == soFar;
        if !Skipped(child.kind) {
          TraverseDecl(a, types, decls, child.decl, h);
          ToppedTwice(pushed, own + soFar, FedByRef(a, h, child.decl));
          assert own + soFar + FedByRef(a, h, child.decl) == own + (soFar + FedByRef(a, h, child.decl));
        }
        i := i + 1;
      }
      assert unit.children[..i] == unit.children;
      PushedTop(before, FedByUnit(a, h, unit));
      var digest := PopHash(h);
      StoringElsewhere(a, h, typeSilo, declSilo, tu, digest);
      declSilo := declSilo[tu := digest];
    }
  }

  /** The stack with more bytes fed to its top. */
  function Topped(stack: seq<seq<Byte>>, bytes: seq<Byte>): (topped: seq<seq<Byte>>)
    requires stack != []
    ensures |topped| == |stack|
  {
    stack[|stack| - 1 := stack[|stack| - 1] + bytes]
  }

  lemma ToppedNothing(stack: seq<seq<Byte>>)
    requires stack != []
    ensures Topped(stack, []) == stack
  {
    assert stack[|stack| - 1] + [] == stack[|stack| - 1];
  }

  lemma ToppedTwice(stack: seq<seq<Byte>>, x: seq<Byte>, y: seq<Byte>)
    requires stack != []
    ensures Topped(Topped(stack, x), y) == Topped(stack, x + y)
  {
    assert stack[|stack| - 1] + x + y == stack[|stack| - 1] + (x + y);
  }

  /** Feeding a pushed hash leaves the stack below it alone. */
  lemma PushedTop(stack: seq<seq<Byte>>, x: seq<Byte>)
    ensures var fed := Topped(stack + [[]], x); |fed| == |stack| + 1 && fed[|stack|] == x && fed[..|stack|] == stack
  {
    assert [] + x == x;
  }

  lemma ItemFeeds(a: Ast, h: seq<Byte> -> Digest, item: Item, bound: nat)
    requires a.Valid() && a.Below(item, bound)
    ensures FedByItem(a, h, item, bound) == match item
      case Data(bytes) => bytes
      case DeclRef(d) => FedByRef(a, h, d)
      case TypeUse(t, qualifiers) => TypeDigest(a, h, t) + qualifiers
  {
  }

  lemma StoringElsewhere(a: Ast, h: seq<Byte> -> Digest, typeSilo: map<Id, Digest>, declSilo: map<Id, Digest>, tu: Id,
                         digest: Digest)
    requires a.Valid() && Coherent(a, h, typeSilo, declSilo) && tu !in a.decls
    ensures Coherent(a, h, typeSilo, declSilo[tu := digest])
  {
  }

  /** The item does not refer to anything that only the second graph has. */
  ghost predicate RefersToOld(a: Ast, b: Ast, item: Item) {
    match item
    case Data(_) => true
    case DeclRef(d) => d in b.decls ==> d in a.decls
    case TypeUse(t, _) => t in b.types ==> t in a.types
  }

  ghost predicate AllReferToOld(a: Ast, b: Ast, items: seq<Item>) {
    forall i :: 0 <= i < |items| ==> RefersToOld(a, b, items[i])
  }

  /** The second graph has more nodes, but nothing in the first refers to them. */
  ghost predicate Extended(a: Ast, b: Ast) {
    && (forall t :: t in a.types ==> t in b.types && b.types[t] == a.types[t] && AllReferToOld(a, b, a.types[t]))
    && (forall d :: d in a.decls ==> d in b.decls && b.decls[d] == a.decls[d] && AllReferToOld(a, b, a.decls[d].items))
  }

  lemma DeclFeeds(a: Ast, h: seq<Byte> -> Digest, d: Id)
    requires a.Valid() && d in a.decls
    ensures var fed := Fed(a, h, a.decls[d].items, a.declRank[d]);
            FedByDecl(a, h, d) == if a.decls[d].cached then h(fed) else fed
  {
  }

  lemma TypeFeeds(a: Ast, h: seq<Byte> -> Digest, t: Id)
    requires a.Valid() && t in a.types
    ensures TypeDigest(a, h, t) == h(Fed(a, h, a.types[t], a.typeRank[t]))
  {
  }

  lemma {:induction false} FedInExtension(a: Ast, b: Ast, h: seq<Byte> -> Digest, items: seq<Item>, m: nat, n: nat)
    requires a.Valid() && b.Valid() && Extended(a, b)
    requires a.AllBelow(items, m) && b.AllBelow(items, n) && AllReferToOld(a, b, items)
    ensures Fed(a, h, items, m) == Fed(b, h, items, n)
    decreases m, |items|
  {
    if items != [] {
      assert a.Below(items[0], m) && b.Below(items[0], n) && RefersToOld(a, b, items[0]);
      match items[0] {
        case Data(_) =>
        case DeclRef(d) =>
          if d in a.decls {
            FedInExtension(a, b, h, a.decls[d].items, a.declRank[d], b.declRank[d]);
            DeclFeeds(a, h, d);
            DeclFeeds(b, h, d);
          }
        case TypeUse(t, _) =>
          FedInExtension(a, b, h, a.types[t], a.typeRank[t], b.typeRank[t]);
          TypeFeeds(a, h, t);
          TypeFeeds(b, h, t);
      }
      FedInExtension(a, b, h, items[1..], m, n);
    }
  }

  function Kept(children: seq<Child>): seq<Child> {
    if children == [] then []
    else
      var last := children[|children| - 1];
      Kept(children[..|children| - 1]) + if Skipped(last.kind) then [] else [last]
  }

  lemma {:induction false} OnlyKeptChildrenCount(a: Ast, h: seq<Byte> -> Digest, children: seq<Child>)
    requires a.Valid()
    ensures FedByChildren(a, h, children) == FedByChildren(a, h, Kept(children))
    ensures Kept(Kept(children)) == Kept(children)
  {
    if children != [] {
      var front, last := children[..|children| - 1], children[|children| - 1];
      OnlyKeptChildrenCount(a, h, front);
      if !Skipped(last.kind) {
        assert (Kept(front) + [last])[..|Kept(front)|] == Kept(front);
      } else {
        assert Kept(front) + [] == Kept(front);
      }
    }
  }

  lemma {:induction false} ChildrenInExtension(a: Ast, b: Ast, h: seq<Byte> -> Digest, children: seq<Child>)
    requires a.Valid() && b.Valid() && Extended(a, b)
    requires forall c :: c in children && c.decl in b.decls ==> c.decl in a.decls
    ensures FedByChildren(a, h, children) == FedByChildren(b, h, children)
  {
    if children != [] {
      var front, d := children[..|children| - 1], children[|children| - 1].decl;
      ChildrenInExtension(a, b, h, front);
      assert children[|children| - 1] in children;
      if d in a.decls {
        FedInExtension(a, b, h, a.decls[d].items, a.declRank[d], b.declRank[d]);
        DeclFeeds(a, h, d);
        DeclFeeds(b, h, d);
      }
    }
  }

  /** What one more top-level declaration feeds, kind by kind. */
  lemma OneMoreChild(a: Ast, h: seq<Byte> -> Digest, children: seq<Child>, d: Id, kind: Kind)
    requires a.Valid()
    ensures kind in {Typedef, Record, Enum, Variable(true), Function(false, false)} ==>
              FedByChildren(a, h, children + [Child(d, kind)]) == FedByChildren(a, h, children)
    ensures kind in {OtherKind, Variable(false), Function(true, false), Function(true, true), Function(false, true)} ==>
              FedByChildren(a, h, children + [Child(d, kind)]) == FedByChildren(a, h, children) + FedByRef(a, h, d)
  {
    assert (children + [Child(d, kind)])[..|children|] == children;
  }

  /** Types, declarations of external variables and of functions that are no aliases. */
  ghost predicate DeclaresOnly(c: Child) {
    c.kind in {Typedef, Record, Enum, Variable(true), Function(false, false)}
  }

  /** The second list has more declarations of those kinds. */
  ghost predicate Inserted(u: seq<Child>, v: seq<Child>)
    decreases |v|
  {
    if v == [] then u == []
    else
      var front, last := v[..|v| - 1], v[|v| - 1];
      || (DeclaresOnly(last) && Inserted(u, front))
      || (u != [] && u[|u| - 1] == last && Inserted(u[..|u| - 1], front))
  }

  lemma {:induction false} InsertedKeepsKept(u: seq<Child>, v: seq<Child>)
    requires Inserted(u, v)
    ensures Kept(u) == Kept(v)
    decreases |v|
  {
    if v != [] {
      var front, last := v[..|v| - 1], v[|v| - 1];
      if DeclaresOnly(last) && Inserted(u, front) {
        InsertedKeepsKept(u, front);
        assert Kept(front) + [] == Kept(front);
      } else {
        InsertedKeepsKept(u[..|u| - 1], front);
      }
    }
  }

  lemma {:induction false} KeptAreChildren(children: seq<Child>, c: Child)
    ensures c in Kept(children) ==> c in children && !DeclaresOnly(c)
  {
    if children != [] {
      KeptAreChildren(children[..|children| - 1], c);
    }
  }

  /** Inserting top-level declarations that nothing refers to, of types, external variables and functions without a
      definition, leaves the digest of the translation unit unchanged. */
  lemma InsertedDeclarationsDoNotShow(a: Ast, b: Ast, h: seq<Byte> -> Digest, u: Unit, v: Unit)
    requires a.Valid() && b.Valid() && Extended(a, b) && UnitOk(a, u) && UnitOk(b, v)
    requires u.items == v.items && AllReferToOld(a, b, u.items)
    requires Inserted(u.children, v.children)
    requires forall c :: c in u.children && !DeclaresOnly(c) && c.decl in b.decls ==> c.decl in a.decls
    ensures h(FedByUnit(a, h, u)) == h(FedByUnit(b, h, v))
  {
    InsertedKeepsKept(u.children, v.children);
    forall c | c in Kept(u.children) {
      KeptAreChildren(u.children, c);
    }
    KeptDeclarationsDecide(a, b, h, u, v);
  }

  /** The declarations that are not skipped decide the digest of a translation unit. */
  lemma KeptDeclarationsDecide(a: Ast, b: Ast, h: seq<Byte> -> Digest, u: Unit, v: Unit)
    requires a.Valid() && b.Valid() && Extended(a, b) && UnitOk(a, u) && UnitOk(b, v)
    requires u.items == v.items && AllReferToOld(a, b, u.items)
    requires Kept(u.children) == Kept(v.children)
    requires forall c :: c in Kept(u.children) && c.decl in b.decls ==> c.decl in a.decls
    ensures h(FedByUnit(a, h, u)) == h(FedByUnit(b, h, v))
  {
    FedInExtension(a, b, h, u.items, u.rank, v.rank);
    OnlyKeptChildrenCount(a, h, u.children);
    OnlyKeptChildrenCount(b, h, v.children);
    ChildrenInExtension(a, b, h, Kept(u.children));
  }
}
