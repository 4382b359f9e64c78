/** What mutual use does to the hashes themselves: the hash a symbol gets from a shared table differs from the hash of
    a query of its own, unless MD5 is unlucky on the very texts that are hashed. */
module GlobalHashMutualUse {
  import opened Options
  import opened Reachability
  import opened GlobalHash
  import opened GlobalHashReach
  import opened GlobalHashCollisions
  import opened GlobalHashSharing

  /** The used definitions that count. */
  function Listed(p: Program, todo: seq<Symbol>): seq<Symbol> {
    if todo == [] then [] else (if todo[0] in p.local then [todo[0]] else []) + Listed(p, todo[1..])
  }

  function SymbolsInOrder(parts: seq<Recipe>): seq<Symbol> {
    seq(|parts|, i requires 0 <= i < |parts| => parts[i].symbol)
  }

  /** The recipe of a symbol is for that symbol, and has one part for each used definition that counts. */
  ghost predicate FollowsUses(p: Program, s: Symbol, r: Recipe) {
    && r.symbol == s
    && (r.Combined? ==> SymbolsInOrder(r.parts) == Listed(p, if s in p.used then p.used[s] else []))
  }

  ghost predicate AllFollowUses(p: Program, table: Table) {
    forall t :: t in table ==> FollowsUses(p, t, table[t])
  }

  lemma {:induction false} QueryFollowsUses(p: Program, s: Symbol, inProgress: set<Symbol>, table: Table,
                                           visited: set<Symbol>)
    requires AllFollowUses(p, table)
    ensures var q := Query(p, s, inProgress, table, visited);
            && AllFollowUses(p, q.table) && (q.recipe.Some? <==> s in p.local)
            && (q.recipe.Some? ==> FollowsUses(p, s, q.recipe.value))
    decreases |p.local.Keys - inProgress|, 0
  {
    if s in p.local && s !in table && s !in inProgress {
      QueryMiss(p, s, inProgress, table, visited);
      QueriesFollowUses(p, p.UsedBy(s), inProgress + {s}, table, visited + {s});
    }
  }

  lemma {:induction false} QueriesFollowUses(p: Program, todo: seq<Symbol>, inProgress: set<Symbol>, table: Table,
                                            visited: set<Symbol>)
    requires AllFollowUses(p, table)
    ensures var q := QueryAll(p, todo, inProgress, table, visited);
            AllFollowUses(p, q.table) && SymbolsInOrder(q.parts) == Listed(p, todo)
    decreases |p.local.Keys - inProgress|, 1 + |todo|
  {
    hide AllFollowUses;
    if todo != [] {
      var first := Query(p, todo[0], inProgress, table, visited);
      QueryFollowsUses(p, todo[0], inProgress, table, visited);
      QueriesFollowUses(p, todo[1..], inProgress, first.table, first.visited);
    }
  }

  lemma {:induction false} ListedAreLocal(p: Program, todo: seq<Symbol>)
    ensures forall s :: s in Listed(p, todo) ==> s in p.local
  {
    if todo != [] {
      ListedAreLocal(p, todo[1..]);
    }
  }

  /** Local hashes and MD5 have the same length. */
  ghost predicate Uniform(p: Program, md5: string -> string) {
    && (forall s :: s in p.local ==> |p.local[s]| == MD5_HEX_LENGTH)
    && (forall x :: |md5(x)| == MD5_HEX_LENGTH)
  }

  /** Then the parts of a text can be told apart. */
  lemma {:induction false} EqualJoinedEqualParts(p: Program, md5: string -> string, x: seq<Recipe>, y: seq<Recipe>,
                                                 k: nat)
    requires Uniform(p, md5) && |x| == |y| && k < |x|
    requires forall i :: 0 <= i < |x| ==> x[i].symbol in p.local && y[i].symbol in p.local
    requires Joined(p, md5, x) == Joined(p, md5, y)
    ensures Value(p, md5, x[k]) == Value(p, md5, y[k])
    decreases |x|
  {
    var v, w := Value(p, md5, x[0]), Value(p, md5, y[0]);
    var j := Joined(p, md5, x);
    assert |v| == |w| == MD5_HEX_LENGTH;
    assert v == j[..MD5_HEX_LENGTH] == w;
    assert Joined(p, md5, x[1..]) == j[MD5_HEX_LENGTH..] == Joined(p, md5, y[1..]);
    if k > 0 {
      EqualJoinedEqualParts(p, md5, x[1..], y[1..], k - 1);
    }
  }

  lemma {:induction false} TextsOfPart(p: Program, md5: string -> string, parts: seq<Recipe>, k: nat)
    requires k < |parts|
    ensures Texts(p, md5, parts[k]) <= TextsOfAll(p, md5, parts)
    decreases |parts|
  {
    if k > 0 {
      TextsOfPart(p, md5, parts[1..], k - 1);
    }
  }

  /** What `b` gets from the table that a query for `a` leaves. */
  function RecipeAfter(p: Program, a: Symbol, b: Symbol): Option<Recipe> {
    Query(p, b, {}, FreshQuery(p, a).table, {}).recipe
  }

  function HashAfter(p: Program, md5: string -> string, a: Symbol, b: Symbol): Option<string> {
    ValueIfAny(p, md5, RecipeAfter(p, a, b))
  }

  function TextsIfAny(p: Program, md5: string -> string, r: Option<Recipe>): set<string> {
    if r.Some? then Texts(p, md5, r.value) else {}
  }

  /** Two texts hashed for `b` collide, or one of them has the local hash of `a` as its MD5. */
  ghost predicate Unlucky(p: Program, md5: string -> string, a: Symbol, b: Symbol) {
    var own := TextsIfAny(p, md5, FreshQuery(p, b).recipe);
    || Collision(md5, TextsIfAny(p, md5, RecipeAfter(p, a, b)), own)
    || exists x :: x in own && md5(x) == p.LocalHash(a)
  }

  /** If `b` uses `a` directly and `a` reaches `b`, then asking for `a` first changes the hash of `b`. */
  lemma SharingChangesMutualUserHash(p: Program, md5: string -> string, a: Symbol, b: Symbol)
    requires Uniform(p, md5)
    requires a != b && a in p.local && Edge(p.Uses(), b, a) && Reaches(p.Uses(), a, b)
    ensures HashAfter(p, md5, a, b) != GlobalHashOf(p, md5, b) || Unlucky(p, md5, a, b)
  {
    MutualUserIsCut(p, a, b);
    QueryFollowsUses(p, a, {}, map[], {});
    QueryFollowsUses(p, b, {}, map[], {});
    ListedAreLocal(p, p.UsedBy(b));
    var shared, own := FreshQuery(p, a).table[b], FreshQuery(p, b).recipe.value;
    assert RecipeAfter(p, a, b) == Some(shared);
    if HashAfter(p, md5, a, b) == GlobalHashOf(p, md5, b) {
      CutPartsDiffer(p, md5, a, b, shared, own);
    }
  }

  lemma CutPartsDiffer(p: Program, md5: string -> string, a: Symbol, b: Symbol, shared: Recipe, own: Recipe)
    requires Uniform(p, md5) && a in p.local && a != b && shared.Combined? && own.Combined?
    requires FollowsUses(p, b, shared) && FollowsUses(p, b, own)
    requires forall s :: s in Listed(p, p.UsedBy(b)) ==> s in p.local
    requires LocalOf(a) in shared.parts && forall r :: r in own.parts && r.LocalOf? ==> r.symbol == b
    requires Value(p, md5, shared) == Value(p, md5, own)
    ensures Collision(md5, Texts(p, md5, shared), Texts(p, md5, own))
         || exists x :: x in Texts(p, md5, own) && md5(x) == p.LocalHash(a)
  {
    hide Listed;
    var t1, t2 := Text(p, md5, b, shared.parts), Text(p, md5, b, own.parts);
    assert t1 in Texts(p, md5, shared) && t2 in Texts(p, md5, own) && md5(t1) == md5(t2);
    if t1 == t2 {
      var n := |p.LocalHash(b)|;
      assert Joined(p, md5, shared.parts) == t1[n..] == t2[n..] == Joined(p, md5, own.parts);
      var k :| 0 <= k < |shared.parts| && shared.parts[k] == LocalOf(a);
      PartsMatch(p, b, shared, own);
      EqualJoinedEqualParts(p, md5, shared.parts, own.parts, k);
      var part := own.parts[k];
      assert part in own.parts && part.symbol == a;
      var x := Text(p, md5, a, part.parts);
      TextsOfPart(p, md5, own.parts, k);
      assert x in Texts(p, md5, part) && md5(x) == p.LocalHash(a);
    }
  }

  lemma PartsMatch(p: Program, b: Symbol, x: Recipe, y: Recipe)
    requires FollowsUses(p, b, x) && FollowsUses(p, b, y) && x.Combined? && y.Combined?
    requires forall s :: s in Listed(p, p.UsedBy(b)) ==> s in p.local
    ensures |x.parts| == |y.parts|
    ensures forall i :: 0 <= i < |x.parts| ==> x.parts[i].symbol == y.parts[i].symbol && x.parts[i].symbol in p.local
  {
    var symbols := Listed(p, p.UsedBy(b));
    assert |symbols| == |x.parts| == |y.parts|;
    forall i | 0 <= i < |x.parts|
      ensures x.parts[i].symbol == y.parts[i].symbol && x.parts[i].symbol in p.local
    {
      assert SymbolsInOrder(x.parts)[i] == symbols[i] == SymbolsInOrder(y.parts)[i];
      assert symbols[i] in symbols;
    }
  }

  /** One shared table gives the hashes of separate queries, in whatever order the symbols are asked for, exactly when
      no two different symbols use each other, directly or indirectly, unless MD5 is unlucky on the way. */
  lemma SharedHashesAgreeExactlyWithoutMutualUse(p: Program, md5: string -> string)
    requires Uniform(p, md5)
    ensures (exists a, b :: a in p.local && b in p.local && Unlucky(p, md5, a, b))
         || ((forall a, b :: a in p.local && b in p.local ==> HashAfter(p, md5, a, b) == GlobalHashOf(p, md5, b))
             <==> forall s :: s in p.local ==> !Tangled(p.Uses(), s))
  {
    hide HashAfter, GlobalHashOf, Unlucky, Tangled, Query;
    if s :| s in p.local && Tangled(p.Uses(), s) {
      var a, b := MutualUsers(p, s);
      SharingChangesMutualUserHash(p, md5, a, b);
    } else {
      forall a, b | a in p.local && b in p.local
        ensures HashAfter(p, md5, a, b) == GlobalHashOf(p, md5, b)
      {
        SameRecipeSameHash(p, md5, a, b);
      }
    }
  }

  lemma SameRecipeSameHash(p: Program, md5: string -> string, a: Symbol, b: Symbol)
    requires a in p.local && b in p.local && forall s :: s in p.local ==> !Tangled(p.Uses(), s)
    ensures HashAfter(p, md5, a, b) == GlobalHashOf(p, md5, b)
  {
    SharingAgreesExactlyWithoutMutualUse(p);
    assert AgreesAfter(p, a, b);
  }

  const A := Symbol("function:a")
  const B := Symbol("function:b")

  function Letters(c: char): (s: string)
    ensures |s| == MD5_HEX_LENGTH == 32
  {
    seq(MD5_HEX_LENGTH, _ => c)
  }

  /** Two functions that call each other. */
  const PAIR := Program(map[A := Letters('a'), B := Letters('b')], map[A := [B], B := [A]])

  /** A hash function that knows one text. */
  function OneText(x: string): string {
    if x == Letters('b') + Letters('a') then Letters('c') else Letters('d')
  }

  lemma OneUse(p: Program, s: Symbol, t: Symbol, inProgress: set<Symbol>, table: Table, visited: set<Symbol>)
    requires s in p.local && s !in table && s !in inProgress && p.UsedBy(s) == [t]
    ensures var first := Query(p, t, inProgress + {s}, table, visited + {s});
            var recipe := Combined(s, Present(first.recipe));
            Query(p, s, inProgress, table, visited) == Answer(Some(recipe), first.table[s := recipe], first.visited)
  {
    QueryMiss(p, s, inProgress, table, visited);
    var first := Query(p, t, inProgress + {s}, table, visited + {s});
    assert [t][1..] == [];
    assert QueryAll(p, [], inProgress + {s}, first.table, first.visited).parts == [];
    assert Present(first.recipe) + [] == Present(first.recipe);
  }

  /** A query for one function of the pair. */
  lemma PairQuery(s: Symbol, t: Symbol)
    requires (s == A && t == B) || (s == B && t == A)
    ensures var other := Combined(t, [LocalOf(s)]);
            var q := FreshQuery(PAIR, s);
            q.recipe == Some(Combined(s, [other])) && q.table == map[t := other, s := Combined(s, [other])]
  {
    OneUse(PAIR, s, t, {}, map[], {});
    OneUse(PAIR, t, s, {} + {s}, map[], {} + {s});
    assert Query(PAIR, s, {} + {s} + {t}, map[], {} + {s} + {t}).recipe == Some(LocalOf(s));
  }

  lemma OnePartText(p: Program, md5: string -> string, s: Symbol, part: Recipe)
    ensures Text(p, md5, s, [part]) == p.LocalHash(s) + Value(p, md5, part)
  {
    assert [part][1..] == [] && Joined(p, md5, []) == "";
    assert Value(p, md5, part) + "" == Value(p, md5, part);
  }

  lemma LettersDiffer(c: char, d: char, x: string, y: string)
    requires c != d
    ensures Letters(c) != Letters(d) && Letters(c) + x != Letters(d) + y && x + Letters(c) != x + Letters(d)
  {
    assert Letters(c)[0] == c && Letters(d)[0] == d;
    assert (Letters(c) + x)[0] == c && (Letters(d) + y)[0] == d;
    assert (x + Letters(c))[|x|] == c && (x + Letters(d))[|x|] == d;
  }

  /** A concrete case: the two hashes of the second function. */
  lemma PairHashesDiffer()
    ensures HashAfter(PAIR, OneText, A, B) == Some(Letters('c'))
    ensures GlobalHashOf(PAIR, OneText, B) == Some(Letters('d'))
    ensures Letters('c') != Letters('d')
  {
    hide Letters;
    PairQuery(A, B);
    PairQuery(B, A);
    OnePartText(PAIR, OneText, B, LocalOf(A));
    OnePartText(PAIR, OneText, A, LocalOf(B));
    var other := Combined(A, [LocalOf(B)]);
    OnePartText(PAIR, OneText, B, other);
    LettersDiffer('c', 'd', "", "");
    LettersDiffer('a', 'b', Letters('b'), Letters('a'));
    LettersDiffer('a', 'd', Letters('b'), "");
    assert PAIR.LocalHash(A) == Letters('a') && PAIR.LocalHash(B) == Letters('b');
    assert Value(PAIR, OneText, other) == Letters('d');
  }
}
