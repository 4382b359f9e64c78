/** Equal global hashes mean equal local hashes everywhere below, up to MD5 collisions. */
module GlobalHashCollisions {
  import opened Options
  import opened Reachability
  import opened GlobalHash
  import opened GlobalHashReach

  /** The symbols that a recipe hashes together with their used definitions. */
  function Expanded(r: Recipe): set<Symbol>
    decreases r, 1
  {
    match r
    case LocalOf(s) => {}
    case Combined(s, parts) => {s} + ExpandedAll(parts)
  }

  function ExpandedAll(parts: seq<Recipe>): set<Symbol>
    decreases parts, 0
  {
    if parts == [] then {} else Expanded(parts[0]) + ExpandedAll(parts[1..])
  }

  /** All texts that are given to MD5 while a recipe is carried out. */
  function Texts(p: Program, md5: string -> string, r: Recipe): set<string>
    decreases r, 1
  {
    match r
    case LocalOf(s) => {}
    case Combined(s, parts) => {Text(p, md5, s, parts)} + TextsOfAll(p, md5, parts)
  }

  function TextsOfAll(p: Program, md5: string -> string, parts: seq<Recipe>): set<string>
    decreases parts, 0
  {
    if parts == [] then {} else Texts(p, md5, parts[0]) + TextsOfAll(p, md5, parts[1..])
  }

  /** Two different texts, one from each set, with the same MD5. */
  ghost predicate Collision(md5: string -> string, texts1: set<string>, texts2: set<string>) {
    exists x, y :: x in texts1 && y in texts2 && x != y && md5(x) == md5(y)
  }

  lemma {:induction false} ExpandedAppended(a: seq<Recipe>, b: seq<Recipe>)
    ensures ExpandedAll(a + b) == ExpandedAll(a) + ExpandedAll(b)
  {
    if a == [] {
      assert a + b == b;
    } else {
      ExpandedAppended(a[1..], b);
      assert (a + b)[1..] == a[1..] + b;
    }
  }

  lemma ExpandedOne(r: Recipe)
    ensures ExpandedAll([r]) == Expanded(r)
  {
    assert [r][1..] == [];
  }

  /** Everything a query adds to the table is a part of its recipe. */
  lemma {:induction false} QueryExpands(p: Program, s: Symbol, inProgress: set<Symbol>, table: Table,
                                        visited: set<Symbol>)
    ensures var q := Query(p, s, inProgress, table, visited);
            q.table.Keys <= table.Keys + ExpandedAll(Present(q.recipe))
    decreases |p.local.Keys - inProgress|, 0
  {
    var q := Query(p, s, inProgress, table, visited);
    if s in p.local && s !in table && s !in inProgress {
      StartingShrinks(p, s, inProgress);
      QueryAllExpands(p, p.UsedBy(s), inProgress + {s}, table, visited + {s});
      ExpandedOne(q.recipe.value);
    }
  }

  lemma {:induction false} QueryAllExpands(p: Program, todo: seq<Symbol>, inProgress: set<Symbol>, table: Table,
                                          visited: set<Symbol>)
    ensures var q := QueryAll(p, todo, inProgress, table, visited);
            q.table.Keys <= table.Keys + ExpandedAll(q.parts)
    decreases |p.local.Keys - inProgress|, 1 + |todo|
  {
    if todo != [] {
      var first := Query(p, todo[0], inProgress, table, visited);
      var rest := QueryAll(p, todo[1..], inProgress, first.table, first.visited);
      QueryExpands(p, todo[0], inProgress, table, visited);
      QueryAllExpands(p, todo[1..], inProgress, first.table, first.visited);
      ExpandedAppended(Present(first.recipe), rest.parts);
    }
  }

  /** Both programs have hashes of the same length for every symbol, and so does MD5. */
  ghost predicate FixedLength(p1: Program, p2: Program, md5: string -> string) {
    && (forall s :: |p1.LocalHash(s)| == |p2.LocalHash(s)|)
    && (forall x :: |md5(x)| == MD5_HEX_LENGTH)
  }

  /** Walking down two equal hashes: either the local hashes agree or two texts collide. */
  lemma {:induction false} EqualValuesDescend(p1: Program, p2: Program, md5: string -> string, r: Recipe)
    requires FixedLength(p1, p2, md5)
    requires Value(p1, md5, r) == Value(p2, md5, r)
    ensures Collision(md5, Texts(p1, md5, r), Texts(p2, md5, r))
         || forall t :: t in Expanded(r) ==> p1.LocalHash(t) == p2.LocalHash(t)
    decreases r, 1
  {
    if r.Combined? {
      var t1, t2 := Text(p1, md5, r.symbol, r.parts), Text(p2, md5, r.symbol, r.parts);
      if t1 == t2 {
        var n := |p1.LocalHash(r.symbol)|;
        assert t1[..n] == p1.LocalHash(r.symbol) && t2[..n] == p2.LocalHash(r.symbol);
        assert t1[n..] == Joined(p1, md5, r.parts) && t2[n..] == Joined(p2, md5, r.parts);
        EqualJoinedDescend(p1, p2, md5, r.parts);
      } else {
        assert t1 in Texts(p1, md5, r) && t2 in Texts(p2, md5, r) && md5(t1) == md5(t2);
      }
    }
  }

  lemma {:induction false} EqualJoinedDescend(p1: Program, p2: Program, md5: string -> string, parts: seq<Recipe>)
    requires FixedLength(p1, p2, md5)
    requires Joined(p1, md5, parts) == Joined(p2, md5, parts)
    ensures Collision(md5, TextsOfAll(p1, md5, parts), TextsOfAll(p2, md5, parts))
         || forall t :: t in ExpandedAll(parts) ==> p1.LocalHash(t) == p2.LocalHash(t)
    decreases parts, 0
  {
    if parts != [] {
      var v1, v2 := Value(p1, md5, parts[0]), Value(p2, md5, parts[0]);
      var j1, j2 := Joined(p1, md5, parts), Joined(p2, md5, parts);
      assert |v1| == |v2|;
      assert j1[..|v1|] == v1 && j2[..|v1|] == v2;
      assert j1[|v1|..] == Joined(p1, md5, parts[1..]) && j2[|v1|..] == Joined(p2, md5, parts[1..]);
      EqualValuesDescend(p1, p2, md5, parts[0]);
      EqualJoinedDescend(p1, p2, md5, parts[1..]);
    }
  }

  /** All symbols with a local hash that the root reaches go into its hash together with their uses. */
  lemma ReachedIsExpanded(p: Program, root: Symbol)
    requires root in p.local
    ensures FreshQuery(p, root).recipe.Some?
    ensures forall t :: t in p.local && Reaches(p.Uses(), root, t) ==> t in Expanded(FreshQuery(p, root).recipe.value)
  {
    QueryExpands(p, root, {}, map[], {});
    FreshQueryVisitsReachable(p, root);
    var q := FreshQuery(p, root);
    ExpandedOne(q.recipe.value);
  }

  /** The root's global hash is the same in two programs of the same shape exactly when every local hash it
      reaches is, unless two texts hashed on the way are an MD5 collision. Cycles make no difference. */
  lemma GlobalHashDeterminesLocalHashes(p1: Program, p2: Program, md5: string -> string, root: Symbol)
    requires p1.local.Keys == p2.local.Keys && p1.used == p2.used && root in p1.local
    requires FixedLength(p1, p2, md5)
    ensures FreshQuery(p1, root) == FreshQuery(p2, root) && FreshQuery(p1, root).recipe.Some?
    ensures var r := FreshQuery(p1, root).recipe.value;
            || Collision(md5, Texts(p1, md5, r), Texts(p2, md5, r))
            || (GlobalHashOf(p1, md5, root) == GlobalHashOf(p2, md5, root) <==>
                forall t :: t in p1.local && Reaches(p1.Uses(), root, t) ==> p1.local[t] == p2.local[t])
  {
    assert SameShapeBelow(p1, p2, root);
    SameShapeSameQuery(p1, p2, root, {}, map[], {});
    ReachedIsExpanded(p1, root);
    var r := FreshQuery(p1, root).recipe.value;
    if Value(p1, md5, r) == Value(p2, md5, r) {
      EqualValuesDescend(p1, p2, md5, r);
      if !Collision(md5, Texts(p1, md5, r), Texts(p2, md5, r)) {
        forall t | t in p1.local && Reaches(p1.Uses(), root, t)
          ensures p1.local[t] == p2.local[t]
        {
          assert p1.LocalHash(t) == p2.LocalHash(t);
        }
      }
    } else if forall t :: t in p1.local && Reaches(p1.Uses(), root, t) ==> p1.local[t] == p2.local[t] {
      EditsElsewhereDoNotMatter(p1, p2, md5, root);
    }
  }
}
