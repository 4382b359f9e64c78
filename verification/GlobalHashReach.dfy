/** What a global-hash query looks at: on any graph, cyclic or not, exactly the symbols its root reaches. */
module GlobalHashReach {
  import opened Options
  import opened Reachability
  import opened GlobalHash

  /** Every symbol visited is finished or in progress, and the uses of the finished ones were visited. */
  ghost predicate Settled(p: Program, table: Table, visited: set<Symbol>, inProgress: set<Symbol>) {
    && table.Keys <= visited * p.local.Keys
    && (forall x :: x in visited && x in p.local ==> x in table || x in inProgress)
    && (forall x, y :: x in table && Edge(p.Uses(), x, y) ==> y in visited)
  }

  /** Everything visited beyond `before` is reached from one of `starts`. */
  ghost predicate VisitedFrom(p: Program, starts: seq<Symbol>, before: set<Symbol>, visited: set<Symbol>) {
    && before <= visited
    && (forall c :: c in starts ==> c in visited)
    && (forall x :: x in visited && x !in before ==> exists c :: c in starts && Reaches(p.Uses(), c, x))
  }

  lemma {:induction false} QueryVisits(p: Program, s: Symbol, inProgress: set<Symbol>, table: Table,
                                       visited: set<Symbol>)
    requires Settled(p, table, visited, inProgress)
    ensures var q := Query(p, s, inProgress, table, visited);
            Settled(p, q.table, q.visited, inProgress) && VisitedFrom(p, [s], visited, q.visited)
    decreases |p.local.Keys - inProgress|, 0
  {
    ReachesSelf(p.Uses(), s);
    if s in p.local && s !in table && s !in inProgress {
      StartingShrinks(p, s, inProgress);
      var below := QueryAll(p, p.UsedBy(s), inProgress + {s}, table, visited + {s});
      QueryAllVisits(p, p.UsedBy(s), inProgress + {s}, table, visited + {s});
      forall x | x in below.visited && x !in visited
        ensures Reaches(p.Uses(), s, x)
      {
        if x != s {
          var c :| c in p.UsedBy(s) && Reaches(p.Uses(), c, x);
          ReachesThroughEdge(p.Uses(), s, c);
          ReachesTransitive(p.Uses(), s, c, x);
        }
      }
    }
  }

  lemma {:induction false} QueryAllVisits(p: Program, todo: seq<Symbol>, inProgress: set<Symbol>, table: Table,
                                         visited: set<Symbol>)
    requires Settled(p, table, visited, inProgress)
    ensures var q := QueryAll(p, todo, inProgress, table, visited);
            Settled(p, q.table, q.visited, inProgress) && VisitedFrom(p, todo, visited, q.visited)
    decreases |p.local.Keys - inProgress|, 1 + |todo|
  {
    if todo != [] {
      var first := Query(p, todo[0], inProgress, table, visited);
      QueryVisits(p, todo[0], inProgress, table, visited);
      QueryAllVisits(p, todo[1..], inProgress, first.table, first.visited);
    }
  }

  /** A fresh query visits exactly what its root reaches through symbols with a local hash, and
      memoises exactly those visited symbols that have one. */
  lemma FreshQueryVisitsReachable(p: Program, s: Symbol)
    ensures forall x :: x in FreshQuery(p, s).visited <==> Reaches(p.Uses(), s, x)
    ensures FreshQuery(p, s).table.Keys == FreshQuery(p, s).visited * p.local.Keys
  {
    QueryVisits(p, s, {}, map[], {});
    var q := FreshQuery(p, s);
    assert Closed(p.Uses(), q.visited);
    assert s in [s];
    forall x
      ensures x in q.visited <==> Reaches(p.Uses(), s, x)
    {
      if Reaches(p.Uses(), s, x) {
        ClosedHoldsReached(p.Uses(), q.visited, s, x);
      }
    }
  }

  /** Below `s` both programs have local hashes for the same symbols and the same used-definition lists. */
  ghost predicate SameShapeBelow(p1: Program, p2: Program, s: Symbol) {
    forall x :: Reaches(p1.Uses(), s, x) ==>
      (x in p1.local <==> x in p2.local) && (x in p1.local ==> p1.UsedBy(x) == p2.UsedBy(x))
  }

  lemma {:induction false} SameShapeSameQuery(p1: Program, p2: Program, s: Symbol, inProgress: set<Symbol>,
                                             table: Table, visited: set<Symbol>)
    requires SameShapeBelow(p1, p2, s)
    ensures Query(p1, s, inProgress, table, visited) == Query(p2, s, inProgress, table, visited)
    decreases |p1.local.Keys - inProgress|, 0
  {
    ReachesSelf(p1.Uses(), s);
    if s in p1.local && s !in table && s !in inProgress {
      StartingShrinks(p1, s, inProgress);
      forall c | c in p1.UsedBy(s)
        ensures SameShapeBelow(p1, p2, c)
      {
        ReachesThroughEdge(p1.Uses(), s, c);
        forall x | Reaches(p1.Uses(), c, x)
          ensures Reaches(p1.Uses(), s, x)
        {
          ReachesTransitive(p1.Uses(), s, c, x);
        }
      }
      SameShapeSameQueries(p1, p2, p1.UsedBy(s), inProgress + {s}, table, visited + {s});
    }
  }

  lemma {:induction false} SameShapeSameQueries(p1: Program, p2: Program, todo: seq<Symbol>, inProgress: set<Symbol>,
                                               table: Table, visited: set<Symbol>)
    requires forall c :: c in todo ==> SameShapeBelow(p1, p2, c)
    ensures QueryAll(p1, todo, inProgress, table, visited) == QueryAll(p2, todo, inProgress, table, visited)
    decreases |p1.local.Keys - inProgress|, 1 + |todo|
  {
    if todo != [] {
      var first := Query(p1, todo[0], inProgress, table, visited);
      SameShapeSameQuery(p1, p2, todo[0], inProgress, table, visited);
      SameShapeSameQueries(p1, p2, todo[1..], inProgress, first.table, first.visited);
    }
  }

  /** The symbols whose local hash goes into a hash. */
  function Symbols(r: Recipe): set<Symbol>
    decreases r, 1
  {
    match r
    case LocalOf(s) => {s}
    case Combined(s, parts) => {s} + SymbolsOfAll(parts)
  }

  function SymbolsOfAll(parts: seq<Recipe>): set<Symbol>
    decreases parts, 0
  {
    if parts == [] then {} else Symbols(parts[0]) + SymbolsOfAll(parts[1..])
  }

  lemma {:induction false} SymbolsOfAppended(a: seq<Recipe>, b: seq<Recipe>)
    ensures SymbolsOfAll(a + b) == SymbolsOfAll(a) + SymbolsOfAll(b)
  {
    if a == [] {
      assert a + b == b;
    } else {
      SymbolsOfAppended(a[1..], b);
      assert (a + b)[1..] == a[1..] + b;
    }
  }

  lemma SymbolsOfOne(r: Recipe)
    ensures SymbolsOfAll([r]) == Symbols(r)
  {
    assert [r][1..] == [];
  }

  ghost predicate OnlyVisited(table: Table, visited: set<Symbol>) {
    forall t :: t in table ==> Symbols(table[t]) <= visited
  }

  lemma {:induction false} QuerySymbols(p: Program, s: Symbol, inProgress: set<Symbol>, table: Table,
                                        visited: set<Symbol>)
    requires OnlyVisited(table, visited)
    ensures var q := Query(p, s, inProgress, table, visited);
            OnlyVisited(q.table, q.visited) && visited + {s} <= q.visited
              && SymbolsOfAll(Present(q.recipe)) <= q.visited
    decreases |p.local.Keys - inProgress|, 0
  {
    if s in p.local && s !in table && s !in inProgress {
      StartingShrinks(p, s, inProgress);
      QueryAllSymbols(p, p.UsedBy(s), inProgress + {s}, table, visited + {s});
    }
    var q := Query(p, s, inProgress, table, visited);
    if q.recipe.Some? {
      SymbolsOfOne(q.recipe.value);
    }
  }

  lemma {:induction false} QueryAllSymbols(p: Program, todo: seq<Symbol>, inProgress: set<Symbol>, table: Table,
                                          visited: set<Symbol>)
    requires OnlyVisited(table, visited)
    ensures var q := QueryAll(p, todo, inProgress, table, visited);
            OnlyVisited(q.table, q.visited) && visited <= q.visited && SymbolsOfAll(q.parts) <= q.visited
    decreases |p.local.Keys - inProgress|, 1 + |todo|
  {
    if todo != [] {
      var first := Query(p, todo[0], inProgress, table, visited);
      var rest := QueryAll(p, todo[1..], inProgress, first.table, first.visited);
      QuerySymbols(p, todo[0], inProgress, table, visited);
      QueryAllSymbols(p, todo[1..], inProgress, first.table, first.visited);
      SymbolsOfAppended(Present(first.recipe), rest.parts);
    }
  }

  lemma {:induction false} ValueDependsOnSymbols(p1: Program, p2: Program, md5: string -> string, r: Recipe)
    requires forall x :: x in Symbols(r) ==> p1.LocalHash(x) == p2.LocalHash(x)
    ensures Value(p1, md5, r) == Value(p2, md5, r)
    decreases r, 1
  {
    if r.Combined? {
      JoinedDependsOnSymbols(p1, p2, md5, r.parts);
    }
  }

  lemma {:induction false} JoinedDependsOnSymbols(p1: Program, p2: Program, md5: string -> string, parts: seq<Recipe>)
    requires forall x :: x in SymbolsOfAll(parts) ==> p1.LocalHash(x) == p2.LocalHash(x)
    ensures Joined(p1, md5, parts) == Joined(p2, md5, parts)
    decreases parts, 0
  {
    if parts != [] {
      ValueDependsOnSymbols(p1, p2, md5, parts[0]);
      JoinedDependsOnSymbols(p1, p2, md5, parts[1..]);
    }
  }

  /** The global hash as a fresh query delivers it. */
  function GlobalHashOf(p: Program, md5: string -> string, s: Symbol): Option<string> {
    ValueIfAny(p, md5, FreshQuery(p, s).recipe)
  }

  /** Edits to symbols that the root does not reach leave its global hash unchanged. */
  lemma EditsElsewhereDoNotMatter(p1: Program, p2: Program, md5: string -> string, s: Symbol)
    requires SameShapeBelow(p1, p2, s)
    requires forall x :: Reaches(p1.Uses(), s, x) ==> p1.LocalHash(x) == p2.LocalHash(x)
    ensures GlobalHashOf(p1, md5, s) == GlobalHashOf(p2, md5, s)
  {
    SameShapeSameQuery(p1, p2, s, {}, map[], {});
    QuerySymbols(p1, s, {}, map[], {});
    FreshQueryVisitsReachable(p1, s);
    var q := FreshQuery(p1, s);
    if q.recipe.Some? {
      SymbolsOfOne(q.recipe.value);
      ValueDependsOnSymbols(p1, p2, md5, q.recipe.value);
    }
  }
}
