/** One memo table for many queries: when it gives the same hashes as separate queries, and when not. */
module GlobalHashSharing {
  import opened Options
  import opened Reachability
  import opened GlobalHash
  import opened GlobalHashReach

  /** The un-memoised digest: unfold every used definition, cutting only at the symbols on the path. */
  function Unfold(p: Program, s: Symbol, path: set<Symbol>): Recipe
    requires s in p.local
    decreases |p.local.Keys - path|, 0
  {
    if s in path then LocalOf(s)
    else
      StartingShrinks(p, s, path);
      Combined(s, UnfoldAll(p, p.UsedBy(s), path + {s}))
  }

  function UnfoldAll(p: Program, todo: seq<Symbol>, path: set<Symbol>): seq<Recipe>
    decreases |p.local.Keys - path|, 1 + |todo|
  {
    if todo == [] then []
    else (if todo[0] in p.local then [Unfold(p, todo[0], path)] else []) + UnfoldAll(p, todo[1..], path)
  }

  /** The plain recursive digest of a symbol. */
  function Plain(p: Program, s: Symbol): Recipe
    requires s in p.local
  {
    Unfold(p, s, {})
  }

  /** The plain digests of what `s` uses; a use of itself counts with the local hash. */
  function PlainParts(p: Program, s: Symbol, todo: seq<Symbol>): seq<Recipe>
  {
    if todo == [] then []
    else
      (if todo[0] !in p.local then [] else if todo[0] == s then [LocalOf(s)] else [Plain(p, todo[0])])
      + PlainParts(p, s, todo[1..])
  }

  /** Only the part of the path that can be reached matters. */
  lemma {:induction false} UnfoldIgnoresUnreached(p: Program, s: Symbol, path1: set<Symbol>, path2: set<Symbol>)
    requires s in p.local
    requires forall x :: Reaches(p.Uses(), s, x) ==> (x in path1 <==> x in path2)
    ensures Unfold(p, s, path1) == Unfold(p, s, path2)
    decreases |p.local.Keys - path1|, 0
  {
    ReachesSelf(p.Uses(), s);
    if s !in path1 {
      StartingShrinks(p, s, path1);
      forall c, x | c in p.UsedBy(s) && Reaches(p.Uses(), c, x)
        ensures x in path1 + {s} <==> x in path2 + {s}
      {
        ReachesThroughEdge(p.Uses(), s, c);
        ReachesTransitive(p.Uses(), s, c, x);
      }
      UnfoldAllIgnoresUnreached(p, p.UsedBy(s), path1 + {s}, path2 + {s});
    }
  }

  lemma {:induction false} UnfoldAllIgnoresUnreached(p: Program, todo: seq<Symbol>, path1: set<Symbol>,
                                                     path2: set<Symbol>)
    requires forall c, x :: c in todo && Reaches(p.Uses(), c, x) ==> (x in path1 <==> x in path2)
    ensures UnfoldAll(p, todo, path1) == UnfoldAll(p, todo, path2)
    decreases |p.local.Keys - path1|, 1 + |todo|
  {
    if todo != [] {
      if todo[0] in p.local {
        UnfoldIgnoresUnreached(p, todo[0], path1, path2);
      }
      UnfoldAllIgnoresUnreached(p, todo[1..], path1, path2);
    }
  }

  /** A used definition other than `s` itself cannot use an untangled `s` again. */
  lemma UntangledUses(p: Program, s: Symbol, c: Symbol)
    requires s in p.local && c in p.UsedBy(s) && !Tangled(p.Uses(), s)
    ensures !Tangled(p.Uses(), c)
    ensures c != s ==> !Reaches(p.Uses(), c, s)
  {
    if Tangled(p.Uses(), c) {
      TangledThroughEdge(p.Uses(), s, c);
    }
    ReachesSelf(p.Uses(), s);
    ReachesThroughEdge(p.Uses(), s, c);
  }

  /** Below an untangled symbol the plain digest satisfies the recursion one would write down. */
  lemma PlainRecursion(p: Program, s: Symbol)
    requires s in p.local && !Tangled(p.Uses(), s)
    ensures Plain(p, s) == Combined(s, PlainParts(p, s, p.UsedBy(s)))
  {
    StartingShrinks(p, s, {});
    assert {} + {s} == {s};
    PlainPartsUnfold(p, s, p.UsedBy(s));
  }

  lemma {:induction false} PlainPartsUnfold(p: Program, s: Symbol, todo: seq<Symbol>)
    requires s in p.local && !Tangled(p.Uses(), s)
    requires forall c :: c in todo ==> c in p.UsedBy(s)
    ensures UnfoldAll(p, todo, {s}) == PlainParts(p, s, todo)
  {
    if todo != [] {
      var c := todo[0];
      UntangledUses(p, s, c);
      if c in p.local && c != s {
        UnfoldIgnoresUnreached(p, c, {s}, {});
      }
      PlainPartsUnfold(p, s, todo[1..]);
    }
  }

  /** The memo table is right about every symbol that reaches no cycle of two or more symbols. */
  ghost predicate Coherent(p: Program, table: Table) {
    forall t :: t in table && t in p.local && !Tangled(p.Uses(), t) ==> table[t] == Plain(p, t)
  }

  ghost predicate OnPathTo(p: Program, inProgress: set<Symbol>, s: Symbol) {
    forall x :: x in inProgress ==> Reaches(p.Uses(), x, s)
  }

  lemma {:induction false} QueryKeepsCoherence(p: Program, s: Symbol, inProgress: set<Symbol>, table: Table,
                                              visited: set<Symbol>)
    requires Coherent(p, table) && OnPathTo(p, inProgress, s) && inProgress !! table.Keys
    ensures var q := Query(p, s, inProgress, table, visited);
            && Coherent(p, q.table) && inProgress !! q.table.Keys
            && (s in p.local && s in inProgress ==> q.recipe == Some(LocalOf(s)))
            && (s in p.local && s !in inProgress && !Tangled(p.Uses(), s) ==> q.recipe == Some(Plain(p, s)))
    decreases |p.local.Keys - inProgress|, 0
  {
    if s in p.local && s !in table && s !in inProgress {
      QueryMiss(p, s, inProgress, table, visited);
      ReachesSelf(p.Uses(), s);
      QueryAllKeepsCoherence(p, s, p.UsedBy(s), inProgress + {s}, table, visited + {s});
      if !Tangled(p.Uses(), s) {
        PlainRecursion(p, s);
      }
    }
  }

  lemma {:induction false} QueryAllKeepsCoherence(p: Program, s: Symbol, todo: seq<Symbol>, inProgress: set<Symbol>,
                                                 table: Table, visited: set<Symbol>)
    requires s in p.local && s in inProgress && forall c :: c in todo ==> c in p.UsedBy(s)
    requires Coherent(p, table) && OnPathTo(p, inProgress, s) && inProgress !! table.Keys
    ensures var q := QueryAll(p, todo, inProgress, table, visited);
            && Coherent(p, q.table) && inProgress !! q.table.Keys
            && (!Tangled(p.Uses(), s) ==> q.parts == PlainParts(p, s, todo))
    decreases |p.local.Keys - inProgress|, 1 + |todo|
  {
    if todo != [] {
      var c := todo[0];
      forall x | x in inProgress
        ensures Reaches(p.Uses(), x, c)
      {
        ReachesThenEdge(p.Uses(), x, s, c);
      }
      QueryKeepsCoherence(p, c, inProgress, table, visited);
      if !Tangled(p.Uses(), s) {
        UntangledUses(p, s, c);
        assert c != s ==> c !in inProgress;
      }
      var first := Query(p, c, inProgress, table, visited);
      QueryAllKeepsCoherence(p, s, todo[1..], inProgress, first.table, first.visited);
    }
  }

  /** Whatever coherent table a query starts from, an untangled symbol gets its plain digest, and
      the table stays coherent even when the symbol asked for is tangled. */
  lemma CoherentTableGivesPlainDigest(p: Program, s: Symbol, table: Table)
    requires Coherent(p, table)
    ensures Coherent(p, Query(p, s, {}, table, {}).table)
    ensures s in p.local && !Tangled(p.Uses(), s) ==>
              && Query(p, s, {}, table, {}).recipe == Some(Plain(p, s))
              && FreshQuery(p, s).recipe == Some(Plain(p, s))
  {
    QueryKeepsCoherence(p, s, {}, table, {});
    QueryKeepsCoherence(p, s, {}, map[], {});
  }

  /** The hashes of a list of used definitions, joined in order: nothing for a symbol without a local hash, the local
      hash for `s` itself, and the global hash for every other symbol. */
  function HashesOf(p: Program, md5: string -> string, s: Symbol, todo: seq<Symbol>): string {
    if todo == [] then ""
    else
      var first := GlobalHashOf(p, md5, todo[0]);
      (if todo[0] == s && s in p.local then p.local[s] else if first.Some? then first.value else "")
      + HashesOf(p, md5, s, todo[1..])
  }

  /** The global hash of a symbol that reaches no cycle of two or more symbols: MD5 of its local hash followed by what
      its list of used definitions gives, if it has such a list. */
  lemma GlobalHashEquation(p: Program, md5: string -> string, s: Symbol)
    requires s in p.local && !Tangled(p.Uses(), s)
    ensures GlobalHashOf(p, md5, s)
            == Some(md5(p.local[s] + HashesOf(p, md5, s, if s in p.used then p.used[s] else [])))
  {
    hide HashesOf, PlainParts, Plain, FreshQuery, Joined;
    var used := if s in p.used then p.used[s] else [];
    CoherentTableGivesPlainDigest(p, s, map[]);
    PlainRecursion(p, s);
    assert p.UsedBy(s) == used;
    PlainPartsHashes(p, md5, s, used);
    assert Text(p, md5, s, PlainParts(p, s, used)) == p.local[s] + Joined(p, md5, PlainParts(p, s, used));
  }

  lemma {:induction false} PlainPartsHashes(p: Program, md5: string -> string, s: Symbol, todo: seq<Symbol>)
    requires s in p.local && !Tangled(p.Uses(), s)
    requires forall c :: c in todo ==> c in p.UsedBy(s)
    ensures Joined(p, md5, PlainParts(p, s, todo)) == HashesOf(p, md5, s, todo)
  {
    hide Plain, FreshQuery;
    if todo != [] {
      var c, rest := todo[0], PlainParts(p, s, todo[1..]);
      UntangledUses(p, s, c);
      CoherentTableGivesPlainDigest(p, c, map[]);
      PlainPartsHashes(p, md5, s, todo[1..]);
      if c in p.local {
        var part := if c == s then LocalOf(s) else Plain(p, c);
        assert ([part] + rest)[1..] == rest;
      } else {
        NoHash(p, md5, c);
        assert [] + rest == rest;
        assert "" + HashesOf(p, md5, s, todo[1..]) == HashesOf(p, md5, s, todo[1..]);
      }
    }
  }

  lemma NoHash(p: Program, md5: string -> string, c: Symbol)
    requires c !in p.local
    ensures GlobalHashOf(p, md5, c) == None
  {
  }

  lemma {:induction false} QueryKeepsEntries(p: Program, s: Symbol, inProgress: set<Symbol>, table: Table,
                                            visited: set<Symbol>)
    ensures var q := Query(p, s, inProgress, table, visited);
            forall t :: t in table ==> t in q.table && q.table[t] == table[t]
    decreases |p.local.Keys - inProgress|, 0
  {
    if s in p.local && s !in table && s !in inProgress {
      QueryMiss(p, s, inProgress, table, visited);
      QueryAllKeepsEntries(p, p.UsedBy(s), inProgress + {s}, table, visited + {s});
    }
  }

  lemma {:induction false} QueryAllKeepsEntries(p: Program, todo: seq<Symbol>, inProgress: set<Symbol>, table: Table,
                                               visited: set<Symbol>)
    ensures var q := QueryAll(p, todo, inProgress, table, visited);
            forall t :: t in table ==> t in q.table && q.table[t] == table[t]
    decreases |p.local.Keys - inProgress|, 1 + |todo|
  {
    if todo != [] {
      var first := Query(p, todo[0], inProgress, table, visited);
      QueryKeepsEntries(p, todo[0], inProgress, table, visited);
      QueryAllKeepsEntries(p, todo[1..], inProgress, first.table, first.visited);
    }
  }

  datatype Outcome = Printed(hashes: map<Symbol, string>) | NotFound(name: string)

  /** The name under which a symbol given by the user has a local hash. */
  function Resolve(p: Program, name: string): Option<Symbol> {
    if Symbol("function:" + name) in p.local then Some(Symbol("function:" + name))
    else if Symbol("variable:" + name) in p.local then Some(Symbol("variable:" + name))
    else None
  }

  ghost predicate AllResolve(p: Program, names: seq<string>) {
    forall n :: n in names ==> Resolve(p, n).Some?
  }

  /** The memo table after the queries for some names, one after the other; each result is also entered under the
      bare name. */
  ghost function TableAfter(p: Program, names: seq<string>): Table {
    if names == [] then map[]
    else
      var before, name := TableAfter(p, names[..|names| - 1]), names[|names| - 1];
      match Resolve(p, name)
      case None => before
      case Some(s) =>
        var answer := Query(p, s, {}, before, {});
        if answer.recipe.None? then answer.table else answer.table[Symbol(name) := answer.recipe.value]
  }

  /** The names differ from the keys of the local hashes, which have a prefix. */
  ghost predicate BareNames(p: Program, names: seq<string>) {
    forall n :: n in names ==> Symbol(n) !in p.local
  }

  /** The table of the run is right about the names handled so far. */
  ghost predicate Handled(p: Program, table: Table, names: seq<string>) {
    && Coherent(p, table)
    && forall n :: n in names && Resolve(p, n).Some? && !Tangled(p.Uses(), Resolve(p, n).value) ==>
         Symbol(n) in table && table[Symbol(n)] == Plain(p, Resolve(p, n).value)
  }

  lemma {:induction false} TableHasNames(p: Program, names: seq<string>)
    requires AllResolve(p, names)
    ensures forall n :: n in names ==> Symbol(n) in TableAfter(p, names)
    ensures BareNames(p, names) ==> Handled(p, TableAfter(p, names), names)
    decreases |names|
  {
    if names != [] {
      var front, name := names[..|names| - 1], names[|names| - 1];
      assert names == front + [name];
      TableHasNames(p, front);
      var s := Resolve(p, name).value;
      QueryKeepsEntries(p, s, {}, TableAfter(p, front), {});
      if BareNames(p, names) {
        CoherentTableGivesPlainDigest(p, s, TableAfter(p, front));
        assert Symbol(name) !in p.local;
      }
    }
  }

  /** The name has the same hash as in a query of its own: for the function of that name, or if there is none for the
      variable. */
  ghost predicate HasOwnHash(p: Program, md5: string -> string, hashes: map<Symbol, string>, name: string) {
    var callable, variable := Symbol("function:" + name), Symbol("variable:" + name);
    && Symbol(name) in hashes
    && (callable in p.local && !Tangled(p.Uses(), callable) ==>
          GlobalHashOf(p, md5, callable) == Some(hashes[Symbol(name)]))
    && (callable !in p.local && !Tangled(p.Uses(), variable) ==>
          GlobalHashOf(p, md5, variable) == Some(hashes[Symbol(name)]))
  }

  lemma RunResult(p: Program, md5: string -> string, hashes: map<Symbol, string>, names: seq<string>, name: string)
    requires AllResolve(p, names) && Realises(p, md5, hashes, TableAfter(p, names)) && BareNames(p, names)
    requires name in names
    ensures HasOwnHash(p, md5, hashes, name)
  {
    hide Value, TableAfter;
    TableHasNames(p, names);
    var s := Resolve(p, name).value;
    if !Tangled(p.Uses(), s) {
      CoherentTableGivesPlainDigest(p, s, map[]);
    }
  }

  /** The query loop: all names share one memo table, which also takes the results under the bare names. */
  method Run(names: seq<string>, p: Program, md5: string -> string) returns (outcome: Outcome)
    ensures outcome.NotFound? <==>
            exists n :: n in names && Symbol("function:" + n) !in p.local && Symbol("variable:" + n) !in p.local
    ensures outcome.NotFound? ==> outcome.name in names && Resolve(p, outcome.name).None?
    ensures outcome.Printed? ==> Realises(p, md5, outcome.hashes, TableAfter(p, names))
    ensures outcome.Printed? ==> forall n :: n in names ==> Symbol(n) in outcome.hashes
    ensures outcome.Printed? && BareNames(p, names) ==> forall n :: n in names ==> HasOwnHash(p, md5, outcome.hashes, n)
  {
    hide Query, Value, Realises, BareNames, HasOwnHash, TableAfter;
    var hasher := new GlobalHasher(p, md5);
    assert names[..0] == [];
    RunStart(p);
    var i := 0;
    while i < |names|
      invariant 0 <= i <= |names| && AllResolve(p, names[..i])
      invariant hasher.Valid(p, md5) && hasher.currentlyProcessed == {} && fresh(hasher)
      invariant hasher.recipes == TableAfter(p, names[..i])
    {
      var resolved := Resolve(p, names[i]);
      if resolved.None? {
        return NotFound(names[i]);
      }
      RunStep(p, names, i);
      hasher.visited := {};
      var hash;
      ghost var recipe;
      hash, recipe := hasher.GetGlobalHash(resolved.value, p, md5);
      RealisesUpdate(p, md5, hasher.globalHashes, hasher.recipes, Symbol(names[i]), recipe.value);
      hasher.globalHashes := hasher.globalHashes[Symbol(names[i]) := hash.value];
      hasher.recipes := hasher.recipes[Symbol(names[i]) := recipe.value];
      i := i + 1;
    }
    assert names[..i] == names;
    outcome := Printed(hasher.globalHashes);
    RunEnd(p, md5, outcome.hashes, names);
  }

  lemma RunStart(p: Program)
    ensures TableAfter(p, []) == map[]
  {
  }

  lemma RunStep(p: Program, names: seq<string>, i: nat)
    requires i < |names| && AllResolve(p, names[..i]) && Resolve(p, names[i]).Some?
    ensures AllResolve(p, names[..i + 1])
    ensures var answer := Query(p, Resolve(p, names[i]).value, {}, TableAfter(p, names[..i]), {});
            && answer.recipe.Some?
            && TableAfter(p, names[..i + 1]) == answer.table[Symbol(names[i]) := answer.recipe.value]
  {
    assert names[..i + 1][..i] == names[..i];
  }

  lemma RunEnd(p: Program, md5: string -> string, hashes: map<Symbol, string>, names: seq<string>)
    requires AllResolve(p, names) && Realises(p, md5, hashes, TableAfter(p, names))
    ensures forall n :: n in names ==> Symbol(n) in hashes
    ensures BareNames(p, names) ==> forall n :: n in names ==> HasOwnHash(p, md5, hashes, n)
  {
    hide Value, TableAfter, HasOwnHash;
    TableHasNames(p, names);
    if BareNames(p, names) {
      forall n | n in names {
        RunResult(p, md5, hashes, names, n);
      }
    }
  }

  /** Asking for `b` after `a` with a shared table gives the recipe of a separate query for `b`. */
  ghost predicate AgreesAfter(p: Program, a: Symbol, b: Symbol) {
    Query(p, b, {}, FreshQuery(p, a).table, {}).recipe == FreshQuery(p, b).recipe
  }

  /** While `a` is in progress, every new entry that uses `a` takes its local hash only. */
  ghost predicate CutsAt(p: Program, a: Symbol, before: Table, table: Table) {
    forall t :: t in table && t !in before && a in p.UsedBy(t) ==> table[t].Combined? && LocalOf(a) in table[t].parts
  }

  lemma {:induction false} QueryCuts(p: Program, a: Symbol, s: Symbol, inProgress: set<Symbol>, table: Table,
                                    visited: set<Symbol>)
    requires a in p.local && a in inProgress && a !in table
    ensures var q := Query(p, s, inProgress, table, visited);
            CutsAt(p, a, table, q.table) && a !in q.table && (s == a ==> q.recipe == Some(LocalOf(a)))
    decreases |p.local.Keys - inProgress|, 0
  {
    if s in p.local && s !in table && s !in inProgress {
      QueryMiss(p, s, inProgress, table, visited);
      QueryAllCuts(p, a, p.UsedBy(s), inProgress + {s}, table, visited + {s});
    }
  }

  lemma {:induction false} QueryAllCuts(p: Program, a: Symbol, todo: seq<Symbol>, inProgress: set<Symbol>, table: Table,
                                       visited: set<Symbol>)
    requires a in p.local && a in inProgress && a !in table
    ensures var q := QueryAll(p, todo, inProgress, table, visited);
            CutsAt(p, a, table, q.table) && a !in q.table && (a in todo ==> LocalOf(a) in q.parts)
    decreases |p.local.Keys - inProgress|, 1 + |todo|
  {
    if todo != [] {
      var first := Query(p, todo[0], inProgress, table, visited);
      QueryCuts(p, a, todo[0], inProgress, table, visited);
      QueryKeepsEntries(p, todo[0], inProgress, table, visited);
      QueryAllCuts(p, a, todo[1..], inProgress, first.table, first.visited);
      QueryAllKeepsEntries(p, todo[1..], inProgress, first.table, first.visited);
      if todo[0] == a {
        assert Present(first.recipe)[0] == LocalOf(a);
      }
    }
  }

  ghost predicate AllCombined(table: Table) {
    forall t :: t in table ==> table[t].Combined?
  }

  /** A local hash only stands for a symbol in progress. */
  lemma {:induction false} LocalOnlyInProgress(p: Program, s: Symbol, inProgress: set<Symbol>, table: Table,
                                              visited: set<Symbol>)
    requires AllCombined(table)
    ensures var q := Query(p, s, inProgress, table, visited);
            && AllCombined(q.table)
            && (q.recipe.Some? && q.recipe.value.LocalOf? ==> q.recipe.value.symbol in inProgress)
    decreases |p.local.Keys - inProgress|, 0
  {
    if s in p.local && s !in table && s !in inProgress {
      QueryMiss(p, s, inProgress, table, visited);
      LocalsOnlyInProgress(p, p.UsedBy(s), inProgress + {s}, table, visited + {s});
    }
  }

  lemma {:induction false} LocalsOnlyInProgress(p: Program, todo: seq<Symbol>, inProgress: set<Symbol>, table: Table,
                                               visited: set<Symbol>)
    requires AllCombined(table)
    ensures var q := QueryAll(p, todo, inProgress, table, visited);
            && AllCombined(q.table)
            && (forall r :: r in q.parts && r.LocalOf? ==> r.symbol in inProgress)
    decreases |p.local.Keys - inProgress|, 1 + |todo|
  {
    if todo != [] {
      var first := Query(p, todo[0], inProgress, table, visited);
      LocalOnlyInProgress(p, todo[0], inProgress, table, visited);
      LocalsOnlyInProgress(p, todo[1..], inProgress, first.table, first.visited);
      var rest := QueryAll(p, todo[1..], inProgress, first.table, first.visited);
      forall r | r in Present(first.recipe) + rest.parts && r.LocalOf?
        ensures r.symbol in inProgress
      {
        assert r in Present(first.recipe) || r in rest.parts;
      }
    }
  }

  /** If `b` uses `a` directly and `a` reaches `b`, then after a query for `a` the table has a hash of `b` with the bare
      local hash of `a`, which a query of its own for `b` never takes. */
  lemma MutualUserIsCut(p: Program, a: Symbol, b: Symbol)
    requires a != b && a in p.local && Edge(p.Uses(), b, a) && Reaches(p.Uses(), a, b)
    ensures var shared := FreshQuery(p, a).table;
            b in shared && shared[b].Combined? && LocalOf(a) in shared[b].parts
    ensures var own := FreshQuery(p, b).recipe;
            own.Some? && own.value.Combined? && forall r :: r in own.value.parts && r.LocalOf? ==> r.symbol == b
  {
    FreshQueryVisitsReachable(p, a);
    QueryMiss(p, a, {}, map[], {});
    QueryAllCuts(p, a, p.UsedBy(a), {} + {a}, map[], {} + {a});
    QueryMiss(p, b, {}, map[], {});
    LocalsOnlyInProgress(p, p.UsedBy(b), {} + {b}, map[], {} + {b});
  }

  /** So asking for `a` first changes what `b` gets. */
  lemma SharingChangesMutualUser(p: Program, a: Symbol, b: Symbol)
    requires a != b && a in p.local && Edge(p.Uses(), b, a) && Reaches(p.Uses(), a, b)
    ensures !AgreesAfter(p, a, b)
  {
    MutualUserIsCut(p, a, b);
    assert LocalOf(a) !in FreshQuery(p, b).recipe.value.parts;
  }

  /** Two symbols that use each other indirectly, one of them directly. */
  lemma MutualUsers(p: Program, s: Symbol) returns (a: Symbol, b: Symbol)
    requires Tangled(p.Uses(), s)
    ensures a != b && a in p.local && b in p.local && Edge(p.Uses(), b, a) && Reaches(p.Uses(), a, b)
  {
    var x, y :| x != y && Reaches(p.Uses(), s, x) && Reaches(p.Uses(), x, y) && Reaches(p.Uses(), y, x);
    a := y;
    b := ReachesArrives(p.Uses(), x, a);
    ReachesTransitive(p.Uses(), a, x, b);
    var next := ReachesSplitsFirst(p.Uses(), a, x);
  }

  /** One shared table agrees with separate queries, in whatever order the symbols are asked for, exactly
      when no two different symbols use each other, directly or indirectly. */
  lemma SharingAgreesExactlyWithoutMutualUse(p: Program)
    ensures (forall a, b :: a in p.local && b in p.local ==> AgreesAfter(p, a, b))
       <==> (forall s :: s in p.local ==> !Tangled(p.Uses(), s))
  {
    if s :| s in p.local && Tangled(p.Uses(), s) {
      var a, b := MutualUsers(p, s);
      SharingChangesMutualUser(p, a, b);
      assert a in p.local && b in p.local && !AgreesAfter(p, a, b);
    }
    if forall s :: s in p.local ==> !Tangled(p.Uses(), s) {
      forall a, b | a in p.local && b in p.local
        ensures AgreesAfter(p, a, b)
      {
        CoherentTableGivesPlainDigest(p, a, map[]);
        CoherentTableGivesPlainDigest(p, b, FreshQuery(p, a).table);
      }
    }
  }
}
