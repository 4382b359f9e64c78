/** Change impact with fake global hashes (dependency_analyzer): 1 for a symbol that reaches a changed
    function and 0 otherwise, searched with the memo table and the in-progress set of the global hash. */
module FakeHash {
  import opened Options
  import opened Reachability
  import opened CallGraphs

  type FakeTable = map<Symbol, int>

  datatype FakeAnswer = FakeAnswer(value: Option<int>, table: FakeTable)
  datatype FakeSum = FakeSum(value: int, table: FakeTable)

  /** One query, given the symbols in progress and the memo table. */
  function FakeQuery(cg: CallGraph, changed: set<Symbol>, s: Symbol, inProgress: set<Symbol>,
                     table: FakeTable): FakeAnswer
    decreases |cg.Keys - inProgress|, 0
  {
    if s !in cg then FakeAnswer(None, table)
    else if s in table then FakeAnswer(Some(table[s]), table)
    else if s in changed then FakeAnswer(Some(1), table[s := 1])
    else if s in inProgress then FakeAnswer(Some(0), table)
    else
      StartingShrinks(cg, s, inProgress);
      var below := FakeQueries(cg, changed, cg[s], inProgress + {s}, table);
      FakeAnswer(Some(below.value), below.table[s := below.value])
  }

  /** The queries for the used definitions, stopping at the first nonzero answer. */
  function FakeQueries(cg: CallGraph, changed: set<Symbol>, todo: seq<Symbol>, inProgress: set<Symbol>,
                       table: FakeTable): FakeSum
    decreases |cg.Keys - inProgress|, 1 + |todo|
  {
    if todo == [] then FakeSum(0, table)
    else
      var first := FakeQuery(cg, changed, todo[0], inProgress, table);
      if first.value.Some? && first.value.value != 0 then FakeSum(first.value.value, first.table)
      else FakeQueries(cg, changed, todo[1..], inProgress, first.table)
  }

  /** Once a callee has answered 1, the callees listed after it are not asked: they change neither the answer nor the
      table. As long as all have answered 0, the rest is searched with the table they leave. */
  lemma {:induction false} LaterCalleesAreNotAsked(cg: CallGraph, changed: set<Symbol>, todo: seq<Symbol>,
                                                  later: seq<Symbol>, inProgress: set<Symbol>, table: FakeTable)
    ensures var q := FakeQueries(cg, changed, todo, inProgress, table);
            FakeQueries(cg, changed, todo + later, inProgress, table)
            == if q.value != 0 then q else FakeQueries(cg, changed, later, inProgress, q.table)
    decreases |todo|
  {
    if todo == [] {
      assert todo + later == later;
    } else {
      var first := FakeQuery(cg, changed, todo[0], inProgress, table);
      LaterCalleesAreNotAsked(cg, changed, todo[1..], later, inProgress, first.table);
      assert (todo + later)[1..] == todo[1..] + later;
    }
  }

  lemma StartingShrinks(cg: CallGraph, s: Symbol, inProgress: set<Symbol>)
    requires s in cg && s !in inProgress
    ensures |cg.Keys - (inProgress + {s})| < |cg.Keys - inProgress|
  {
    assert cg.Keys - (inProgress + {s}) == (cg.Keys - inProgress) - {s};
  }

  /** A query that has to search. */
  lemma FakeQueryMiss(cg: CallGraph, changed: set<Symbol>, s: Symbol, inProgress: set<Symbol>, table: FakeTable)
    requires s in cg && s !in table && s !in changed && s !in inProgress
    ensures var below := FakeQueries(cg, changed, cg[s], inProgress + {s}, table);
            FakeQuery(cg, changed, s, inProgress, table) == FakeAnswer(Some(below.value), below.table[s := below.value])
    ensures |cg.Keys - (inProgress + {s})| < |cg.Keys - inProgress|
  {
    StartingShrinks(cg, s, inProgress);
  }

  /** The table after queries for the keys in a given order. */
  function FakeTableFor(cg: CallGraph, changed: set<Symbol>, order: seq<Symbol>): FakeTable {
    if order == [] then map[]
    else
      var before := FakeTableFor(cg, changed, order[..|order| - 1]);
      FakeQuery(cg, changed, order[|order| - 1], {}, before).table
  }

  ghost predicate Distinct(w: seq<Symbol>) {
    forall i, j :: 0 <= i < j < |w| ==> w[i] != w[j]
  }

  /** An order in which a dictionary can give its keys. */
  ghost predicate IsOrder(cg: CallGraph, order: seq<Symbol>) {
    Distinct(order) && forall s :: s in order <==> s in cg
  }

  /** The symbols the fast form reports. */
  function Reported(table: FakeTable): set<Symbol> {
    set f | f in table && table[f] != 0
  }

  /** The static in-progress set (the one of the real global hash) and the memo table. */
  class FakeHasher {
    var currentlyProcessed: set<Symbol>
    var globalHashes: FakeTable

    constructor ()
      ensures currentlyProcessed == {} && globalHashes == map[]
    {
      currentlyProcessed, globalHashes := {}, map[];
    }

    method GetFakeGlobalHash(symbol: Symbol, cg: CallGraph, changed: set<Symbol>) returns (hash: Option<int>)
      modifies this
      ensures currentlyProcessed == old(currentlyProcessed)
      ensures FakeAnswer(hash, globalHashes)
           == FakeQuery(cg, changed, symbol, currentlyProcessed, old(globalHashes))
      decreases |cg.Keys - currentlyProcessed|
    {
      if symbol !in cg {
        return None;
      }
      if symbol in globalHashes {
        return Some(globalHashes[symbol]);
      }
      if symbol in changed {
        globalHashes := globalHashes[symbol := 1];
        return Some(1);
      }
      if symbol in currentlyProcessed {
        return Some(0);
      }
      StartingShrinks(cg, symbol, currentlyProcessed);
      ghost var path := currentlyProcessed + {symbol};
      currentlyProcessed := currentlyProcessed + {symbol};
      var globalHash := 0;
      var usedDefs := cg[symbol];
      ghost var all := FakeQueries(cg, changed, usedDefs, path, globalHashes);
      var i := 0;
      while i < |usedDefs| && globalHash == 0
        invariant 0 <= i <= |usedDefs| && currentlyProcessed == path
        invariant all == if globalHash == 0 then FakeQueries(cg, changed, usedDefs[i..], path, globalHashes)
                         else FakeSum(globalHash, globalHashes)
      {
        assert usedDefs[i..][1..] == usedDefs[i + 1..];
        var usedHash := GetFakeGlobalHash(usedDefs[i], cg, changed);
        if usedHash.Some? {
          globalHash := globalHash + usedHash.value;
        }
        i := i + 1;
      }
      assert usedDefs[|usedDefs|..] == [];
      currentlyProcessed := currentlyProcessed - {symbol};
      globalHashes := globalHashes[symbol := globalHash];
      hash := Some(globalHash);
    }
  }

  /** One shared table for all keys, which come in whatever order the dictionary gives them. */
  method GetFakeGlobalHashes(changed: set<Symbol>, cg: CallGraph) returns (table: FakeTable)
    ensures exists order :: IsOrder(cg, order) && |order| == |cg.Keys| && table == FakeTableFor(cg, changed, order)
  {
    var hasher := new FakeHasher();
    var todo := cg.Keys;
    ghost var order: seq<Symbol> := [];
    while todo != {}
      invariant todo <= cg.Keys && fresh(hasher) && hasher.currentlyProcessed == {} && |order| + |todo| == |cg.Keys|
      invariant Distinct(order) && forall s :: s in order <==> s in cg && s !in todo
      invariant hasher.globalHashes == FakeTableFor(cg, changed, order)
      decreases todo
    {
      var symbol :| symbol in todo;
      var _ := hasher.GetFakeGlobalHash(symbol, cg, changed);
      assert (order + [symbol])[..|order|] == order;
      order := order + [symbol];
      todo := todo - {symbol};
    }
    assert IsOrder(cg, order);
    table := hasher.globalHashes;
  }

  method GetImpactedFuncsFakeHash(changed: set<Symbol>, cg: CallGraph) returns (impacted: set<Symbol>)
    ensures exists order :: IsOrder(cg, order) && impacted == Reported(FakeTableFor(cg, changed, order))
    ensures impacted <= Impact(cg, changed)
    ensures (forall s :: s in cg ==> !Tangled(Calls(cg), s)) ==>
              (impacted == Impact(cg, changed) <==> changed <= cg.Keys)
  {
    var table := GetFakeGlobalHashes(changed, cg);
    ghost var order :| IsOrder(cg, order) && table == FakeTableFor(cg, changed, order);
    impacted := set f | f in table && table[f] != 0;
    FastIsSound(cg, changed, order);
    FastEqualsSlowWithoutMutualCalls(cg, changed, order);
  }

  /** `s` reaches, in zero or more calls, a changed function that has a record. */
  ghost predicate ReachesChange(cg: CallGraph, changed: set<Symbol>, s: Symbol) {
    exists x :: x in changed && x in cg && Reaches(Calls(cg), s, x)
  }

  lemma ReachesChangeThroughEdge(cg: CallGraph, changed: set<Symbol>, s: Symbol, c: Symbol)
    requires Edge(Calls(cg), s, c) && ReachesChange(cg, changed, c)
    ensures ReachesChange(cg, changed, s)
  {
    var x :| x in changed && x in cg && Reaches(Calls(cg), c, x);
    ReachesThroughEdge(Calls(cg), s, c);
    ReachesTransitive(Calls(cg), s, c, x);
  }

  /** Values are 0 or 1; a 1 is never wrong, and a 0 is never the symbol's own change. */
  ghost predicate Sound(cg: CallGraph, changed: set<Symbol>, table: FakeTable) {
    forall t :: t in table ==>
      t in cg && ((table[t] == 0 && t !in changed) || (table[t] == 1 && ReachesChange(cg, changed, t)))
  }

  lemma {:induction false} QueryIsSound(cg: CallGraph, changed: set<Symbol>, s: Symbol, inProgress: set<Symbol>,
                                        table: FakeTable)
    requires Sound(cg, changed, table)
    ensures var q := FakeQuery(cg, changed, s, inProgress, table);
            && Sound(cg, changed, q.table)
            && (q.value.Some? <==> s in cg)
            && (s in cg ==> q.value.value == 0 || (q.value.value == 1 && ReachesChange(cg, changed, s)))
            && (s in cg && s !in inProgress ==> s in q.table)
            && table.Keys <= q.table.Keys
    decreases |cg.Keys - inProgress|, 0
  {
    ReachesSelf(Calls(cg), s);
    if s in cg && s !in table && s !in changed && s !in inProgress {
      StartingShrinks(cg, s, inProgress);
      QueriesAreSound(cg, changed, s, cg[s], inProgress + {s}, table);
    }
  }

  lemma {:induction false} QueriesAreSound(cg: CallGraph, changed: set<Symbol>, s: Symbol, todo: seq<Symbol>,
                                          inProgress: set<Symbol>, table: FakeTable)
    requires Sound(cg, changed, table)
    requires s in cg && forall c :: c in todo ==> c in cg[s]
    ensures var q := FakeQueries(cg, changed, todo, inProgress, table);
            && Sound(cg, changed, q.table)
            && (q.value == 0 || (q.value == 1 && ReachesChange(cg, changed, s)))
            && table.Keys <= q.table.Keys
    decreases |cg.Keys - inProgress|, 1 + |todo|
  {
    if todo != [] {
      var first := FakeQuery(cg, changed, todo[0], inProgress, table);
      QueryIsSound(cg, changed, todo[0], inProgress, table);
      if first.value.Some? && first.value.value != 0 {
        ReachesChangeThroughEdge(cg, changed, s, todo[0]);
      } else {
        QueriesAreSound(cg, changed, s, todo[1..], inProgress, first.table);
      }
    }
  }

  /** `c` has the memoised answer 0, or its answer is still open, or it is a library function. */
  ghost predicate ZeroOrOpen(cg: CallGraph, table: FakeTable, inProgress: set<Symbol>, c: Symbol) {
    c !in cg || c in inProgress || (c in table && table[c] == 0)
  }

  /** As long as no query has answered 1, what the symbols with answer 0 use has answer 0 or is open. */
  ghost predicate ZeroClosed(cg: CallGraph, table: FakeTable, inProgress: set<Symbol>) {
    forall t, c :: t in table && table[t] == 0 && t in cg && c in cg[t] ==> ZeroOrOpen(cg, table, inProgress, c)
  }

  lemma {:induction false} ZeroQueryCloses(cg: CallGraph, changed: set<Symbol>, s: Symbol, inProgress: set<Symbol>,
                                           table: FakeTable)
    requires Sound(cg, changed, table) && ZeroClosed(cg, table, inProgress)
    requires var v := FakeQuery(cg, changed, s, inProgress, table).value; v == None || v == Some(0)
    ensures var q := FakeQuery(cg, changed, s, inProgress, table);
            && ZeroClosed(cg, q.table, inProgress) && ZeroOrOpen(cg, q.table, inProgress, s)
            && (forall c :: ZeroOrOpen(cg, table, inProgress, c) ==> ZeroOrOpen(cg, q.table, inProgress, c))
    decreases |cg.Keys - inProgress|, 0
  {
    if s in cg && s !in table && s !in changed && s !in inProgress {
      StartingShrinks(cg, s, inProgress);
      assert ZeroClosed(cg, table, inProgress + {s}) by {
        forall c | ZeroOrOpen(cg, table, inProgress, c)
          ensures ZeroOrOpen(cg, table, inProgress + {s}, c)
        {
        }
      }
      ZeroQueriesClose(cg, changed, cg[s], inProgress + {s}, table);
      var q := FakeQuery(cg, changed, s, inProgress, table);
      forall c
        ensures ZeroOrOpen(cg, FakeQueries(cg, changed, cg[s], inProgress + {s}, table).table, inProgress + {s}, c)
            ==> ZeroOrOpen(cg, q.table, inProgress, c)
      {
      }
    }
  }

  lemma {:induction false} ZeroQueriesClose(cg: CallGraph, changed: set<Symbol>, todo: seq<Symbol>,
                                            inProgress: set<Symbol>, table: FakeTable)
    requires Sound(cg, changed, table) && ZeroClosed(cg, table, inProgress)
    requires FakeQueries(cg, changed, todo, inProgress, table).value == 0
    ensures var q := FakeQueries(cg, changed, todo, inProgress, table);
            && ZeroClosed(cg, q.table, inProgress)
            && (forall c :: c in todo ==> ZeroOrOpen(cg, q.table, inProgress, c))
            && (forall c :: ZeroOrOpen(cg, table, inProgress, c) ==> ZeroOrOpen(cg, q.table, inProgress, c))
    decreases |cg.Keys - inProgress|, 1 + |todo|
  {
    if todo != [] {
      var first := FakeQuery(cg, changed, todo[0], inProgress, table);
      QueryIsSound(cg, changed, todo[0], inProgress, table);
      ZeroQueryCloses(cg, changed, todo[0], inProgress, table);
      ZeroQueriesClose(cg, changed, todo[1..], inProgress, first.table);
    }
  }

  /** A query from scratch is exact for its root on every graph, although zeros memoised inside a cycle may be wrong. */
  lemma FreshQueryIsExact(cg: CallGraph, changed: set<Symbol>, s: Symbol)
    requires s in cg
    ensures FakeQuery(cg, changed, s, {}, map[]).value == Some(if ReachesChange(cg, changed, s) then 1 else 0)
  {
    QueryIsSound(cg, changed, s, {}, map[]);
    var q := FakeQuery(cg, changed, s, {}, map[]);
    if q.value == Some(0) && ReachesChange(cg, changed, s) {
      ZeroQueryCloses(cg, changed, s, {}, map[]);
      var harmless := (set t | t in q.table && q.table[t] == 0) + (Mentioned(cg) - cg.Keys);
      var x :| x in changed && x in cg && Reaches(Calls(cg), s, x);
      forall a, b | a in harmless && Edge(Calls(cg), a, b)
        ensures b in harmless
      {
        assert ZeroOrOpen(cg, q.table, {}, b);
        assert b in Mentioned(cg);
      }
      ClosedHoldsReached(Calls(cg), harmless, s, x);
    }
  }

  /** The table is exact for every symbol that reaches no cycle of two or more symbols. */
  ghost predicate Exact(cg: CallGraph, changed: set<Symbol>, table: FakeTable) {
    forall t :: t in table && !Tangled(Calls(cg), t) ==> (table[t] != 0 <==> ReachesChange(cg, changed, t))
  }

  lemma {:induction false} QueryKeepsExact(cg: CallGraph, changed: set<Symbol>, s: Symbol, inProgress: set<Symbol>,
                                           table: FakeTable)
    requires Exact(cg, changed, table) && inProgress !! table.Keys && inProgress !! changed
    requires forall x :: x in inProgress ==> Reaches(Calls(cg), x, s)
    ensures var q := FakeQuery(cg, changed, s, inProgress, table);
            && Exact(cg, changed, q.table) && inProgress !! q.table.Keys
            && (q.value.Some? <==> s in cg)
            && (s in cg && s in inProgress ==> q.value == Some(0))
            && (s in cg && s !in inProgress && !Tangled(Calls(cg), s) ==>
                  (q.value.value != 0 <==> ReachesChange(cg, changed, s)))
    decreases |cg.Keys - inProgress|, 0
  {
    ReachesSelf(Calls(cg), s);
    if s in cg && s !in table && s !in changed && s !in inProgress {
      StartingShrinks(cg, s, inProgress);
      QueriesKeepExact(cg, changed, s, cg[s], inProgress + {s}, table);
      UntangledReachesChange(cg, changed, s);
    }
  }

  lemma {:induction false} QueriesKeepExact(cg: CallGraph, changed: set<Symbol>, s: Symbol, todo: seq<Symbol>,
                                           inProgress: set<Symbol>, table: FakeTable)
    requires Exact(cg, changed, table) && inProgress !! table.Keys && inProgress !! changed
    requires forall x :: x in inProgress ==> Reaches(Calls(cg), x, s)
    requires s in cg && s in inProgress && forall c :: c in todo ==> c in cg[s]
    ensures var q := FakeQueries(cg, changed, todo, inProgress, table);
            && Exact(cg, changed, q.table) && inProgress !! q.table.Keys
            && (!Tangled(Calls(cg), s) ==>
                  (q.value != 0 <==> exists c :: c in todo && c != s && ReachesChange(cg, changed, c)))
    decreases |cg.Keys - inProgress|, 1 + |todo|
  {
    if todo != [] {
      var c := todo[0];
      forall x | x in inProgress
        ensures Reaches(Calls(cg), x, c)
      {
        ReachesThenEdge(Calls(cg), x, s, c);
      }
      var first := FakeQuery(cg, changed, c, inProgress, table);
      QueryKeepsExact(cg, changed, c, inProgress, table);
      LibraryReachesNoChange(cg, changed, c);
      if !Tangled(Calls(cg), s) {
        UntangledCallee(cg, s, c);
        assert c != s ==> c !in inProgress;
      }
      if !(first.value.Some? && first.value.value != 0) {
        QueriesKeepExact(cg, changed, s, todo[1..], inProgress, first.table);
      }
    }
  }

  lemma UntangledCallee(cg: CallGraph, s: Symbol, c: Symbol)
    requires Edge(Calls(cg), s, c) && !Tangled(Calls(cg), s)
    ensures !Tangled(Calls(cg), c)
    ensures c != s ==> !Reaches(Calls(cg), c, s)
  {
    if Tangled(Calls(cg), c) {
      TangledThroughEdge(Calls(cg), s, c);
    }
    ReachesSelf(Calls(cg), s);
    ReachesThroughEdge(Calls(cg), s, c);
  }

  lemma LibraryReachesNoChange(cg: CallGraph, changed: set<Symbol>, c: Symbol)
    ensures c !in cg ==> !ReachesChange(cg, changed, c)
  {
    if x :| c !in cg && x in changed && x in cg && Reaches(Calls(cg), c, x) {
      var next := ReachesSplitsFirst(Calls(cg), c, x);
    }
  }

  /** An unchanged function reaches a change exactly when one of its other callees does. */
  lemma UntangledReachesChange(cg: CallGraph, changed: set<Symbol>, s: Symbol)
    requires s in cg && s !in changed
    ensures ReachesChange(cg, changed, s) <==> exists c :: c in cg[s] && c != s && ReachesChange(cg, changed, c)
  {
    if ReachesChange(cg, changed, s) {
      var x :| x in changed && x in cg && Reaches(Calls(cg), s, x);
      var next := ReachesLeaves(Calls(cg), s, x);
      assert ReachesChange(cg, changed, next);
    }
    if c :| c in cg[s] && c != s && ReachesChange(cg, changed, c) {
      ReachesChangeThroughEdge(cg, changed, s, c);
    }
  }

  /** The shared table, for every order of the keys. */
  lemma {:induction false} SharedTable(cg: CallGraph, changed: set<Symbol>, order: seq<Symbol>)
    ensures var table := FakeTableFor(cg, changed, order);
            && Sound(cg, changed, table) && Exact(cg, changed, table)
            && forall s :: s in order && s in cg ==> s in table
    decreases |order|
  {
    if order != [] {
      var before := order[..|order| - 1];
      SharedTable(cg, changed, before);
      var last := order[|order| - 1];
      assert order == before + [last];
      QueryIsSound(cg, changed, last, {}, FakeTableFor(cg, changed, before));
      QueryKeepsExact(cg, changed, last, {}, FakeTableFor(cg, changed, before));
    }
  }

  /** Reaching a change is being impacted by the changed functions that have a record. */
  lemma ReachesChangeIsImpact(cg: CallGraph, changed: set<Symbol>, s: Symbol)
    requires s in cg
    ensures ReachesChange(cg, changed, s) <==> s in Impact(cg, changed * cg.Keys)
  {
    var g := Calls(cg);
    if ReachesChange(cg, changed, s) {
      var x :| x in changed && x in cg && Reaches(g, s, x);
      if s != x {
        var next := ReachesSplitsFirst(g, s, x);
        StepsToAnything(g, s, x);
        assert CallsTransitively(cg, s, x);
      }
    }
    if s in Impact(cg, changed * cg.Keys) {
      if s in changed {
        ReachesSelf(g, s);
      } else {
        var x :| x in changed * cg.Keys && CallsTransitively(cg, s, x);
        StepsToAnything(g, s, x);
        var c :| Edge(g, s, c) && Reaches(g, c, x);
        ReachesThroughEdge(g, s, c);
        ReachesTransitive(g, s, c, x);
      }
    }
  }

  /** On every graph and for every order of the keys the fast form reports only impacted functions, and all
      those that reach no cycle of two or more functions. */
  lemma FastIsSound(cg: CallGraph, changed: set<Symbol>, order: seq<Symbol>)
    requires IsOrder(cg, order)
    ensures var fast := Reported(FakeTableFor(cg, changed, order));
            && fast <= Impact(cg, changed * cg.Keys) <= Impact(cg, changed)
            && (forall s :: s in cg && !Tangled(Calls(cg), s) ==> (s in fast <==> s in Impact(cg, changed * cg.Keys)))
  {
    ReportedAreKeys(cg, changed, order);
    forall s | s in cg {
      FastForSymbol(cg, changed, order, s);
    }
  }

  lemma FastForSymbol(cg: CallGraph, changed: set<Symbol>, order: seq<Symbol>, s: Symbol)
    requires IsOrder(cg, order) && s in cg
    ensures s in Reported(FakeTableFor(cg, changed, order)) ==> s in Impact(cg, changed * cg.Keys)
    ensures s in Impact(cg, changed * cg.Keys) && !Tangled(Calls(cg), s) ==>
              s in Reported(FakeTableFor(cg, changed, order))
  {
    SharedTable(cg, changed, order);
    ReachesChangeIsImpact(cg, changed, s);
  }

  /** Without mutual calls the fast form equals the slow one exactly when all changed functions have a record. */
  lemma FastEqualsSlowWithoutMutualCalls(cg: CallGraph, changed: set<Symbol>, order: seq<Symbol>)
    requires IsOrder(cg, order)
    ensures (forall s :: s in cg ==> !Tangled(Calls(cg), s)) ==>
              (Reported(FakeTableFor(cg, changed, order)) == Impact(cg, changed) <==> changed <= cg.Keys)
  {
    var fast := Reported(FakeTableFor(cg, changed, order));
    FastIsSound(cg, changed, order);
    ReportedAreKeys(cg, changed, order);
    if forall s :: s in cg ==> !Tangled(Calls(cg), s) {
      var recorded := Impact(cg, changed * cg.Keys);
      assert recorded <= cg.Keys;
      assert fast == recorded;
      if changed <= cg.Keys {
        assert changed * cg.Keys == changed;
      }
    }
  }

  lemma ReportedAreKeys(cg: CallGraph, changed: set<Symbol>, order: seq<Symbol>)
    requires IsOrder(cg, order)
    ensures changed * cg.Keys <= Reported(FakeTableFor(cg, changed, order)) <= cg.Keys
  {
    SharedTable(cg, changed, order);
  }

  /** The fast form is exact precisely when no caller of a reported function is missing from its report. */
  lemma FastIsExactIffClosed(cg: CallGraph, changed: set<Symbol>, order: seq<Symbol>)
    requires IsOrder(cg, order) && changed <= cg.Keys
    ensures var fast := Reported(FakeTableFor(cg, changed, order));
            fast == Impact(cg, changed) <==> forall s, t :: s in cg && t in cg[s] && t in fast ==> s in fast
  {
    var fast := Reported(FakeTableFor(cg, changed, order));
    FastIsSound(cg, changed, order);
    ReportedAreKeys(cg, changed, order);
    if fast == Impact(cg, changed) {
      forall s, t | s in cg && t in cg[s] && t in fast
        ensures s in fast
      {
        ReachesSelf(Calls(cg), t);
        StepsToAnything(Calls(cg), s, t);
        if t in changed {
          assert CallsTransitively(cg, s, t);
        } else {
          var c :| c in changed && CallsTransitively(cg, t, c);
          CallsTransitivelyTransitive(cg, s, t, c);
        }
      }
    }
    if forall s, t :: s in cg && t in cg[s] && t in fast ==> s in fast {
      ImpactIsLeast(cg, changed, fast);
    }
  }
}
