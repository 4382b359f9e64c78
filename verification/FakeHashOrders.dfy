/** When the fast impact analysis equals the slow one, whatever order the dictionaries and the lists of used
    definitions come in. Both orders are arbitrary: the lists are written from a set of pointers. */
module FakeHashOrders {
  import opened Options
  import opened Reachability
  import opened CallGraphs
  import opened FakeHash

  function Elements(w: seq<Symbol>): set<Symbol> {
    set s | s in w
  }

  /** The same call graph, with the callees of each function listed in another order. */
  ghost predicate Reordered(cg: CallGraph, other: CallGraph) {
    cg.Keys == other.Keys && forall s :: s in cg ==> multiset(cg[s]) == multiset(other[s])
  }

  /** `b` can be reached from `a` without touching `avoid` at all. */
  ghost predicate ReachesOutside(g: Graph, a: Symbol, b: Symbol, avoid: set<Symbol>) {
    exists w :: IsWalkBetween(g, w, a, b) && forall i :: 0 <= i < |w| ==> w[i] !in avoid
  }

  ghost predicate ReachesChangeOutside(cg: CallGraph, changed: set<Symbol>, s: Symbol, avoid: set<Symbol>) {
    exists x :: x in changed && x in cg && ReachesOutside(Calls(cg), s, x, avoid)
  }

  /** A chain of calls between different, unchanged functions with a record, as it can be in progress. */
  ghost predicate IsChain(cg: CallGraph, changed: set<Symbol>, chain: seq<Symbol>) {
    && Distinct(chain)
    && (forall i :: 0 <= i < |chain| ==> chain[i] in cg && chain[i] !in changed)
    && (forall i :: 0 <= i < |chain| - 1 ==> Edge(Calls(cg), chain[i], chain[i + 1]))
  }

  function CalledByLast(cg: CallGraph, chain: seq<Symbol>): seq<Symbol>
    requires |chain| > 0
  {
    if chain[|chain| - 1] in cg then cg[chain[|chain| - 1]] else []
  }

  /** The chain calls `u`, and `u` reaches a change, but only through functions of the chain. */
  ghost predicate Trap(cg: CallGraph, changed: set<Symbol>, chain: seq<Symbol>, u: Symbol) {
    && |chain| > 0
    && IsChain(cg, changed, chain + [u])
    && ReachesChange(cg, changed, u)
    && !ReachesChangeOutside(cg, changed, u, Elements(chain))
  }

  lemma OutsideThroughEdge(g: Graph, a: Symbol, c: Symbol, b: Symbol, avoid: set<Symbol>)
    requires Edge(g, a, c) && a !in avoid && ReachesOutside(g, c, b, avoid)
    ensures ReachesOutside(g, a, b, avoid)
  {
    var w :| IsWalkBetween(g, w, c, b) && forall i :: 0 <= i < |w| ==> w[i] !in avoid;
    assert IsWalkBetween(g, [a] + w, a, b);
  }

  /** Leaving `a` for good on the way to another symbol. */
  lemma OutsideLeaves(g: Graph, a: Symbol, b: Symbol, avoid: set<Symbol>) returns (next: Symbol)
    requires ReachesOutside(g, a, b, avoid) && a != b
    ensures next !in avoid + {a} && Edge(g, a, next) && ReachesOutside(g, next, b, avoid + {a})
  {
    var w :| IsWalkBetween(g, w, a, b) && forall i :: 0 <= i < |w| ==> w[i] !in avoid;
    var i := |w| - 1;
    while w[i - 1] != a
      invariant 0 < i < |w| && forall j :: i <= j < |w| ==> w[j] != a
      decreases i
    {
      i := i - 1;
    }
    next := w[i];
    assert Edge(g, w[i - 1], w[i - 1 + 1]);
    assert IsWalkBetween(g, w[i..], next, b);
  }

  /** The table is exact for every symbol. */
  ghost predicate AllExact(cg: CallGraph, changed: set<Symbol>, table: FakeTable) {
    forall t :: t in table ==> (table[t] != 0 <==> ReachesChange(cg, changed, t))
  }

  ghost predicate NoTrap(cg: CallGraph, changed: set<Symbol>) {
    forall chain, u :: !Trap(cg, changed, chain, u)
  }

  /** A callee that is not in progress reaches a change. */
  ghost predicate ChangeBelow(cg: CallGraph, changed: set<Symbol>, todo: seq<Symbol>, inProgress: set<Symbol>) {
    exists c :: c in todo && c !in inProgress && ReachesChange(cg, changed, c)
  }

  /** The functions in progress form a chain. */
  ghost predicate InProgressChain(cg: CallGraph, changed: set<Symbol>, chain: seq<Symbol>, inProgress: set<Symbol>) {
    IsChain(cg, changed, chain) && inProgress == Elements(chain)
  }

  lemma ChainExtends(cg: CallGraph, changed: set<Symbol>, chain: seq<Symbol>, s: Symbol, inProgress: set<Symbol>)
    requires InProgressChain(cg, changed, chain, inProgress) && s in cg && s !in changed && s !in inProgress
    requires |chain| > 0 ==> s in CalledByLast(cg, chain)
    ensures InProgressChain(cg, changed, chain + [s], inProgress + {s})
    ensures CalledByLast(cg, chain + [s]) == cg[s]
  {
  }

  lemma {:induction false} QueryExactWithoutTrap(cg: CallGraph, changed: set<Symbol>, chain: seq<Symbol>, s: Symbol,
                                                inProgress: set<Symbol>, table: FakeTable)
    requires NoTrap(cg, changed) && InProgressChain(cg, changed, chain, inProgress)
    requires |chain| > 0 ==> s in CalledByLast(cg, chain)
    requires AllExact(cg, changed, table) && inProgress !! table.Keys
    ensures var q := FakeQuery(cg, changed, s, inProgress, table);
            && AllExact(cg, changed, q.table) && inProgress !! q.table.Keys
            && (q.value.Some? <==> s in cg)
            && (s in cg && s in inProgress ==> q.value == Some(0))
            && (s in cg && s !in inProgress ==> (q.value.value != 0 <==> ReachesChange(cg, changed, s)))
    decreases |cg.Keys - inProgress|, 0
  {
    ReachesSelf(Calls(cg), s);
    ChainUnchanged(cg, changed, chain, inProgress);
    if s in cg && s !in table && s !in changed && s !in inProgress {
      StartingShrinks(cg, s, inProgress);
      ChainExtends(cg, changed, chain, s, inProgress);
      QueriesExactWithoutTrap(cg, changed, chain + [s], cg[s], inProgress + {s}, table);
      ReachesChangeOffChain(cg, changed, chain, s, inProgress);
      var below := FakeQueries(cg, changed, cg[s], inProgress + {s}, table);
      AllExactUpdate(cg, changed, below.table, s, below.value);
      assert FakeQuery(cg, changed, s, inProgress, table).table == below.table[s := below.value];
    }
  }

  lemma {:induction false} QueriesExactWithoutTrap(cg: CallGraph, changed: set<Symbol>, chain: seq<Symbol>,
                                                   todo: seq<Symbol>, inProgress: set<Symbol>, table: FakeTable)
    requires NoTrap(cg, changed) && InProgressChain(cg, changed, chain, inProgress)
    requires |chain| > 0 && forall c :: c in todo ==> c in CalledByLast(cg, chain)
    requires AllExact(cg, changed, table) && inProgress !! table.Keys
    ensures var q := FakeQueries(cg, changed, todo, inProgress, table);
            && AllExact(cg, changed, q.table) && inProgress !! q.table.Keys
            && (q.value != 0 <==> ChangeBelow(cg, changed, todo, inProgress))
    decreases |cg.Keys - inProgress|, 1 + |todo|
  {
    if todo != [] {
      var c := todo[0];
      var first := FakeQuery(cg, changed, c, inProgress, table);
      QueryExactWithoutTrap(cg, changed, chain, c, inProgress, table);
      LibraryReachesNoChange(cg, changed, c);
      if !(first.value.Some? && first.value.value != 0) {
        QueriesExactWithoutTrap(cg, changed, chain, todo[1..], inProgress, first.table);
      }
    }
  }

  lemma AllExactUpdate(cg: CallGraph, changed: set<Symbol>, table: FakeTable, s: Symbol, value: int)
    requires AllExact(cg, changed, table) && (value != 0 <==> ReachesChange(cg, changed, s))
    ensures AllExact(cg, changed, table[s := value])
  {
  }

  lemma ChainUnchanged(cg: CallGraph, changed: set<Symbol>, chain: seq<Symbol>, inProgress: set<Symbol>)
    requires InProgressChain(cg, changed, chain, inProgress)
    ensures inProgress !! changed
  {
  }

  /** Without traps, reaching a change means that a callee off the chain reaches one. */
  lemma ReachesChangeOffChain(cg: CallGraph, changed: set<Symbol>, chain: seq<Symbol>, s: Symbol,
                              inProgress: set<Symbol>)
    requires NoTrap(cg, changed) && s in cg && InProgressChain(cg, changed, chain + [s], inProgress + {s})
    requires inProgress == Elements(chain)
    ensures ReachesChange(cg, changed, s) <==> ChangeBelow(cg, changed, cg[s], inProgress + {s})
  {
    var g := Calls(cg);
    assert s == (chain + [s])[|chain|];
    if ReachesChange(cg, changed, s) {
      assert !Trap(cg, changed, chain, s);
      if |chain| == 0 {
        var y :| y in changed && y in cg && Reaches(g, s, y);
        var w :| IsWalkBetween(g, w, s, y);
        assert ReachesOutside(g, s, y, inProgress);
      }
      var x :| x in changed && x in cg && ReachesOutside(g, s, x, inProgress);
      var c := OutsideLeaves(g, s, x, inProgress);
      var w :| IsWalkBetween(g, w, c, x) && forall i :: 0 <= i < |w| ==> w[i] !in inProgress + {s};
      assert Reaches(g, c, x);
    }
    if c :| c in cg[s] && c !in inProgress + {s} && ReachesChange(cg, changed, c) {
      ReachesChangeThroughEdge(cg, changed, s, c);
    }
  }

  lemma {:induction false} TableExactWithoutTrap(cg: CallGraph, changed: set<Symbol>, order: seq<Symbol>)
    requires NoTrap(cg, changed)
    ensures AllExact(cg, changed, FakeTableFor(cg, changed, order))
    decreases |order|
  {
    if order != [] {
      var before := order[..|order| - 1];
      TableExactWithoutTrap(cg, changed, before);
      assert Elements([]) == {};
      QueryExactWithoutTrap(cg, changed, [], order[|order| - 1], {}, FakeTableFor(cg, changed, before));
    }
  }

  /** A zero survives the rest of the search. */
  lemma {:induction false} QueryKeepsFakeEntries(cg: CallGraph, changed: set<Symbol>, s: Symbol,
                                                 inProgress: set<Symbol>, table: FakeTable)
    ensures var q := FakeQuery(cg, changed, s, inProgress, table);
            forall t :: t in table ==> t in q.table && q.table[t] == table[t]
    decreases |cg.Keys - inProgress|, 0
  {
    if s in cg && s !in table && s !in changed && s !in inProgress {
      StartingShrinks(cg, s, inProgress);
      QueriesKeepFakeEntries(cg, changed, cg[s], inProgress + {s}, table);
    }
  }

  lemma {:induction false} QueriesKeepFakeEntries(cg: CallGraph, changed: set<Symbol>, todo: seq<Symbol>,
                                                  inProgress: set<Symbol>, table: FakeTable)
    ensures var q := FakeQueries(cg, changed, todo, inProgress, table);
            forall t :: t in table ==> t in q.table && q.table[t] == table[t]
    decreases |cg.Keys - inProgress|, 1 + |todo|
  {
    if todo != [] {
      var first := FakeQuery(cg, changed, todo[0], inProgress, table);
      QueryKeepsFakeEntries(cg, changed, todo[0], inProgress, table);
      QueriesKeepFakeEntries(cg, changed, todo[1..], inProgress, first.table);
    }
  }

  /** No entry says that a change is reached. */
  ghost predicate OnlyZeros(table: FakeTable) {
    forall t :: t in table ==> table[t] == 0
  }

  lemma ChangeSeesItself(cg: CallGraph, changed: set<Symbol>, s: Symbol, avoid: set<Symbol>)
    requires s in cg && s in changed && s !in avoid
    ensures ReachesChangeOutside(cg, changed, s, avoid)
  {
    assert IsWalkBetween(Calls(cg), [s], s, s);
    assert ReachesOutside(Calls(cg), s, s, avoid);
  }

  lemma CalleeSeesChange(cg: CallGraph, changed: set<Symbol>, s: Symbol, c: Symbol, avoid: set<Symbol>)
    requires s in cg && c in cg[s] && s !in avoid
    ensures ReachesChangeOutside(cg, changed, c, avoid + {s}) ==> ReachesChangeOutside(cg, changed, s, avoid)
  {
    if x :| x in changed && x in cg && ReachesOutside(Calls(cg), c, x, avoid + {s}) {
      var w :| IsWalkBetween(Calls(cg), w, c, x) && forall i :: 0 <= i < |w| ==> w[i] !in avoid + {s};
      assert ReachesOutside(Calls(cg), c, x, avoid);
      OutsideThroughEdge(Calls(cg), s, c, x, avoid);
    }
  }

  /** With no change in sight outside the functions in progress, the answer is zero. */
  lemma {:induction false} BlindQuery(cg: CallGraph, changed: set<Symbol>, s: Symbol, inProgress: set<Symbol>,
                                      table: FakeTable)
    requires OnlyZeros(table)
    requires forall x :: x in inProgress ==> x !in changed
    requires s !in inProgress ==> !ReachesChangeOutside(cg, changed, s, inProgress)
    ensures var q := FakeQuery(cg, changed, s, inProgress, table);
            OnlyZeros(q.table) && (q.value.Some? ==> q.value == Some(0))
            && (s in cg && s !in inProgress ==> s in q.table)
    decreases |cg.Keys - inProgress|, 0
  {
    if s in cg && s !in table && s !in inProgress {
      if s in changed {
        ChangeSeesItself(cg, changed, s, inProgress);
      }
      StartingShrinks(cg, s, inProgress);
      forall c | c in cg[s] && c !in inProgress + {s}
        ensures ReachesChangeOutside(cg, changed, c, inProgress + {s}) ==>
                  ReachesChangeOutside(cg, changed, s, inProgress)
      {
        CalleeSeesChange(cg, changed, s, c, inProgress);
      }
      BlindQueries(cg, changed, cg[s], inProgress + {s}, table);
    }
  }

  lemma {:induction false} BlindQueries(cg: CallGraph, changed: set<Symbol>, todo: seq<Symbol>,
                                        inProgress: set<Symbol>, table: FakeTable)
    requires OnlyZeros(table)
    requires forall x :: x in inProgress ==> x !in changed
    requires forall c :: c in todo && c !in inProgress ==> !ReachesChangeOutside(cg, changed, c, inProgress)
    ensures var q := FakeQueries(cg, changed, todo, inProgress, table);
            OnlyZeros(q.table) && q.value == 0
    decreases |cg.Keys - inProgress|, 1 + |todo|
  {
    if todo != [] {
      var first := FakeQuery(cg, changed, todo[0], inProgress, table);
      BlindQuery(cg, changed, todo[0], inProgress, table);
      BlindQueries(cg, changed, todo[1..], inProgress, first.table);
    }
  }

  /** The callee at the front of a list of callees. */
  ghost function MoveToFront(callees: seq<Symbol>, c: Symbol): (r: seq<Symbol>)
    ensures multiset(r) == multiset(callees)
    ensures c in callees ==> |r| > 0 && r[0] == c
  {
    if i :| 0 <= i < |callees| && callees[i] == c then
      assert callees == callees[..i] + [c] + callees[i + 1..];
      [c] + callees[..i] + callees[i + 1..]
    else callees
  }

  ghost function Position(chain: seq<Symbol>, s: Symbol): (i: nat)
    requires s in chain
    ensures i < |chain| && chain[i] == s
  {
    var i :| 0 <= i < |chain| && chain[i] == s; i
  }

  /** The listing in which every function of the chain lists its successor in the chain first. */
  ghost function Staged(cg: CallGraph, chain: seq<Symbol>): CallGraph {
    map s | s in cg ::
      if s in chain && Position(chain, s) + 1 < |chain| then
        MoveToFront(cg[s], chain[Position(chain, s) + 1])
      else cg[s]
  }

  lemma ReorderedSameCalls(cg: CallGraph, other: CallGraph)
    requires Reordered(cg, other)
    ensures Calls(other) == Calls(cg)
  {
    forall s | s in cg
      ensures (set c | c in other[s]) == (set c | c in cg[s])
    {
      assert forall c :: c in cg[s] <==> c in multiset(cg[s]);
      assert forall c :: c in other[s] <==> c in multiset(other[s]);
    }
  }

  /** Every function of `w` but the last lists the next one first. */
  ghost predicate ListsNextFirst(cg: CallGraph, w: seq<Symbol>) {
    forall i :: 0 <= i < |w| - 1 ==> w[i] in cg && |cg[w[i]]| > 0 && cg[w[i]][0] == w[i + 1]
  }

  lemma StagedAt(cg: CallGraph, chain: seq<Symbol>, i: nat)
    requires Distinct(chain) && i < |chain| - 1 && chain[i] in cg
    ensures Staged(cg, chain)[chain[i]] == MoveToFront(cg[chain[i]], chain[i + 1])
  {
    hide MoveToFront;
    PositionIs(chain, i);
  }

  lemma PositionIs(chain: seq<Symbol>, i: nat)
    requires Distinct(chain) && i < |chain|
    ensures chain[i] in chain && Position(chain, chain[i]) == i
  {
    assert forall k :: 0 <= k < |chain| && k != i ==> chain[k] != chain[i];
  }

  lemma StagedChain(cg: CallGraph, changed: set<Symbol>, chain: seq<Symbol>)
    requires IsChain(cg, changed, chain)
    ensures Reordered(cg, Staged(cg, chain)) && ListsNextFirst(Staged(cg, chain), chain)
  {
    forall i | 0 <= i < |chain| - 1
      ensures chain[i] in Staged(cg, chain) && |Staged(cg, chain)[chain[i]]| > 0
      ensures Staged(cg, chain)[chain[i]][0] == chain[i + 1]
    {
      StagedAt(cg, chain, i);
      assert Edge(Calls(cg), chain[i], chain[i + 1]);
    }
  }

  /** The search goes straight down the chain, and the function at its end gets a zero it keeps. */
  lemma {:induction false} SearchDownChain(cg: CallGraph, changed: set<Symbol>, w: seq<Symbol>, i: nat,
                                           inProgress: set<Symbol>)
    requires i < |w| && IsChain(cg, changed, w) && ListsNextFirst(cg, w) && inProgress == Elements(w[..i])
    requires !ReachesChangeOutside(cg, changed, w[|w| - 1], Elements(w[..|w| - 1]))
    ensures var q := FakeQuery(cg, changed, w[i], inProgress, map[]);
            w[|w| - 1] in q.table && q.table[w[|w| - 1]] == 0
    decreases |w| - i
  {
    var s := w[i];
    if i == |w| - 1 {
      BlindQuery(cg, changed, s, inProgress, map[]);
    } else {
      assert w[..i + 1] == w[..i] + [s];
      SearchDownChain(cg, changed, w, i + 1, inProgress + {s});
      var first := FakeQuery(cg, changed, w[i + 1], inProgress + {s}, map[]);
      FirstQueryKept(cg, changed, cg[s], inProgress + {s});
      FakeQueryMiss(cg, changed, s, inProgress, map[]);
    }
  }

  lemma FirstQueryKept(cg: CallGraph, changed: set<Symbol>, todo: seq<Symbol>, inProgress: set<Symbol>)
    requires todo != []
    ensures var first := FakeQuery(cg, changed, todo[0], inProgress, map[]);
            forall t :: t in first.table ==>
              var q := FakeQueries(cg, changed, todo, inProgress, map[]);
              t in q.table && q.table[t] == first.table[t]
  {
    var first := FakeQuery(cg, changed, todo[0], inProgress, map[]);
    QueriesKeepFakeEntries(cg, changed, todo[1..], inProgress, first.table);
  }

  lemma {:induction false} OrderKeepsFakeEntries(cg: CallGraph, changed: set<Symbol>, first: Symbol, rest: seq<Symbol>)
    ensures var q := FakeQuery(cg, changed, first, {}, map[]).table;
            var table := FakeTableFor(cg, changed, [first] + rest);
            forall t :: t in q ==> t in table && table[t] == q[t]
    decreases |rest|
  {
    var order := [first] + rest;
    var before := order[..|order| - 1];
    if rest == [] {
      assert before == [] && FakeTableFor(cg, changed, before) == map[];
    } else {
      assert before == [first] + rest[..|rest| - 1];
      OrderKeepsFakeEntries(cg, changed, first, rest[..|rest| - 1]);
      QueryKeepsFakeEntries(cg, changed, order[|order| - 1], {}, FakeTableFor(cg, changed, before));
    }
  }

  /** Reported equals Impact for this listing of the callees and this order of the keys. */
  ghost predicate FastIsExact(cg: CallGraph, changed: set<Symbol>, order: seq<Symbol>) {
    Reported(FakeTableFor(cg, changed, order)) == Impact(cg, changed)
  }

  /** An order that starts with a given key. */
  lemma OrderFrom(cg: CallGraph, first: Symbol) returns (rest: seq<Symbol>)
    requires first in cg
    ensures IsOrder(cg, [first] + rest)
  {
    rest := SomeOrder(cg.Keys - {first});
    assert forall i :: 0 <= i < |rest| ==> rest[i] in rest;
  }

  /** A trap costs an impacted function under some orders. */
  lemma TrapLosesImpact(cg: CallGraph, changed: set<Symbol>, chain: seq<Symbol>, u: Symbol)
    returns (other: CallGraph, order: seq<Symbol>)
    requires Trap(cg, changed, chain, u) && changed <= cg.Keys
    ensures Reordered(cg, other) && IsOrder(other, order) && !FastIsExact(other, changed, order)
  {
    var w := chain + [u];
    hide IsOrder, FastIsExact, Staged;
    other := Staged(cg, w);
    StagedChain(cg, changed, w);
    ReorderedSameCalls(cg, other);
    assert w[..|w| - 1] == chain && w[0] == chain[0] && Elements(w[..0]) == {};
    SearchDownChain(other, changed, w, 0, {});
    var rest := OrderFrom(other, chain[0]);
    order := [chain[0]] + rest;
    OrderKeepsFakeEntries(other, changed, chain[0], rest);
    ZeroIsMissed(other, changed, order, u);
  }

  lemma ZeroIsMissed(cg: CallGraph, changed: set<Symbol>, order: seq<Symbol>, u: Symbol)
    requires changed <= cg.Keys && u in cg && ReachesChange(cg, changed, u)
    requires u in FakeTableFor(cg, changed, order) && FakeTableFor(cg, changed, order)[u] == 0
    ensures !FastIsExact(cg, changed, order)
  {
    ReachesChangeIsImpact(cg, changed, u);
    assert changed * cg.Keys == changed;
  }

  lemma SomeOrder(keys: set<Symbol>) returns (order: seq<Symbol>)
    ensures Distinct(order) && forall s :: s in order <==> s in keys
  {
    var todo := keys;
    order := [];
    while todo != {}
      invariant Distinct(order) && forall s :: s in order <==> s in keys && s !in todo
      invariant todo <= keys
      decreases todo
    {
      var s :| s in todo;
      order := order + [s];
      todo := todo - {s};
    }
  }

  /** The fast form equals the slow one for all orders exactly when all changed functions have a record and no chain
      of calls traps a function: one that the chain calls and that reaches a change only by going back through it. */
  lemma FastIsExactForAllOrdersIffNoTrap(cg: CallGraph, changed: set<Symbol>)
    ensures (forall other, order :: Reordered(cg, other) && IsOrder(other, order) ==>
              FastIsExact(other, changed, order))
       <==> changed <= cg.Keys && NoTrap(cg, changed)
  {
    if !(changed <= cg.Keys) {
      var order := SomeOrder(cg.Keys);
      ReportedAreKeys(cg, changed, order);
      assert Reordered(cg, cg) && IsOrder(cg, order) && !FastIsExact(cg, changed, order);
    } else if chain, u :| Trap(cg, changed, chain, u) {
      var other, order := TrapLosesImpact(cg, changed, chain, u);
      assert Reordered(cg, other) && IsOrder(other, order) && !FastIsExact(other, changed, order);
    } else {
      forall other, order | Reordered(cg, other) && IsOrder(other, order)
        ensures FastIsExact(other, changed, order)
      {
        NoTrapReordered(cg, other, changed);
        ExactWithoutTrap(other, changed, order);
      }
    }
  }

  lemma NoTrapReordered(cg: CallGraph, other: CallGraph, changed: set<Symbol>)
    requires NoTrap(cg, changed) && Reordered(cg, other)
    ensures NoTrap(other, changed)
  {
    ReorderedSameCalls(cg, other);
    forall chain, u
      ensures !Trap(other, changed, chain, u)
    {
      assert !Trap(cg, changed, chain, u);
    }
  }

  lemma ExactWithoutTrap(cg: CallGraph, changed: set<Symbol>, order: seq<Symbol>)
    requires NoTrap(cg, changed) && IsOrder(cg, order) && changed <= cg.Keys
    ensures FastIsExact(cg, changed, order)
  {
    assert changed * cg.Keys == changed;
    forall s | s in cg
      ensures s in Reported(FakeTableFor(cg, changed, order)) <==> s in Impact(cg, changed)
    {
      TableExactWithoutTrap(cg, changed, order);
      SharedTable(cg, changed, order);
      ReachesChangeIsImpact(cg, changed, s);
    }
    ReportedAreKeys(cg, changed, order);
    assert Impact(cg, changed) <= cg.Keys;
  }

  /** Two functions that call each other, one of which also calls a changed function. */
  lemma CycleTraps(a: Symbol, b: Symbol, c: Symbol)
    requires a != b && b != c && a != c
    ensures Trap(map[a := [b, c], b := [a], c := []], {c}, [a], b)
  {
    var cg: CallGraph := map[a := [b, c], b := [a], c := []];
    var g := Calls(cg);
    assert IsWalkBetween(g, [b, a, c], b, c);
    assert Reaches(g, b, c);
    forall w | IsWalkBetween(g, w, b, c)
      ensures exists i :: 0 <= i < |w| && w[i] in Elements([a])
    {
      assert Edge(g, w[0], w[1]);
      assert w[1] in Elements([a]);
    }
  }
}
