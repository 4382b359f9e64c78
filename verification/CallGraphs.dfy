/** Transitive callers, transitive callees and change impact on a call graph (dependency_analyzer). */
module CallGraphs {
  import opened Reachability

  /** The functions each analysed function calls; only the keys are analysed. */
  type CallGraph = map<Symbol, seq<Symbol>>

  datatype Lookup<T> = Found(value: T) | KeyError(missing: Symbol)

  /** Direct calls. */
  function Calls(cg: CallGraph): Graph {
    map s | s in cg :: set c | c in cg[s]
  }

  /** The functions that call `symbol` directly. */
  function DirectDependents(cg: CallGraph, symbol: Symbol): set<Symbol> {
    set s | s in cg && symbol in cg[s]
  }

  /** The analysed functions that `symbol` calls directly. */
  function DirectDependees(cg: CallGraph, symbol: Symbol): (s: set<Symbol>)
    requires symbol in cg
    ensures s <= cg.Keys
  {
    set s | s in cg && s in cg[symbol]
  }

  function Mentioned(cg: CallGraph): set<Symbol> {
    cg.Keys + set s, t | s in cg && t in cg[s] :: t
  }

  /** The graph get_dependents searches: from a function to its direct callers. */
  function DependentsGraph(cg: CallGraph): Graph {
    map t | t in Mentioned(cg) :: DirectDependents(cg, t)
  }

  /** The graph get_dependees searches: from a function to its analysed direct callees. */
  function DependeesGraph(cg: CallGraph): Graph {
    map s | s in cg :: DirectDependees(cg, s)
  }

  /** `s` calls `t` through a chain of one or more calls. */
  ghost predicate CallsTransitively(cg: CallGraph, s: Symbol, t: Symbol) {
    StepsTo(Calls(cg), s, t, {})
  }

  /** All functions a call chain leads from to `symbol`. */
  ghost function TransitiveCallers(cg: CallGraph, symbol: Symbol): set<Symbol> {
    set s | s in cg && CallsTransitively(cg, s, symbol)
  }

  /** All analysed functions a call chain leads to from `symbol`. */
  ghost function TransitiveCallees(cg: CallGraph, symbol: Symbol): set<Symbol> {
    set t | t in cg && CallsTransitively(cg, symbol, t)
  }

  /** What a set of changes can affect. */
  ghost function Impact(cg: CallGraph, changed: set<Symbol>): set<Symbol> {
    changed + set s | s in cg && exists c :: c in changed && CallsTransitively(cg, s, c)
  }

  /** The part of the call graph a set of its keys spans. */
  function Restricted(cg: CallGraph, keys: set<Symbol>): CallGraph
    requires keys <= cg.Keys
  {
    map s | s in keys :: cg[s]
  }

  /** The fields are the static "processed" sets of the two recursive searches. */
  class DependencyAnalyzer {
    var inDependents: set<Symbol>
    var inDependees: set<Symbol>

    constructor ()
      ensures inDependents == {} && inDependees == {}
    {
      inDependents, inDependees := {}, {};
    }

    /** The search prunes only at symbols on its current path; it remembers nothing else. */
    method GetDependents(symbol: Symbol, cg: CallGraph) returns (dependents: set<Symbol>)
      modifies this`inDependents
      ensures inDependents == old(inDependents)
      ensures forall s :: s in dependents <==>
                symbol !in inDependents && StepsTo(DependentsGraph(cg), symbol, s, inDependents)
      ensures inDependents == {} ==> dependents == TransitiveCallers(cg, symbol)
      decreases |cg.Keys + {symbol} - inDependents|
    {
      hide StepsTo, TransitiveCallers, DependentsGraph, Gathered;
      if symbol in inDependents {
        return {};
      }
      ghost var before := inDependents;
      inDependents := inDependents + {symbol};
      ghost var path := inDependents;
      dependents := DirectDependents(cg, symbol);
      var keys := dependents;
      var todo := keys;
      GatherNone(DependentsGraph(cg), keys, path);
      while todo != {}
        invariant inDependents == path && todo <= keys
        invariant Gathered(DependentsGraph(cg), keys, keys - todo, path, dependents)
        decreases todo
      {
        var sym :| sym in todo;
        CallMeasure(cg, symbol, sym, before);
        var more := GetDependents(sym, cg);
        GatherOne(DependentsGraph(cg), keys, todo, path, dependents, sym, more);
        dependents := dependents + more;
        todo := todo - {sym};
      }
      assert keys - todo == keys;
      inDependents := inDependents - {symbol};
      DirectDependentsAreEdges(cg, symbol);
      SearchResult(DependentsGraph(cg), symbol, before, keys, dependents);
      if before == {} {
        DependentsFromScratch(cg, symbol, dependents);
      }
    }

    /** A symbol without a record makes the lookup fail, and then it stays in the processed set. With an empty
        call graph nothing is looked up. */
    method GetDependees(symbol: Symbol, cg: CallGraph) returns (dependees: Lookup<set<Symbol>>)
      modifies this`inDependees
      ensures symbol in old(inDependees) ==> dependees == Found({}) && inDependees == old(inDependees)
      ensures symbol !in old(inDependees) && symbol !in cg && cg != map[] ==>
                dependees == KeyError(symbol) && inDependees == old(inDependees) + {symbol}
      ensures symbol !in old(inDependees) && (symbol in cg || cg == map[]) ==>
                && dependees.Found? && inDependees == old(inDependees)
                && forall s :: s in dependees.value <==> StepsTo(DependeesGraph(cg), symbol, s, inDependees)
      ensures old(inDependees) == {} && (symbol in cg || cg == map[]) ==>
                dependees == Found(TransitiveCallees(cg, symbol))
      decreases |cg.Keys + {symbol} - inDependees|, 1
    {
      hide StepsTo, TransitiveCallees, DependeesGraph, DirectDependees, Gathered;
      if symbol in inDependees {
        return Found({});
      }
      ghost var before := inDependees;
      inDependees := inDependees + {symbol};
      if cg != map[] && symbol !in cg {
        return KeyError(symbol);
      }
      var keys := if cg == map[] then {} else DirectDependees(cg, symbol);
      var result := AddDependeesOf(keys, cg, symbol, before);
      inDependees := inDependees - {symbol};
      DependeesFound(cg, symbol, before, result);
      dependees := Found(result);
    }

    /** The loop of the search: the direct callees, and what is found below each of them. */
    method AddDependeesOf(keys: set<Symbol>, cg: CallGraph, ghost symbol: Symbol, ghost before: set<Symbol>)
      returns (result: set<Symbol>)
      requires keys <= cg.Keys && symbol !in before && inDependees == before + {symbol}
      modifies this`inDependees
      ensures inDependees == old(inDependees)
      ensures Gathered(DependeesGraph(cg), keys, keys, inDependees, result)
      decreases |cg.Keys + {symbol} - before|, 0
    {
      hide StepsTo, TransitiveCallees, DependeesGraph, Gathered;
      ghost var path := inDependees;
      result := keys;
      var todo := keys;
      GatherNone(DependeesGraph(cg), keys, path);
      while todo != {}
        invariant inDependees == path && todo <= keys
        invariant Gathered(DependeesGraph(cg), keys, keys - todo, path, result)
        decreases todo
      {
        var sym :| sym in todo;
        CallMeasure(cg, symbol, sym, before);
        var more := GetDependees(sym, cg);
        GatherOne(DependeesGraph(cg), keys, todo, path, result, sym, more.value);
        result := result + more.value;
        todo := todo - {sym};
      }
      assert keys - todo == keys;
    }

    /** The symbol itself always belongs to its graph, so without a record it has none. */
    method GetDependencyGraphOf(symbol: Symbol, cg: CallGraph) returns (part: Lookup<CallGraph>)
      modifies this`inDependees
      ensures symbol !in cg ==>
                part == KeyError(symbol) && inDependees == old(inDependees) + if cg == map[] then {} else {symbol}
      ensures symbol in cg ==>
                && inDependees == old(inDependees) && part.Found?
                && part.value.Keys <= cg.Keys && (forall s :: s in part.value ==> part.value[s] == cg[s])
                && forall s :: s in part.value <==>
                     s == symbol || (symbol !in inDependees && StepsTo(DependeesGraph(cg), symbol, s, inDependees))
      ensures symbol in cg && old(inDependees) == {} ==>
                part == Found(Restricted(cg, TransitiveCallees(cg, symbol) + {symbol}))
    {
      var dependees := GetDependees(symbol, cg);
      if dependees.KeyError? || symbol !in cg {
        return KeyError(symbol);
      }
      DependeesAreKeys(cg, symbol, inDependees);
      part := Found(Restricted(cg, dependees.value + {symbol}));
    }

    method GetImpactedFuncs(changed: set<Symbol>, cg: CallGraph) returns (impacted: set<Symbol>)
      requires inDependents == {}
      modifies this`inDependents
      ensures inDependents == {}
      ensures impacted == Impact(cg, changed)
    {
      impacted := changed;
      var todo := changed;
      while todo != {}
        invariant inDependents == {} && todo <= changed
        invariant impacted == changed + set s | s in cg &&
                                        exists c :: c in changed && c !in todo && CallsTransitively(cg, s, c)
        decreases todo
      {
        var symbol :| symbol in todo;
        var more := GetDependents(symbol, cg);
        impacted := impacted + more;
        todo := todo - {symbol};
      }
    }
  }

  /** `s` is found below one of the symbols already searched. */
  ghost predicate FoundBelow(g: Graph, searched: set<Symbol>, path: set<Symbol>, s: Symbol) {
    exists c :: c in searched && c !in path && StepsTo(g, c, s, path)
  }

  ghost predicate Gathered(g: Graph, keys: set<Symbol>, searched: set<Symbol>, path: set<Symbol>, found: set<Symbol>) {
    forall s :: s in found <==> s in keys || FoundBelow(g, searched, path, s)
  }

  lemma GatherNone(g: Graph, keys: set<Symbol>, path: set<Symbol>)
    ensures Gathered(g, keys, keys - keys, path, keys)
  {
  }

  lemma GatherOne(g: Graph, keys: set<Symbol>, todo: set<Symbol>, path: set<Symbol>, found: set<Symbol>, sym: Symbol,
                  more: set<Symbol>)
    requires Gathered(g, keys, keys - todo, path, found) && sym in todo && todo <= keys
    requires forall s :: s in more <==> sym !in path && StepsTo(g, sym, s, path)
    ensures Gathered(g, keys, keys - (todo - {sym}), path, found + more)
  {
    hide StepsTo;
  }

  lemma SearchResult(g: Graph, symbol: Symbol, before: set<Symbol>, keys: set<Symbol>, found: set<Symbol>)
    requires symbol !in before
    requires forall c :: c in keys <==> Edge(g, symbol, c)
    requires Gathered(g, keys, keys, before + {symbol}, found)
    ensures forall s :: s in found <==> StepsTo(g, symbol, s, before)
  {
    forall s
      ensures s in found <==> StepsTo(g, symbol, s, before)
    {
      StepsToRecurrence(g, symbol, s, before);
    }
  }

  lemma DependentsFromScratch(cg: CallGraph, symbol: Symbol, found: set<Symbol>)
    requires forall s :: s in found <==> StepsTo(DependentsGraph(cg), symbol, s, {})
    ensures found == TransitiveCallers(cg, symbol)
  {
    forall s
      ensures s in found <==> s in TransitiveCallers(cg, symbol)
    {
      ReversedCalls(cg, s, symbol);
      if CallsTransitively(cg, s, symbol) {
        CallersAreKeys(cg, s, symbol);
      }
    }
  }

  lemma DependeesFound(cg: CallGraph, symbol: Symbol, before: set<Symbol>, found: set<Symbol>)
    requires symbol !in before && (symbol in cg || cg == map[])
    requires var keys := if cg == map[] then {} else DirectDependees(cg, symbol);
             Gathered(DependeesGraph(cg), keys, keys, before + {symbol}, found)
    ensures forall s :: s in found <==> StepsTo(DependeesGraph(cg), symbol, s, before)
    ensures before == {} ==> found == TransitiveCallees(cg, symbol)
  {
    var keys := if cg == map[] then {} else DirectDependees(cg, symbol);
    DirectDependeesAreEdges(cg, symbol);
    SearchResult(DependeesGraph(cg), symbol, before, keys, found);
    if before == {} {
      DependeesFromScratch(cg, symbol, found);
    }
  }

  lemma DependeesFromScratch(cg: CallGraph, symbol: Symbol, found: set<Symbol>)
    requires forall s :: s in found <==> StepsTo(DependeesGraph(cg), symbol, s, {})
    ensures found == TransitiveCallees(cg, symbol)
  {
    forall s
      ensures s in found <==> s in TransitiveCallees(cg, symbol)
    {
      AnalysedCalls(cg, symbol, s);
    }
  }

  lemma DirectDependeesAreEdges(cg: CallGraph, symbol: Symbol)
    ensures cg == map[] ==> forall c :: !Edge(DependeesGraph(cg), symbol, c)
    ensures symbol in cg ==> forall c :: c in DirectDependees(cg, symbol) <==> Edge(DependeesGraph(cg), symbol, c)
  {
  }

  lemma DependeesAreKeys(cg: CallGraph, symbol: Symbol, avoid: set<Symbol>)
    ensures forall s :: StepsTo(DependeesGraph(cg), symbol, s, avoid) ==> s in cg
  {
    forall s | StepsTo(DependeesGraph(cg), symbol, s, avoid)
      ensures s in cg
    {
      var w :| IsWalkBetween(DependeesGraph(cg), w, symbol, s) && |w| > 1 && Avoids(w, avoid);
      assert Edge(DependeesGraph(cg), w[|w| - 2], w[|w| - 2 + 1]);
    }
  }

  lemma CallMeasure(cg: CallGraph, symbol: Symbol, next: Symbol, processed: set<Symbol>)
    requires symbol !in processed && next in cg
    ensures |cg.Keys + {next} - (processed + {symbol})| < |cg.Keys + {symbol} - processed|
  {
    assert cg.Keys + {next} - (processed + {symbol}) == (cg.Keys + {symbol} - processed) - {symbol};
  }

  lemma DirectDependentsAreEdges(cg: CallGraph, symbol: Symbol)
    ensures forall c :: c in DirectDependents(cg, symbol) <==> Edge(DependentsGraph(cg), symbol, c)
  {
    forall c | c in DirectDependents(cg, symbol)
      ensures symbol in Mentioned(cg)
    {
      assert c in cg && symbol in cg[c];
    }
  }

  lemma CallersAreKeys(cg: CallGraph, s: Symbol, t: Symbol)
    requires CallsTransitively(cg, s, t)
    ensures s in cg
  {
    var w :| IsWalkBetween(Calls(cg), w, s, t) && |w| > 1 && Avoids(w, {});
    assert Edge(Calls(cg), w[0], w[1]);
  }

  function Reversed(w: seq<Symbol>): (r: seq<Symbol>)
    ensures |r| == |w| && forall i :: 0 <= i < |w| ==> r[i] == w[|w| - 1 - i]
  {
    seq(|w|, i requires 0 <= i < |w| => w[|w| - 1 - i])
  }

  /** A chain of calls read backwards is a walk of the search for callers. */
  lemma ReversedCalls(cg: CallGraph, s: Symbol, t: Symbol)
    ensures CallsTransitively(cg, s, t) <==> StepsTo(DependentsGraph(cg), t, s, {})
  {
    if CallsTransitively(cg, s, t) {
      var w :| IsWalkBetween(Calls(cg), w, s, t) && |w| > 1 && Avoids(w, {});
      var r := Reversed(w);
      forall i | 0 <= i < |r| - 1
        ensures Edge(DependentsGraph(cg), r[i], r[i + 1])
      {
        assert Edge(Calls(cg), w[|w| - 2 - i], w[|w| - 2 - i + 1]);
        DirectDependentsAreEdges(cg, r[i]);
      }
      assert IsWalkBetween(DependentsGraph(cg), r, t, s) && Avoids(r, {});
    }
    if StepsTo(DependentsGraph(cg), t, s, {}) {
      var w :| IsWalkBetween(DependentsGraph(cg), w, t, s) && |w| > 1 && Avoids(w, {});
      var r := Reversed(w);
      forall i | 0 <= i < |r| - 1
        ensures Edge(Calls(cg), r[i], r[i + 1])
      {
        assert Edge(DependentsGraph(cg), w[|w| - 2 - i], w[|w| - 2 - i + 1]);
      }
      assert IsWalkBetween(Calls(cg), r, s, t) && Avoids(r, {});
    }
  }

  /** Skipping callees without a record loses no chain that ends at a recorded one. */
  lemma AnalysedCalls(cg: CallGraph, s: Symbol, t: Symbol)
    ensures StepsTo(DependeesGraph(cg), s, t, {}) <==> t in cg && CallsTransitively(cg, s, t)
  {
    if StepsTo(DependeesGraph(cg), s, t, {}) {
      var w :| IsWalkBetween(DependeesGraph(cg), w, s, t) && |w| > 1 && Avoids(w, {});
      assert Edge(DependeesGraph(cg), w[|w| - 2], w[|w| - 2 + 1]);
      forall i | 0 <= i < |w| - 1
        ensures Edge(Calls(cg), w[i], w[i + 1])
      {
        assert Edge(DependeesGraph(cg), w[i], w[i + 1]);
      }
      assert IsWalkBetween(Calls(cg), w, s, t);
    }
    if t in cg && CallsTransitively(cg, s, t) {
      var w :| IsWalkBetween(Calls(cg), w, s, t) && |w| > 1 && Avoids(w, {});
      forall i | 0 <= i < |w| - 1
        ensures Edge(DependeesGraph(cg), w[i], w[i + 1])
      {
        assert Edge(Calls(cg), w[i], w[i + 1]);
        if i + 1 < |w| - 1 {
          assert Edge(Calls(cg), w[i + 1], w[i + 1 + 1]);
        }
      }
      assert IsWalkBetween(DependeesGraph(cg), w, s, t);
    }
  }

  lemma CallsTransitivelyTransitive(cg: CallGraph, a: Symbol, b: Symbol, c: Symbol)
    requires CallsTransitively(cg, a, b) && CallsTransitively(cg, b, c)
    ensures CallsTransitively(cg, a, c)
  {
    var g := Calls(cg);
    StepsToAnything(g, a, b);
    StepsToAnything(g, b, c);
    StepsToAnything(g, a, c);
    var x :| Edge(g, a, x) && Reaches(g, x, b);
    var y :| Edge(g, b, y) && Reaches(g, y, c);
    ReachesThenEdge(g, x, b, y);
    ReachesTransitive(g, x, y, c);
  }

  /** The two searches, over different graphs, answer the same question from both ends. */
  lemma DependentsAndDependeesAreDual(cg: CallGraph, s: Symbol, t: Symbol)
    requires s in cg && t in cg
    ensures StepsTo(DependentsGraph(cg), t, s, {}) <==> StepsTo(DependeesGraph(cg), s, t, {})
  {
    ReversedCalls(cg, s, t);
    AnalysedCalls(cg, s, t);
  }

  /** A function is among its own dependents exactly when it lies on a cycle of calls. */
  lemma OwnDependentOnCycle(cg: CallGraph, s: Symbol)
    ensures s in TransitiveCallers(cg, s) <==>
            exists c :: Edge(Calls(cg), s, c) && Reaches(Calls(cg), c, s)
  {
    StepsToAnything(Calls(cg), s, s);
  }

  /** Impact is a closure operator: it is idempotent. */
  lemma ImpactIdempotent(cg: CallGraph, changed: set<Symbol>)
    ensures Impact(cg, Impact(cg, changed)) == Impact(cg, changed)
  {
    var once := Impact(cg, changed);
    forall s | s in Impact(cg, once)
      ensures s in once
    {
      if s !in once {
        var c :| c in once && CallsTransitively(cg, s, c);
        if c !in changed {
          var d :| d in changed && CallsTransitively(cg, c, d);
          CallsTransitivelyTransitive(cg, s, c, d);
        }
      }
    }
  }

  /** Impact is extensive, and it distributes over union, so it is monotone too. */
  lemma ImpactDistributes(cg: CallGraph, changed: set<Symbol>, more: set<Symbol>)
    ensures changed <= Impact(cg, changed)
    ensures Impact(cg, changed + more) == Impact(cg, changed) + Impact(cg, more)
    ensures changed <= more ==> Impact(cg, changed) <= Impact(cg, more)
  {
    if changed <= more {
      assert changed + more == more;
    }
  }

  /** Whoever calls an impacted function is impacted, whether or not that function has a record of its own. */
  lemma ImpactHoldsCallers(cg: CallGraph, changed: set<Symbol>, s: Symbol, t: Symbol)
    requires s in cg && t in cg[s] && t in Impact(cg, changed)
    ensures s in Impact(cg, changed)
  {
    ReachesSelf(Calls(cg), t);
    StepsToAnything(Calls(cg), s, t);
    assert CallsTransitively(cg, s, t);
    if t !in changed {
      var c :| c in changed && CallsTransitively(cg, t, c);
      CallsTransitivelyTransitive(cg, s, t, c);
    }
  }

  /** Impact is the least set that holds the changes and every caller of a member. */
  lemma ImpactIsLeast(cg: CallGraph, changed: set<Symbol>, members: set<Symbol>)
    requires changed <= members
    requires forall s, t :: s in cg && t in cg[s] && t in members ==> s in members
    ensures Impact(cg, changed) <= members
  {
    forall s, c | s in cg && c in changed && CallsTransitively(cg, s, c)
      ensures s in members
    {
      var w :| IsWalkBetween(Calls(cg), w, s, c) && |w| > 1 && Avoids(w, {});
      var i := |w| - 1;
      while i > 0
        invariant 0 <= i < |w| && w[i] in members
      {
        assert Edge(Calls(cg), w[i - 1], w[i - 1 + 1]);
        i := i - 1;
      }
    }
  }

  /** Calls inside the dependency graph of `root` are the calls of the whole graph. */
  lemma DependeesInsideDependencyGraph(cg: CallGraph, root: Symbol, s: Symbol)
    requires root in cg
    requires s in TransitiveCallees(cg, root) + {root}
    ensures TransitiveCallees(Restricted(cg, TransitiveCallees(cg, root) + {root}), s) == TransitiveCallees(cg, s)
  {
    var keys := TransitiveCallees(cg, root) + {root};
    var part := Restricted(cg, keys);
    forall t | t in TransitiveCallees(part, s)
      ensures t in TransitiveCallees(cg, s)
    {
      var w :| IsWalkBetween(Calls(part), w, s, t) && |w| > 1 && Avoids(w, {});
      forall i | 0 <= i < |w| - 1
        ensures Edge(Calls(cg), w[i], w[i + 1])
      {
        assert Edge(Calls(part), w[i], w[i + 1]);
      }
      assert IsWalkBetween(Calls(cg), w, s, t);
    }
    forall t | t in TransitiveCallees(cg, s)
      ensures t in TransitiveCallees(part, s)
    {
      var w :| IsWalkBetween(Calls(cg), w, s, t) && |w| > 1 && Avoids(w, {});
      WalkStaysInside(cg, root, w);
      forall i | 0 <= i < |w| - 1
        ensures Edge(Calls(part), w[i], w[i + 1])
      {
        assert Edge(Calls(cg), w[i], w[i + 1]);
      }
      assert IsWalkBetween(Calls(part), w, s, t);
    }
  }

  lemma WalkStaysInside(cg: CallGraph, root: Symbol, w: seq<Symbol>)
    requires IsWalk(Calls(cg), w) && w[0] in TransitiveCallees(cg, root) + {root} && w[|w| - 1] in cg
    ensures forall i :: 0 <= i < |w| ==> w[i] in TransitiveCallees(cg, root) + {root}
  {
    var g := Calls(cg);
    var i := 0;
    while i < |w| - 1
      invariant 0 <= i < |w| && forall j :: 0 <= j <= i ==> w[j] in TransitiveCallees(cg, root) + {root}
    {
      assert Edge(g, w[i], w[i + 1]);
      StepsToAnything(g, w[i], w[i + 1]);
      ReachesSelf(g, w[i + 1]);
      if w[i] != root {
        CallsTransitivelyTransitive(cg, root, w[i], w[i + 1]);
      }
      if i + 1 < |w| - 1 {
        assert Edge(g, w[i + 1], w[i + 1 + 1]);
      }
      i := i + 1;
    }
  }
}
