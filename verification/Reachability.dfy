/** Walks in a finite directed graph of symbols, and what they reach. */
module Reachability {

  /** The names cHash gives to functions, variables and records. */
  datatype Symbol = Symbol(name: string)

  /** A directed graph: the direct successors of every symbol that has any. */
  type Graph = map<Symbol, set<Symbol>>

  predicate Edge(g: Graph, a: Symbol, b: Symbol) {
    a in g && b in g[a]
  }

  ghost predicate IsWalk(g: Graph, w: seq<Symbol>) {
    && |w| > 0
    && forall i :: 0 <= i < |w| - 1 ==> Edge(g, w[i], w[i + 1])
  }

  ghost predicate IsWalkBetween(g: Graph, w: seq<Symbol>, a: Symbol, b: Symbol) {
    IsWalk(g, w) && w[0] == a && w[|w| - 1] == b
  }

  /** `b` can be reached from `a` in zero or more steps. */
  ghost predicate Reaches(g: Graph, a: Symbol, b: Symbol) {
    exists w :: IsWalkBetween(g, w, a, b)
  }

  /** Every symbol of the walk but the last lies outside `avoid`. */
  ghost predicate Avoids(w: seq<Symbol>, avoid: set<Symbol>) {
    forall i :: 0 <= i < |w| - 1 ==> w[i] !in avoid
  }

  /** `b` can be reached from `a` in one or more steps, none of which leaves a symbol of `avoid`. */
  ghost predicate StepsTo(g: Graph, a: Symbol, b: Symbol, avoid: set<Symbol>) {
    exists w :: IsWalkBetween(g, w, a, b) && |w| > 1 && Avoids(w, avoid)
  }

  /** From `s` one can reach a cycle of at least two symbols. */
  ghost predicate Tangled(g: Graph, s: Symbol) {
    exists a, b :: a != b && Reaches(g, s, a) && Reaches(g, a, b) && Reaches(g, b, a)
  }

  /** All successors of a member are members. */
  ghost predicate Closed(g: Graph, members: set<Symbol>) {
    forall a, b :: a in members && Edge(g, a, b) ==> b in members
  }

  lemma ReachesSelf(g: Graph, a: Symbol)
    ensures Reaches(g, a, a)
  {
    assert IsWalkBetween(g, [a], a, a);
  }

  lemma ReachesThroughEdge(g: Graph, a: Symbol, b: Symbol)
    requires Edge(g, a, b)
    ensures Reaches(g, a, b)
  {
    assert IsWalkBetween(g, [a, b], a, b);
  }

  lemma ReachesTransitive(g: Graph, a: Symbol, b: Symbol, c: Symbol)
    requires Reaches(g, a, b) && Reaches(g, b, c)
    ensures Reaches(g, a, c)
  {
    var v :| IsWalkBetween(g, v, a, b);
    var w :| IsWalkBetween(g, w, b, c);
    var u := v + w[1..];
    forall i | 0 <= i < |u| - 1
      ensures Edge(g, u[i], u[i + 1])
    {
      if i >= |v| - 1 {
        assert u[i] == w[i - |v| + 1] && u[i + 1] == w[i - |v| + 2];
      }
    }
    assert IsWalkBetween(g, u, a, c);
  }

  /** Following one more edge. */
  lemma ReachesThenEdge(g: Graph, a: Symbol, b: Symbol, c: Symbol)
    requires Reaches(g, a, b) && Edge(g, b, c)
    ensures Reaches(g, a, c)
  {
    ReachesThroughEdge(g, b, c);
    ReachesTransitive(g, a, b, c);
  }

  /** Reaching another symbol starts with an edge. */
  lemma ReachesSplitsFirst(g: Graph, a: Symbol, b: Symbol) returns (next: Symbol)
    requires Reaches(g, a, b) && a != b
    ensures Edge(g, a, next) && Reaches(g, next, b)
  {
    var w :| IsWalkBetween(g, w, a, b);
    next := w[1];
    assert IsWalkBetween(g, w[1..], next, b);
  }

  /** A closed set holds everything its members reach. */
  lemma ClosedHoldsReached(g: Graph, members: set<Symbol>, a: Symbol, b: Symbol)
    requires Closed(g, members) && a in members && Reaches(g, a, b)
    ensures b in members
  {
    var w :| IsWalkBetween(g, w, a, b);
    var i := 0;
    while i < |w| - 1
      invariant 0 <= i < |w| && w[i] in members
    {
      assert Edge(g, w[i], w[i + 1]);
      i := i + 1;
    }
  }

  lemma TangledThroughEdge(g: Graph, a: Symbol, b: Symbol)
    requires Edge(g, a, b) && Tangled(g, b)
    ensures Tangled(g, a)
  {
    var x, y :| x != y && Reaches(g, b, x) && Reaches(g, x, y) && Reaches(g, y, x);
    ReachesThroughEdge(g, a, b);
    ReachesTransitive(g, a, b, x);
  }

  /** One or more steps that avoid nothing are an edge followed by zero or more steps. */
  lemma StepsToAnything(g: Graph, a: Symbol, b: Symbol)
    ensures StepsTo(g, a, b, {}) <==> exists c :: Edge(g, a, c) && Reaches(g, c, b)
  {
    if StepsTo(g, a, b, {}) {
      var w :| IsWalkBetween(g, w, a, b) && |w| > 1 && Avoids(w, {});
      assert IsWalkBetween(g, w[1..], w[1], b);
      assert Edge(g, a, w[1]);
    }
    if c :| Edge(g, a, c) && Reaches(g, c, b) {
      var w :| IsWalkBetween(g, w, c, b);
      assert IsWalkBetween(g, [a] + w, a, b) && Avoids([a] + w, {});
    }
  }

  /** The recurrence behind the path-scoped searches: take one step from `a`, and from there only
      consider walks that do not leave `a` again. */
  lemma StepsToRecurrence(g: Graph, a: Symbol, b: Symbol, avoid: set<Symbol>)
    requires a !in avoid
    ensures StepsTo(g, a, b, avoid) <==>
            exists c :: Edge(g, a, c) && (c == b || (c !in avoid + {a} && StepsTo(g, c, b, avoid + {a})))
  {
    if StepsTo(g, a, b, avoid) {
      var w :| IsWalkBetween(g, w, a, b) && |w| > 1 && Avoids(w, avoid);
      var c := LeaveForGood(g, a, b, avoid, w);
    }
    if c :| Edge(g, a, c) && (c == b || (c !in avoid + {a} && StepsTo(g, c, b, avoid + {a}))) {
      if c == b {
        assert IsWalkBetween(g, [a, b], a, b) && Avoids([a, b], avoid);
      } else {
        var w :| IsWalkBetween(g, w, c, b) && |w| > 1 && Avoids(w, avoid + {a});
        assert IsWalkBetween(g, [a] + w, a, b) && Avoids([a] + w, avoid);
      }
    }
  }

  /** Cutting a walk at its last departure from `a`. */
  lemma {:induction false} LeaveForGood(g: Graph, a: Symbol, b: Symbol, avoid: set<Symbol>, w: seq<Symbol>)
    returns (c: Symbol)
    requires IsWalkBetween(g, w, a, b) && |w| > 1 && Avoids(w, avoid)
    ensures Edge(g, a, c) && (c == b || (c !in avoid + {a} && StepsTo(g, c, b, avoid + {a})))
    decreases |w|
  {
    if i :| 0 < i < |w| - 1 && w[i] == a {
      c := LeaveForGood(g, a, b, avoid, w[i..]);
    } else {
      c := w[1];
      assert Edge(g, w[0], w[1]);
      if |w| > 2 {
        assert c == w[1] && c !in avoid;
        assert IsWalkBetween(g, w[1..], c, b) && Avoids(w[1..], avoid + {a});
      }
    }
  }

  /** Reaching another symbol ends with an edge from a symbol other than the last. */
  lemma ReachesArrives(g: Graph, a: Symbol, b: Symbol) returns (prior: Symbol)
    requires Reaches(g, a, b) && a != b
    ensures prior != b && Reaches(g, a, prior) && Edge(g, prior, b)
  {
    var w :| IsWalkBetween(g, w, a, b);
    var i := 0;
    while w[i + 1] != b
      invariant 0 <= i < |w| - 1 && w[i] != b
      decreases |w| - i
    {
      i := i + 1;
    }
    prior := w[i];
    assert IsWalkBetween(g, w[..i + 1], a, prior) && Edge(g, w[i], w[i + 1]);
  }

  /** Reaching another symbol can start with an edge to a symbol other than the first. */
  lemma ReachesLeaves(g: Graph, a: Symbol, b: Symbol) returns (next: Symbol)
    requires Reaches(g, a, b) && a != b
    ensures next != a && Edge(g, a, next) && Reaches(g, next, b)
  {
    var w :| IsWalkBetween(g, w, a, b);
    var i := |w| - 1;
    while w[i - 1] != a
      invariant 0 < i < |w| && w[i] != a
      decreases i
    {
      i := i - 1;
    }
    next := w[i];
    assert IsWalkBetween(g, w[i..], next, b) && Edge(g, w[i - 1], w[i - 1 + 1]);
  }
}
