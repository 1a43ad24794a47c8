/** Directed graphs over node ids, as the scenario validator builds them
    (codegen/static-validation.ts `buildGraph`): a key order and a successor list per key.
    A successor may be undeclared; an undeclared id has no successors of its own. */
module Graphs {

  type Id = string

  datatype Graph = Graph(keys: seq<Id>, succ: map<Id, seq<Id>>) {
    ghost predicate Valid() {
      forall k :: k in keys <==> k in succ
    }
  }

  function Successors(g: Graph, u: Id): seq<Id> {
    if u in g.succ then g.succ[u] else []
  }

  predicate Edge(g: Graph, u: Id, v: Id) {
    v in Successors(g, u)
  }

  /** `v` is reached from `u` by exactly `n` edges. */
  ghost predicate ReachesIn(g: Graph, u: Id, v: Id, n: nat)
    decreases n
  {
    if n == 0 then u == v
    else exists w :: Edge(g, u, w) && ReachesIn(g, w, v, n - 1)
  }

  /** Reflexive-transitive closure of `Edge`. */
  ghost predicate Reaches(g: Graph, u: Id, v: Id) {
    exists n: nat :: ReachesIn(g, u, v, n)
  }

  /** Mutual reachability: `u` and `v` belong to one strongly connected component. */
  ghost predicate Same(g: Graph, u: Id, v: Id) {
    Reaches(g, u, v) && Reaches(g, v, u)
  }

  /** `u` lies on a cycle: some edge out of `u` leads back to it. */
  ghost predicate Cyclic(g: Graph, u: Id) {
    exists w :: Edge(g, u, w) && Reaches(g, w, u)
  }

  lemma ReachesRefl(g: Graph, u: Id)
    ensures Reaches(g, u, u)
  {
    assert ReachesIn(g, u, u, 0);
  }

  lemma {:induction false} ReachesInTrans(g: Graph, u: Id, v: Id, w: Id, n: nat, m: nat)
    requires ReachesIn(g, u, v, n) && ReachesIn(g, v, w, m)
    ensures ReachesIn(g, u, w, n + m)
    decreases n
  {
    if n != 0 {
      var x :| Edge(g, u, x) && ReachesIn(g, x, v, n - 1);
      ReachesInTrans(g, x, v, w, n - 1, m);
      assert n + m != 0 && n - 1 + m == n + m - 1;
    }
  }

  lemma ReachesTrans(g: Graph, u: Id, v: Id, w: Id)
    requires Reaches(g, u, v) && Reaches(g, v, w)
    ensures Reaches(g, u, w)
  {
    var n: nat :| ReachesIn(g, u, v, n);
    var m: nat :| ReachesIn(g, v, w, m);
    ReachesInTrans(g, u, v, w, n, m);
  }

  lemma ReachesEdge(g: Graph, u: Id, v: Id)
    requires Edge(g, u, v)
    ensures Reaches(g, u, v)
  {
    assert ReachesIn(g, v, v, 0);
    assert ReachesIn(g, u, v, 1);
  }

  /** Reaching a different node starts with an edge. */
  lemma FirstEdge(g: Graph, u: Id, v: Id) returns (w: Id)
    requires Reaches(g, u, v) && u != v
    ensures Edge(g, u, w) && Reaches(g, w, v)
  {
    var n: nat :| ReachesIn(g, u, v, n);
    w :| Edge(g, u, w) && ReachesIn(g, w, v, n - 1);
  }

  /** A route that starts inside `inside` and ends outside it crosses the border on some edge. */
  lemma {:induction false} EscapeEdgeIn(g: Graph, inside: set<Id>, u: Id, v: Id, n: nat) returns (a: Id, b: Id)
    requires u in inside && v !in inside && ReachesIn(g, u, v, n)
    ensures a in inside && b !in inside && Edge(g, a, b) && Reaches(g, u, a) && Reaches(g, b, v)
    decreases n
  {
    var w :| Edge(g, u, w) && ReachesIn(g, w, v, n - 1);
    if w in inside {
      a, b := EscapeEdgeIn(g, inside, w, v, n - 1);
      ReachesEdge(g, u, w);
      ReachesTrans(g, u, w, a);
    } else {
      a, b := u, w;
      ReachesRefl(g, u);
      assert Reaches(g, w, v);
    }
  }

  lemma EscapeEdge(g: Graph, inside: set<Id>, u: Id, v: Id) returns (a: Id, b: Id)
    requires u in inside && v !in inside && Reaches(g, u, v)
    ensures a in inside && b !in inside && Edge(g, a, b) && Reaches(g, u, a) && Reaches(g, b, v)
  {
    var n: nat :| ReachesIn(g, u, v, n);
    a, b := EscapeEdgeIn(g, inside, u, v, n);
  }

  lemma SameTrans(g: Graph, u: Id, v: Id, w: Id)
    requires Same(g, u, v) && Same(g, v, w)
    ensures Same(g, u, w)
  {
    ReachesTrans(g, u, v, w);
    ReachesTrans(g, w, v, u);
  }

  /** All members of a component agree on lying on a cycle. */
  lemma CyclicSame(g: Graph, u: Id, v: Id)
    requires Same(g, u, v) && Cyclic(g, u)
    ensures Cyclic(g, v)
  {
    if u != v {
      var w := FirstEdge(g, v, u);
      ReachesTrans(g, w, u, v);
    }
  }
}
