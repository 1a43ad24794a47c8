/** The worklist searches of the validator and of the expression compiler
    (`reachableFrom` in codegen/static-validation.ts, `isAncestor` in codegen/irel-compile.ts),
    proved to compute path reachability. */
module Reachability {
  import opened Graphs

  /** Every id a search can meet. */
  ghost function Universe(g: Graph, start: Id): set<Id> {
    {start} + (set u | u in g.succ) + (set u, v | u in g.succ && v in g.succ[u] :: v)
  }

  /** `u` reaches `v` by at least one edge. */
  ghost predicate ReachesPlus(g: Graph, u: Id, v: Id) {
    exists w :: Edge(g, u, w) && Reaches(g, w, v)
  }

  lemma EdgeInUniverse(g: Graph, start: Id, u: Id, v: Id)
    requires Edge(g, u, v)
    ensures u in Universe(g, start) && v in Universe(g, start)
  {
  }

  lemma StartInUniverse(g: Graph, start: Id)
    ensures start in Universe(g, start)
  {
  }

  lemma SuccessorsAre(g: Graph, u: Id)
    ensures forall y :: y in Successors(g, u) <==> Edge(g, u, y)
  {
  }

  lemma SubsetShrinks(u: set<Id>, a: set<Id>, x: Id)
    requires x in u && x !in a
    ensures |u - (a + {x})| < |u - a|
  {
    assert u - a == (u - (a + {x})) + {x};
  }

  lemma ClosedContains(g: Graph, start: Id, seen: set<Id>, v: Id)
    requires start in seen && Reaches(g, start, v)
    requires forall x, y :: x in seen && Edge(g, x, y) ==> y in seen
    ensures v in seen
  {
    if v !in seen {
      var a, b := EscapeEdge(g, seen, start, v);
      assert false;
    }
  }

  method ReachableFrom(start: Id, g: Graph) returns (seen: set<Id>)
    ensures forall v :: v in seen <==> Reaches(g, start, v)
  {
    hide Reaches, Universe, Edge;
    seen := {};
    var stack := [start];
    ghost var universe := Universe(g, start);
    assert start in universe by { StartInUniverse(g, start); }
    ReachesRefl(g, start);
    while |stack| > 0
      invariant seen <= universe && forall x :: x in stack ==> x in universe
      invariant start in seen || start in stack
      invariant forall x, y :: x in seen && Edge(g, x, y) ==> y in seen || y in stack
      invariant forall x :: x in seen || x in stack ==> Reaches(g, start, x)
      decreases |universe - seen|, |stack|
    {
      ghost var before := stack;
      var nodeId := stack[|stack| - 1];
      stack := stack[..|stack| - 1];
      assert forall x :: x in before <==> x in stack || x == nodeId;
      if nodeId in seen {
        continue;
      }
      SubsetShrinks(universe, seen, nodeId);
      seen := seen + {nodeId};
      stack := stack + Successors(g, nodeId);
      SuccessorsAre(g, nodeId);
      forall y | Edge(g, nodeId, y)
        ensures Reaches(g, start, y) && y in universe
      {
        EdgeInUniverse(g, start, nodeId, y);
        ReachesEdge(g, nodeId, y);
        ReachesTrans(g, start, nodeId, y);
      }
    }
    forall v | Reaches(g, start, v)
      ensures v in seen
    {
      ClosedContains(g, start, seen, v);
    }
  }

  /** The list of predecessors recorded for `v`. */
  function Incoming(reverse: map<Id, seq<Id>>, v: Id): seq<Id> {
    if v in reverse then reverse[v] else []
  }

  /** Reverses the successor lists of the keys in order. */
  method Reverse(g: Graph) returns (reverse: map<Id, seq<Id>>)
    requires g.Valid()
    ensures forall u, v :: u in Incoming(reverse, v) <==> Edge(g, u, v)
  {
    reverse := map[];
    for i := 0 to |g.keys|
      invariant forall u, v :: u in Incoming(reverse, v) <==> u in g.keys[..i] && Edge(g, u, v)
    {
      var from := g.keys[i];
      var targets := g.succ[from];
      ghost var done := reverse;
      for j := 0 to |targets|
        invariant forall u, v ::
                    u in Incoming(reverse, v) <==> u in Incoming(done, v) || (u == from && v in targets[..j])
      {
        var target := targets[j];
        reverse := reverse[target := Incoming(reverse, target) + [from]];
        assert targets[..j + 1] == targets[..j] + [target];
      }
      assert targets[..|targets|] == targets;
      assert g.keys[..i + 1] == g.keys[..i] + [from];
    }
    assert g.keys[..|g.keys|] == g.keys;
  }

  /** A set that holds the predecessors of `current` and is closed under predecessors holds all ancestors. */
  lemma {:induction false} AncestorsSeen(g: Graph, current: Id, seen: set<Id>, u: Id, w: Id, n: nat)
    requires forall x :: Edge(g, x, current) ==> x in seen
    requires forall x, y :: y in seen && Edge(g, x, y) ==> x in seen
    requires Edge(g, u, w) && ReachesIn(g, w, current, n)
    ensures u in seen
    decreases n
  {
    if n != 0 {
      var x :| Edge(g, w, x) && ReachesIn(g, x, current, n - 1);
      AncestorsSeen(g, current, seen, w, x, n - 1);
    }
  }

  lemma PlusExtends(g: Graph, u: Id, x: Id, v: Id)
    requires Edge(g, u, x) && ReachesPlus(g, x, v)
    ensures ReachesPlus(g, u, v)
  {
    var w :| Edge(g, x, w) && Reaches(g, w, v);
    ReachesEdge(g, x, w);
    ReachesTrans(g, x, w, v);
  }

  method IsAncestor(candidate: Id, current: Id, g: Graph) returns (found: bool)
    requires g.Valid()
    ensures found <==> ReachesPlus(g, candidate, current)
  {
    hide ReachesPlus, Reaches, Edge, Universe, Incoming;
    var reverse := Reverse(g);
    var seen: set<Id> := {};
    var stack := Incoming(reverse, current);
    ghost var universe := Universe(g, current);
    forall x | x in stack
      ensures ReachesPlus(g, x, current) && x in universe
    {
      PlusEdge(g, x, current);
      EdgeInUniverse(g, current, x, current);
    }
    while |stack| > 0
      invariant seen <= universe
      invariant candidate !in seen
      invariant forall x :: Edge(g, x, current) ==> x in seen || x in stack
      invariant forall x, y :: y in seen && Edge(g, x, y) ==> x in seen || x in stack
      invariant forall x :: x in stack ==> ReachesPlus(g, x, current) && x in universe
      decreases |universe - seen|, |stack|
    {
      ghost var before := stack;
      var nodeId := stack[|stack| - 1];
      stack := stack[..|stack| - 1];
      assert forall x :: x in before <==> x in stack || x == nodeId;
      if nodeId == candidate {
        return true;
      }
      if nodeId in seen {
        continue;
      }
      SubsetShrinks(universe, seen, nodeId);
      seen := seen + {nodeId};
      stack := stack + Incoming(reverse, nodeId);
      forall x | x in Incoming(reverse, nodeId)
        ensures ReachesPlus(g, x, current) && x in universe
      {
        PlusExtends(g, x, nodeId, current);
        EdgeInUniverse(g, current, x, nodeId);
      }
    }
    NotAncestor(g, candidate, current, seen);
    found := false;
  }

  lemma PlusEdge(g: Graph, u: Id, v: Id)
    requires Edge(g, u, v)
    ensures ReachesPlus(g, u, v)
  {
    ReachesRefl(g, v);
  }

  lemma NotAncestor(g: Graph, candidate: Id, current: Id, seen: set<Id>)
    requires forall x :: Edge(g, x, current) ==> x in seen
    requires forall x, y :: y in seen && Edge(g, x, y) ==> x in seen
    requires candidate !in seen
    ensures !ReachesPlus(g, candidate, current)
  {
    if ReachesPlus(g, candidate, current) {
      var w :| Edge(g, candidate, w) && Reaches(g, w, current);
      var n: nat :| ReachesIn(g, w, current, n);
      AncestorsSeen(g, current, seen, candidate, w, n);
      assert false;
    }
  }
}
