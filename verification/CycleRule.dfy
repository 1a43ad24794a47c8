/** The documented cycle rule (ir-static-validation.md V4) against the implemented one. The document allows a cycle only
    if that cycle itself has a loop node; the code asks for one somewhere in the strongly connected component. */
module CycleRule {
  import opened Graphs
  import opened Tarjan
  import opened ScenarioTheorems

  /** A walk that ends where it began. */
  ghost predicate ClosedWalk(g: Graph, w: seq<Id>) {
    |w| >= 2 && IsWalk(g, w) && w[0] == w[|w| - 1]
  }

  predicate Touches(w: seq<Id>, loops: set<Id>) {
    exists i :: 0 <= i < |w| && w[i] in loops
  }

  /** The documented rule. */
  ghost predicate EveryCycleLoops(g: Graph, loops: set<Id>) {
    forall w :: ClosedWalk(g, w) ==> Touches(w, loops)
  }

  function Drop(ids: seq<Id>, loops: set<Id>): (r: seq<Id>)
    ensures forall v :: v in r <==> v in ids && v !in loops
  {
    if ids == [] then [] else (if ids[0] in loops then [] else [ids[0]]) + Drop(ids[1..], loops)
  }

  /** The graph with every edge into or out of a loop node cut. */
  function Cut(g: Graph, loops: set<Id>): Graph {
    Graph(g.keys, map k | k in g.succ :: if k in loops then [] else Drop(g.succ[k], loops))
  }

  lemma CutEdges(g: Graph, loops: set<Id>, u: Id, v: Id)
    ensures Edge(Cut(g, loops), u, v) <==> Edge(g, u, v) && u !in loops && v !in loops
  {
  }

  lemma CyclicWalk(g: Graph, v: Id) returns (w: seq<Id>)
    requires Cyclic(g, v)
    ensures ClosedWalk(g, w) && w[0] == v
  {
    var x :| Edge(g, v, x) && Reaches(g, x, v);
    var n: nat :| ReachesIn(g, x, v, n);
    var rest := WalkOf(g, x, v, n);
    w := [v] + rest;
    assert forall i :: 0 < i < |w| ==> w[i] == rest[i - 1];
  }

  lemma WalkCyclic(g: Graph, w: seq<Id>)
    requires ClosedWalk(g, w)
    ensures Cyclic(g, w[0])
  {
    WalkReaches(g, w, 1, |w| - 1);
    assert Edge(g, w[0], w[1]);
  }

  /** A closed walk avoids the loop nodes exactly when it survives the cut. */
  lemma CutWalk(g: Graph, loops: set<Id>, w: seq<Id>)
    requires |w| >= 2
    ensures ClosedWalk(Cut(g, loops), w) <==> ClosedWalk(g, w) && !Touches(w, loops)
  {
    hide Cut;
    forall i | 0 < i < |w|
      ensures Edge(Cut(g, loops), w[i - 1], w[i]) <==> Edge(g, w[i - 1], w[i]) && w[i - 1] !in loops && w[i] !in loops
    {
      CutEdges(g, loops, w[i - 1], w[i]);
    }
    assert IsWalk(Cut(g, loops), w) ==> Edge(Cut(g, loops), w[0], w[1]);
    if ClosedWalk(Cut(g, loops), w) {
      forall i | 0 <= i < |w|
        ensures w[i] !in loops
      {
        if i == 0 { assert Edge(Cut(g, loops), w[0], w[1]); } else { assert Edge(Cut(g, loops), w[i - 1], w[i]); }
      }
    }
  }

  /** The documented rule holds exactly when the same pass, on the graph with the loop nodes cut, finds nothing. */
  lemma DocumentedIff(g: Graph, loops: set<Id>)
    ensures EveryCycleLoops(g, loops) <==> CyclesHaveLoops(Cut(g, loops), {})
  {
    hide Cut, ClosedWalk, Cyclic, Touches;
    var c := Cut(g, loops);
    if !CyclesHaveLoops(c, {}) {
      var v :| v in c.succ && Cyclic(c, v) && forall u :: Same(c, v, u) ==> u !in {};
      var w := CyclicWalk(c, v);
      Long(c, w);
      CutWalk(g, loops, w);
    }
    if !EveryCycleLoops(g, loops) {
      var w :| ClosedWalk(g, w) && !Touches(w, loops);
      Long(g, w);
      CutWalk(g, loops, w);
      WalkCyclic(c, w);
      Declared(c, w[0]);
    }
  }

  lemma Long(g: Graph, w: seq<Id>)
    requires ClosedWalk(g, w)
    ensures |w| >= 2
  {
  }

  lemma Declared(g: Graph, v: Id)
    requires Cyclic(g, v)
    ensures v in g.succ
  {
  }

  /** Whatever the document allows, the code accepts. */
  lemma DocumentedAccepted(g: Graph, loops: set<Id>)
    requires EveryCycleLoops(g, loops)
    ensures CyclesHaveLoops(g, loops)
  {
    hide Reaches, Cyclic, ClosedWalk;
    forall v | v in g.succ && Cyclic(g, v)
      ensures exists u :: Same(g, v, u) && u in loops
    {
      var w := CyclicWalk(g, v);
      assert Touches(w, loops);
      var i :| 0 <= i < |w| && w[i] in loops;
      ClosedTogether(g, w, i);
    }
  }

  lemma ClosedTogether(g: Graph, w: seq<Id>, i: nat)
    requires ClosedWalk(g, w) && i < |w|
    ensures Same(g, w[0], w[i])
  {
    WalkReaches(g, w, 0, i);
    WalkReaches(g, w, i, |w| - 1);
  }

  /** In no component with a loop node is there a cycle that avoids the loop nodes. */
  ghost predicate LoopsCutCycles(g: Graph, loops: set<Id>) {
    forall v, l :: Same(g, v, l) && l in loops ==> !Cyclic(Cut(g, loops), v)
  }

  /** What separates the two rules: an accepted graph obeys the document exactly when its loop nodes cut every cycle of
      their own components. */
  lemma AcceptedObeysIff(g: Graph, loops: set<Id>)
    requires CyclesHaveLoops(g, loops)
    ensures EveryCycleLoops(g, loops) <==> LoopsCutCycles(g, loops)
  {
    hide Cut, Reaches, Same, ClosedWalk, Cyclic, Touches;
    var c := Cut(g, loops);
    if EveryCycleLoops(g, loops) {
      forall v | Cyclic(c, v)
        ensures false
      {
        var w := CyclicWalk(c, v);
        Long(c, w);
        CutWalk(g, loops, w);
      }
    }
    if !EveryCycleLoops(g, loops) {
      var w :| ClosedWalk(g, w) && !Touches(w, loops);
      Long(g, w);
      CutWalk(g, loops, w);
      WalkCyclic(c, w);
      WalkCyclic(g, w);
      Declared(g, w[0]);
    }
  }

  /** An accepted graph with a cycle that avoids its loop node: from the loop node `a` to `b`, back and forth between
      `b` and `c`, and from `c` to `a`. */
  function Detour(): Graph {
    Graph(["a", "b", "c"], map["a" := ["b"], "b" := ["c"], "c" := ["b", "a"]])
  }

  lemma DetourAccepted()
    ensures CyclesHaveLoops(Detour(), {"a"}) && !EveryCycleLoops(Detour(), {"a"})
  {
    var g := Detour();
    assert Edge(g, "a", "b") && Edge(g, "b", "c") && Edge(g, "c", "a") && Edge(g, "c", "b");
    var around := ["a", "b", "c", "a"];
    assert ClosedWalk(g, around);
    forall v | v in g.succ
      ensures Same(g, v, "a")
    {
      ClosedTogether(g, around, if v == "a" then 0 else if v == "b" then 1 else 2);
    }
    var inner := ["b", "c", "b"];
    assert ClosedWalk(g, inner) && !Touches(inner, {"a"});
  }
}
