/** The cycle check of the scenario validator (codegen/static-validation.ts `findIllegalCycles`):
    Tarjan's strongly connected components, kept in the source's mutable form.
    The proof works on snapshots of the mutable fields; every step of the algorithm
    is one small lemma about two snapshots. */
module Tarjan {
  import opened Graphs

  /** A snapshot of the algorithm's variables. */
  datatype State = State(index: map<Id, nat>, low: map<Id, nat>, stack: seq<Id>, next: nat, illegal: set<Id>)

  /** `v` was numbered and its component has been popped. */
  ghost predicate Closed(s: State, v: Id) {
    v in s.index && v !in s.stack
  }

  /** What the validator reports about a component: it holds a cycle and no loop node. */
  ghost predicate Offending(g: Graph, loops: set<Id>, v: Id) {
    Cyclic(g, v) && forall w :: Same(g, v, w) ==> w !in loops
  }

  /** Every node on a cycle shares its component with a loop node. */
  ghost predicate CyclesHaveLoops(g: Graph, loops: set<Id>) {
    forall v :: v in g.succ && Cyclic(g, v) ==> exists w :: Same(g, v, w) && w in loops
  }

  ghost predicate Numbered(g: Graph, s: State) {
    && s.low.Keys == s.index.Keys
    && (forall v :: v in s.index ==> v in g.succ && s.index[v] < s.next)
    && (forall v :: v in s.stack ==> v in s.index)
    && (forall i, j :: 0 <= i < j < |s.stack| ==> s.index[s.stack[i]] < s.index[s.stack[j]])
  }

  /** Every edge out of a finished node leads to a numbered node. */
  ghost predicate NoBlackToWhite(g: Graph, s: State, gray: set<Id>) {
    forall v, w :: v in s.index && v !in gray && Edge(g, v, w) && w in g.succ ==> w in s.index
  }

  /** Earlier stack entries reach later ones. */
  ghost predicate StackReaches(g: Graph, s: State)
    requires Numbered(g, s)
  {
    forall u, v :: u in s.stack && v in s.stack && s.index[u] <= s.index[v] ==> Reaches(g, u, v)
  }

  ghost predicate ReachesSome(g: Graph, v: Id, targets: set<Id>) {
    exists y :: y in targets && Reaches(g, v, y)
  }

  /** Every stack entry reaches a node whose call is still open. */
  ghost predicate StackReachesGray(g: Graph, s: State, gray: set<Id>) {
    forall v :: v in s.stack ==> ReachesSome(g, v, gray)
  }

  /** Popped components are whole. */
  ghost predicate ClosedWhole(g: Graph, s: State) {
    forall u, v :: Closed(s, v) && Same(g, u, v) ==> Closed(s, u)
  }

  /** `r` stands for the component of `v` among the reported nodes. */
  ghost predicate Represented(g: Graph, v: Id, illegal: set<Id>) {
    exists r :: r in illegal && Same(g, r, v)
  }

  ghost predicate IllegalExact(g: Graph, loops: set<Id>, s: State) {
    && (forall r :: r in s.illegal ==> Closed(s, r) && Offending(g, loops, r))
    && (forall v :: Closed(s, v) && Offending(g, loops, v) ==> Represented(g, v, s.illegal))
    && (forall r, r' :: r in s.illegal && r' in s.illegal && Same(g, r, r') ==> r == r')
  }

  ghost predicate Inv(g: Graph, loops: set<Id>, s: State, gray: set<Id>) {
    && Numbered(g, s)
    && (forall y :: y in gray ==> y in s.stack)
    && NoBlackToWhite(g, s, gray)
    && StackReaches(g, s)
    && StackReachesGray(g, s, gray)
    && ClosedWhole(g, s)
    && IllegalExact(g, loops, s)
  }

  /** `s` only adds to `s0`: old numbers stay and the old stack is a prefix of the new one. */
  ghost predicate Grows(s0: State, s: State) {
    && (forall v :: v in s0.index ==> v in s.index && s.index[v] == s0.index[v])
    && (forall v :: v in s0.low ==> v in s.low && s.low[v] == s0.low[v])
    && (forall v :: v in s.index && v !in s0.index ==> s0.next <= s.index[v])
    && s0.next <= s.next
    && s0.stack <= s.stack
  }

  /** The low link of `x` is honest: below its own number it names an old stack entry that `x` reaches. */
  ghost predicate LowWitness(g: Graph, s0: State, s: State, x: Id) {
    && x in s.index && x in s.low && s.low[x] <= s.index[x]
    && (s.low[x] < s.index[x] ==>
          exists y :: y in s0.stack && y in s.index && s.index[y] == s.low[x] && Reaches(g, x, y))
  }

  /** No edge from the new part of the stack into the old part undercuts the low link of `x`.
      Of `x` itself only the successors listed in `seen` are considered. */
  ghost predicate LowBound(g: Graph, s0: State, s: State, x: Id, seen: seq<Id>)
    requires x in s.low
  {
    forall v, y :: v in s.stack && v !in s0.stack && y in s0.stack && y in s.index && Edge(g, v, y)
        && (v == x ==> y in seen)
      ==> s.low[x] <= s.index[y]
  }

  /** What a finished call on `x` leaves behind. */
  ghost predicate Finished(g: Graph, s0: State, s: State, x: Id) {
    && Grows(s0, s)
    && LowWitness(g, s0, s, x)
    && LowBound(g, s0, s, x, Successors(g, x))
    && (x in s.stack ==> s.low[x] < s.index[x])
  }

  /** The state inside the call on `x` once the successors `seen` are processed. */
  ghost predicate Exploring(g: Graph, loops: set<Id>, s0: State, s: State, x: Id, gray: set<Id>, seen: seq<Id>) {
    && Inv(g, loops, s, gray + {x})
    && Grows(s0, s)
    && x !in s0.index && x !in s0.low && x !in s0.stack && x in s.index && s.index[x] == s0.next
    && s0.stack + [x] <= s.stack
    && LowWitness(g, s0, s, x)
    && LowBound(g, s0, s, x, seen)
    && (forall w :: w in seen && w in g.succ ==> w in s.index)
  }

  function Min(a: nat, b: nat): nat {
    if a <= b then a else b
  }

  function Push(s: State, x: Id): State {
    State(s.index[x := s.next], s.low[x := s.next], s.stack + [x], s.next + 1, s.illegal)
  }

  function Lower(s: State, x: Id, bound: nat): State
    requires x in s.low
  {
    s.(low := s.low[x := Min(s.low[x], bound)])
  }

  // ----- one lemma per step -----

  lemma PushNumbered(g: Graph, s: State, x: Id)
    requires Numbered(g, s) && x in g.succ && x !in s.index
    ensures Numbered(g, Push(s, x))
  {
    var t := Push(s, x);
    forall i, j | 0 <= i < j < |t.stack|
      ensures t.index[t.stack[i]] < t.index[t.stack[j]]
    {
      if j == |s.stack| {
        assert t.stack[i] == s.stack[i] && s.stack[i] in s.stack;
      }
    }
  }

  lemma PushReaches(g: Graph, loops: set<Id>, s: State, x: Id, gray: set<Id>)
    requires Inv(g, loops, s, gray) && x in g.succ && x !in s.index
    requires forall y :: y in gray ==> Reaches(g, y, x)
    requires Numbered(g, Push(s, x))
    ensures StackReaches(g, Push(s, x)) && StackReachesGray(g, Push(s, x), gray + {x})
  {
    hide NoBlackToWhite, ClosedWhole, IllegalExact, Reaches, Edge;
    var t := Push(s, x);
    ReachesRefl(g, x);
    forall u | u in s.stack
      ensures Reaches(g, u, x)
    {
      SomeReaches(g, u, x, gray);
    }
    assert forall v :: v in t.stack ==> Reaches(g, v, x);
    GrayWitness(g, t, gray + {x}, x);
  }

  lemma GrayWitness(g: Graph, s: State, gray: set<Id>, x: Id)
    requires x in gray && forall v :: v in s.stack ==> Reaches(g, v, x)
    ensures StackReachesGray(g, s, gray)
  {
    hide Reaches;
  }

  lemma PushInv(g: Graph, loops: set<Id>, s: State, x: Id, gray: set<Id>)
    requires Inv(g, loops, s, gray) && x in g.succ && x !in s.index
    requires forall y :: y in gray ==> Reaches(g, y, x)
    ensures Inv(g, loops, Push(s, x), gray + {x})
  {
    hide StackReaches, StackReachesGray, Reaches, Same, Offending, Represented;
    var t := Push(s, x);
    PushNumbered(g, s, x);
    PushReaches(g, loops, s, x, gray);
    assert forall v :: Closed(t, v) <==> Closed(s, v);
  }

  lemma PushExploring(g: Graph, loops: set<Id>, s: State, x: Id, gray: set<Id>)
    requires Inv(g, loops, s, gray) && x in g.succ && x !in s.index
    requires forall y :: y in gray ==> Reaches(g, y, x)
    ensures Exploring(g, loops, s, Push(s, x), x, gray, [])
  {
    hide NoBlackToWhite, StackReaches, StackReachesGray, ClosedWhole, IllegalExact, Reaches, Edge;
    PushInv(g, loops, s, x, gray);
    var t := Push(s, x);
    assert Grows(s, t);
  }

  /** A successor that is undeclared, or numbered and already popped, changes nothing. */
  lemma SkipStep(g: Graph, loops: set<Id>, s0: State, s: State, x: Id, gray: set<Id>, seen: seq<Id>, w: Id)
    requires Exploring(g, loops, s0, s, x, gray, seen) && Edge(g, x, w)
    requires w !in g.succ || Closed(s, w)
    ensures Exploring(g, loops, s0, s, x, gray, seen + [w])
  {
    hide NoBlackToWhite, StackReaches, StackReachesGray, ClosedWhole, IllegalExact;
    assert forall y :: y in s0.stack ==> y in s.stack;
  }

  /** Lowering a low link touches nothing else. */
  lemma LowerInv(g: Graph, loops: set<Id>, s: State, x: Id, bound: nat, gray: set<Id>)
    requires Inv(g, loops, s, gray) && x in s.low
    ensures Inv(g, loops, Lower(s, x, bound), gray)
  {
    hide Reaches, Same, Offending, Represented, ReachesSome;
    var t := Lower(s, x, bound);
    assert Numbered(g, t);
    assert forall v :: Closed(t, v) <==> Closed(s, v);
    assert StackReaches(g, t);
  }

  /** A successor already on the stack lowers the low link to its number. */
  lemma BackStep(g: Graph, loops: set<Id>, s0: State, s: State, x: Id, gray: set<Id>, seen: seq<Id>, w: Id)
    requires Exploring(g, loops, s0, s, x, gray, seen) && Edge(g, x, w)
    requires w in s.stack && w in s.index && x in s.low
    ensures Exploring(g, loops, s0, Lower(s, x, s.index[w]), x, gray, seen + [w])
  {
    hide Inv, Reaches, Edge;
    LowerInv(g, loops, s, x, s.index[w], gray + {x});
    OldStackBelow(g, loops, s0, s, x, gray, seen, w);
    ReachesEdge(g, x, w);
    var u := Lower(s, x, s.index[w]);
    assert Grows(s0, u);
    assert LowWitness(g, s0, u, x);
    assert LowBound(g, s0, u, x, seen + [w]);
  }

  /** On the stack, the numbers below that of `x` belong to the old part. */
  lemma OldStackBelow(g: Graph, loops: set<Id>, s0: State, s: State, x: Id, gray: set<Id>, seen: seq<Id>, w: Id)
    requires Exploring(g, loops, s0, s, x, gray, seen) && w in s.stack && w in s.index
    ensures s.index[w] < s.index[x] ==> w in s0.stack
  {
    hide NoBlackToWhite, StackReaches, StackReachesGray, ClosedWhole, IllegalExact, LowWitness, LowBound;
    var i :| 0 <= i < |s.stack| && s.stack[i] == w;
    var k := |s0.stack|;
    assert s.stack[k] == x;
    if k < i { assert s.index[s.stack[k]] < s.index[s.stack[i]]; }
    else if i < k { assert s.stack[i] == s0.stack[i]; }
  }

  /** A white successor is explored first and then lowers the low link to its own. */
  lemma TreeStep(g: Graph, loops: set<Id>, s0: State, s: State, t: State, x: Id, gray: set<Id>, seen: seq<Id>, w: Id)
    requires Exploring(g, loops, s0, s, x, gray, seen) && Edge(g, x, w) && w !in s.index
    requires Inv(g, loops, t, gray + {x}) && Finished(g, s, t, w)
    ensures x in t.low && w in t.low
    ensures Exploring(g, loops, s0, Lower(t, x, t.low[w]), x, gray, seen + [w])
  {
    hide NoBlackToWhite, StackReaches, StackReachesGray, ClosedWhole, IllegalExact, Reaches, Edge;
    LowerInv(g, loops, t, x, t.low[w], gray + {x});
    var u := Lower(t, x, t.low[w]);
    assert Grows(s0, u);
    TreeWitness(g, loops, s0, s, t, x, gray, seen, w);
    TreeBound(g, loops, s0, s, t, x, gray, seen, w);
    assert s0.stack + [x] <= s.stack <= t.stack;
  }

  lemma TreeWitness(g: Graph, loops: set<Id>, s0: State, s: State, t: State, x: Id, gray: set<Id>, seen: seq<Id>, w: Id)
    requires Exploring(g, loops, s0, s, x, gray, seen) && Edge(g, x, w) && w !in s.index
    requires Inv(g, loops, t, gray + {x}) && Finished(g, s, t, w) && x in t.low && w in t.low
    ensures LowWitness(g, s0, Lower(t, x, t.low[w]), x)
  {
    hide NoBlackToWhite, StackReaches, StackReachesGray, ClosedWhole, IllegalExact, Reaches, Edge, LowBound;
    if t.low[w] < t.low[x] {
      var y :| y in s.stack && y in t.index && t.index[y] == t.low[w] && Reaches(g, w, y);
      ReachesEdge(g, x, w);
      ReachesTrans(g, x, w, y);
      OldStackBelow(g, loops, s0, s, x, gray, seen, y);
    }
  }

  lemma TreeBound(g: Graph, loops: set<Id>, s0: State, s: State, t: State, x: Id, gray: set<Id>, seen: seq<Id>, w: Id)
    requires Exploring(g, loops, s0, s, x, gray, seen) && Edge(g, x, w) && w !in s.index
    requires Inv(g, loops, t, gray + {x}) && Finished(g, s, t, w) && x in t.low && w in t.low
    ensures LowBound(g, s0, Lower(t, x, t.low[w]), x, seen + [w])
  {
    hide NoBlackToWhite, StackReaches, StackReachesGray, ClosedWhole, IllegalExact, Reaches, LowWitness;
    var u := Lower(t, x, t.low[w]);
    forall v, y | v in u.stack && v !in s0.stack && y in s0.stack && y in u.index && Edge(g, v, y)
        && (v == x ==> y in seen + [w])
      ensures u.low[x] <= u.index[y]
    {
      assert y in s.stack && y != w;
    }
  }

  // ----- leaving a call -----

  /** `x` is not the root of its component: it stays on the stack and is finished. */
  lemma KeepStep(g: Graph, loops: set<Id>, s0: State, s: State, x: Id, gray: set<Id>)
    requires Inv(g, loops, s0, gray) && Exploring(g, loops, s0, s, x, gray, Successors(g, x))
    requires x in s.low && s.low[x] != s.index[x]
    ensures Inv(g, loops, s, gray) && Finished(g, s0, s, x)
  {
    hide Numbered, NoBlackToWhite, StackReaches, StackReachesGray, ClosedWhole, IllegalExact, Reaches, ReachesSome,
        Grows, LowBound;
    forall v | v in s.stack
      ensures ReachesSome(g, v, gray)
    {
      KeepReaches(g, loops, s0, s, x, gray, v);
    }
    GrayReached(g, s, gray);
    NoWhiteLeft(g, loops, s0, s, x, gray);
  }

  /** With all successors of `x` processed, `x` may turn black. */
  lemma NoWhiteLeft(g: Graph, loops: set<Id>, s0: State, s: State, x: Id, gray: set<Id>)
    requires Exploring(g, loops, s0, s, x, gray, Successors(g, x))
    ensures NoBlackToWhite(g, s, gray)
  {
    hide Numbered, StackReaches, StackReachesGray, ClosedWhole, IllegalExact, Reaches, Grows, LowBound, LowWitness;
  }

  lemma GrayReached(g: Graph, s: State, gray: set<Id>)
    requires forall v :: v in s.stack ==> ReachesSome(g, v, gray)
    ensures StackReachesGray(g, s, gray)
  {
  }

  lemma ReachesSomeVia(g: Graph, v: Id, z: Id, targets: set<Id>)
    requires Reaches(g, v, z) && ReachesSome(g, z, targets)
    ensures ReachesSome(g, v, targets)
  {
    hide Reaches;
    var a :| a in targets && Reaches(g, z, a);
    ReachesTrans(g, v, z, a);
  }

  lemma KeepReaches(g: Graph, loops: set<Id>, s0: State, s: State, x: Id, gray: set<Id>, v: Id)
    requires Inv(g, loops, s0, gray) && Exploring(g, loops, s0, s, x, gray, Successors(g, x))
    requires x in s.low && s.low[x] != s.index[x] && v in s.stack
    ensures ReachesSome(g, v, gray)
  {
    hide Numbered, NoBlackToWhite, StackReaches, ClosedWhole, IllegalExact, Reaches, Grows, LowBound, Edge, ReachesSome;
    var z :| z in s0.stack && z in s.index && s.index[z] == s.low[x] && Reaches(g, x, z);
    ReachesSomeVia(g, x, z, gray);
    ReachesSomeWithout(g, v, x, gray);
  }

  lemma ReachesSomeWithout(g: Graph, v: Id, x: Id, targets: set<Id>)
    requires ReachesSome(g, v, targets + {x}) && ReachesSome(g, x, targets)
    ensures ReachesSome(g, v, targets)
  {
    hide Reaches;
    var y :| y in targets + {x} && Reaches(g, v, y);
    if y == x {
      ReachesSomeVia(g, v, x, targets);
    }
  }

  /** The stack from `x` upwards, as a set. */
  ghost function Segment(s0: State, s: State): set<Id> {
    set v | v in s.stack && v !in s0.stack
  }

  /** Old stack entries, and `x` itself, reach `x`. */
  lemma OldReaches(g: Graph, loops: set<Id>, s0: State, s: State, x: Id, gray: set<Id>, y: Id)
    requires Inv(g, loops, s0, gray) && Exploring(g, loops, s0, s, x, gray, Successors(g, x))
    requires y in gray + {x}
    ensures Reaches(g, y, x)
  {
    hide NoBlackToWhite, StackReachesGray, ClosedWhole, IllegalExact, Reaches, LowBound, LowWitness;
    if y == x {
      ReachesRefl(g, x);
    } else {
      assert y in s0.stack && y in s.stack;
      assert s.stack[|s0.stack|] == x;
      assert s.index[y] < s.index[x];
    }
  }

  /** Members of the segment are mutually reachable with `x`. */
  lemma SegmentTogether(g: Graph, loops: set<Id>, s0: State, s: State, x: Id, gray: set<Id>, v: Id)
    requires Inv(g, loops, s0, gray) && Exploring(g, loops, s0, s, x, gray, Successors(g, x))
    requires v in Segment(s0, s)
    ensures Same(g, x, v)
  {
    hide ClosedWhole, IllegalExact, NoBlackToWhite, Reaches, LowWitness, LowBound, Grows, Edge, ReachesSome;
    assert s.stack[|s0.stack|] == x;
    OldStackBelow(g, loops, s0, s, x, gray, Successors(g, x), v);
    SomeReaches(g, v, x, gray + {x}) by {
      forall y | y in gray + {x}
        ensures Reaches(g, y, x)
      {
        OldReaches(g, loops, s0, s, x, gray, y);
      }
    }
  }

  lemma SomeReaches(g: Graph, v: Id, x: Id, targets: set<Id>)
    requires ReachesSome(g, v, targets)
    requires forall y :: y in targets ==> Reaches(g, y, x)
    ensures Reaches(g, v, x)
  {
    hide Reaches;
    var y :| y in targets && Reaches(g, v, y);
    ReachesTrans(g, v, y, x);
  }

  /** When the low link of `x` is its own number, no edge inside its component leaves the segment. */
  lemma EdgeStays(g: Graph, loops: set<Id>, s0: State, s: State, x: Id, gray: set<Id>, a: Id, b: Id)
    requires Inv(g, loops, s0, gray) && Exploring(g, loops, s0, s, x, gray, Successors(g, x))
    requires x in s.low && s.low[x] == s.index[x]
    requires a in Segment(s0, s) && Edge(g, a, b) && Same(g, b, x)
    ensures b in Segment(s0, s)
  {
    hide IllegalExact, Reaches, StackReaches, StackReachesGray, LowWitness;
    if b != x {
      var c := FirstEdge(g, b, x);
    }
    assert b in s.index;
    assert s.stack[|s0.stack|] == x;
    assert Closed(s, b) ==> Closed(s, x);
  }

  /** ... so its whole component lies in the segment. */
  lemma SegmentWhole(g: Graph, loops: set<Id>, s0: State, s: State, x: Id, gray: set<Id>, u: Id)
    requires Inv(g, loops, s0, gray) && Exploring(g, loops, s0, s, x, gray, Successors(g, x))
    requires x in s.low && s.low[x] == s.index[x]
    requires Same(g, u, x)
    ensures u in Segment(s0, s)
  {
    hide Inv, Reaches, LowWitness, LowBound, Grows, Edge;
    var seg := Segment(s0, s);
    assert s.stack[|s0.stack|] == x;
    if u !in seg {
      var a, b := EscapeEdge(g, seg, x, u);
      ReachesTrans(g, b, u, x);
      ReachesEdge(g, a, b);
      ReachesTrans(g, x, a, b);
      EdgeStays(g, loops, s0, s, x, gray, a, b);
      assert false;
    }
  }

  /** The test the algorithm applies to a popped component decides `Offending`. */
  lemma ComponentTest(g: Graph, loops: set<Id>, comp: set<Id>, r: Id)
    requires r in comp
    requires forall v :: Same(g, r, v) <==> v in comp
    ensures (((exists v :: v in comp && v != r) || (exists v :: v in comp && Edge(g, v, v))) && comp !! loops)
            <==> Offending(g, loops, r)
  {
    hide Reaches;
    ReachesRefl(g, r);
    if v :| v in comp && v != r {
      assert Same(g, r, v);
      var w := FirstEdge(g, r, v);
      ReachesTrans(g, w, v, r);
      assert Cyclic(g, r);
    } else if v :| v in comp && Edge(g, v, v) {
      assert Cyclic(g, r);
    }
    if Cyclic(g, r) {
      var w :| Edge(g, r, w) && Reaches(g, w, r);
      ReachesEdge(g, r, w);
      assert w in comp;
    }
    if comp !! loops {
      assert forall w :: Same(g, r, w) ==> w !in loops;
    } else {
      var w :| w in comp && w in loops;
      assert Same(g, r, w);
    }
  }

  // ----- popping a component -----

  /** The state after the component of `x` was popped and judged. */
  function Popped(s0: State, s: State, illegal: set<Id>): State {
    s.(stack := s0.stack, illegal := illegal)
  }

  /** `illegal` is `s.illegal`, plus the reporting member `r` exactly when the component offends. */
  ghost predicate Judged(g: Graph, loops: set<Id>, s: State, illegal: set<Id>, r: Id) {
    illegal == if Offending(g, loops, r) then s.illegal + {r} else s.illegal
  }

  lemma PopClosed(g: Graph, loops: set<Id>, s0: State, s: State, x: Id, gray: set<Id>, illegal: set<Id>)
    requires Inv(g, loops, s0, gray) && Exploring(g, loops, s0, s, x, gray, Successors(g, x))
    requires x in s.low && s.low[x] == s.index[x]
    ensures forall v :: Closed(Popped(s0, s, illegal), v) <==> Closed(s, v) || v in Segment(s0, s)
    ensures forall v, u :: v in Segment(s0, s) && Same(g, u, v) ==> u in Segment(s0, s)
    ensures forall v, u :: v in Segment(s0, s) && u in Segment(s0, s) ==> Same(g, u, v)
    ensures ClosedWhole(g, Popped(s0, s, illegal))
  {
    hide Numbered, NoBlackToWhite, StackReaches, StackReachesGray, IllegalExact, Reaches, LowWitness, LowBound;
    assert forall v :: v in s0.stack ==> v in s.stack;
    assert forall v :: v in s.stack ==> v in s.index by { InvStackNumbered(g, loops, s, gray + {x}); }
    forall v | v in Segment(s0, s)
      ensures Same(g, x, v)
    {
      SegmentTogether(g, loops, s0, s, x, gray, v);
    }
    forall v, u | v in Segment(s0, s) && Same(g, u, v)
      ensures u in Segment(s0, s)
    {
      SameTrans(g, u, v, x);
      SegmentWhole(g, loops, s0, s, x, gray, u);
    }
    forall v, u | v in Segment(s0, s) && u in Segment(s0, s)
      ensures Same(g, u, v)
    {
      SameTrans(g, u, x, v);
    }
  }

  lemma InvStackNumbered(g: Graph, loops: set<Id>, s: State, gray: set<Id>)
    requires Inv(g, loops, s, gray)
    ensures forall v :: v in s.stack ==> v in s.index
  {
    hide NoBlackToWhite, StackReaches, StackReachesGray, IllegalExact, ClosedWhole;
  }

  lemma PopIllegal(g: Graph, loops: set<Id>, s: State, t: State, seg: set<Id>, r: Id)
    requires IllegalExact(g, loops, s) && r in seg
    requires Judged(g, loops, s, t.illegal, r)
    requires forall v :: Closed(t, v) <==> Closed(s, v) || v in seg
    requires forall v :: v in seg ==> !Closed(s, v)
    requires forall v, u :: v in seg && Same(g, u, v) ==> u in seg
    requires forall v, u :: v in seg && u in seg ==> Same(g, u, v)
    ensures IllegalExact(g, loops, t)
  {
    hide Reaches, Offending, Closed;
    forall v | Closed(t, v) && Offending(g, loops, v)
      ensures Represented(g, v, t.illegal)
    {
      if v in seg {
        OffendingSame(g, loops, v, r);
        assert r in t.illegal && Same(g, r, v);
      } else {
        assert Represented(g, v, s.illegal);
        var q :| q in s.illegal && Same(g, q, v);
        assert q in t.illegal;
      }
    }
    forall a, b | a in t.illegal && b in t.illegal && Same(g, a, b)
      ensures a == b
    {
      SameSym(g, a, b);
    }
  }

  lemma SameSym(g: Graph, u: Id, v: Id)
    requires Same(g, u, v)
    ensures Same(g, v, u)
  {
  }

  lemma OffendingSame(g: Graph, loops: set<Id>, u: Id, v: Id)
    requires Same(g, u, v) && Offending(g, loops, u)
    ensures Offending(g, loops, v)
  {
    hide Reaches;
    CyclicSame(g, u, v);
    forall w | Same(g, v, w)
      ensures w !in loops
    {
      SameTrans(g, u, v, w);
    }
  }

  /** `x` is the root of its component: the component is popped whole and judged. */
  lemma PopStep(g: Graph, loops: set<Id>, s0: State, s: State, x: Id, gray: set<Id>, illegal: set<Id>, r: Id)
    requires Inv(g, loops, s0, gray) && Exploring(g, loops, s0, s, x, gray, Successors(g, x))
    requires x in s.low && s.low[x] == s.index[x]
    requires r in Segment(s0, s) && Judged(g, loops, s, illegal, r)
    ensures Inv(g, loops, Popped(s0, s, illegal), gray)
    ensures Finished(g, s0, Popped(s0, s, illegal), x)
  {
    hide StackReachesGray, ClosedWhole, IllegalExact, Reaches, Judged, Same;
    var t := Popped(s0, s, illegal);
    PopClosed(g, loops, s0, s, x, gray, illegal);
    PopIllegal(g, loops, s, t, Segment(s0, s), r);
    PopNumbered(g, loops, s0, s, x, gray, illegal);
    assert StackReachesGray(g, t, gray) by { PopGray(g, s0, t, gray); }
  }

  lemma PopGray(g: Graph, s0: State, t: State, gray: set<Id>)
    requires StackReachesGray(g, s0, gray) && t.stack == s0.stack
    ensures StackReachesGray(g, t, gray)
  {
  }

  lemma PopNumbered(g: Graph, loops: set<Id>, s0: State, s: State, x: Id, gray: set<Id>, illegal: set<Id>)
    requires Inv(g, loops, s0, gray) && Exploring(g, loops, s0, s, x, gray, Successors(g, x))
    ensures Numbered(g, Popped(s0, s, illegal)) && StackReaches(g, Popped(s0, s, illegal))
    ensures NoBlackToWhite(g, Popped(s0, s, illegal), gray)
  {
    hide StackReachesGray, ClosedWhole, IllegalExact, Reaches, LowWitness, LowBound;
    var t := Popped(s0, s, illegal);
    forall i, j | 0 <= i < j < |t.stack|
      ensures t.index[t.stack[i]] < t.index[t.stack[j]]
    {
      assert t.stack[i] == s.stack[i] && t.stack[j] == s.stack[j];
    }
  }

  // ----- the algorithm -----

  lemma WhiteShrinks(g: Graph, loops: set<Id>, s0: State, s: State, x: Id, gray: set<Id>, seen: seq<Id>)
    requires x in g.succ
    requires Exploring(g, loops, s0, s, x, gray, seen)
    ensures |g.succ.Keys - s.index.Keys| < |g.succ.Keys - s0.index.Keys|
  {
    hide Inv, LowWitness, LowBound;
    var a, b := g.succ.Keys - s.index.Keys, g.succ.Keys - s0.index.Keys;
    assert x in b && x !in a && a <= b;
    assert a <= b - {x};
    SmallerSet(a, b - {x});
  }

  lemma {:induction false} SmallerSet(a: set<Id>, b: set<Id>)
    requires a <= b
    ensures |a| <= |b|
  {
    assert b == a + (b - a);
  }

  /** The open calls reach the white successor about to be explored. */
  lemma GrayReachesChild(g: Graph, loops: set<Id>, s0: State, s: State, x: Id, gray: set<Id>, seen: seq<Id>, w: Id)
    requires Exploring(g, loops, s0, s, x, gray, seen) && Edge(g, x, w)
    requires forall y :: y in gray ==> Reaches(g, y, x)
    ensures forall y :: y in gray + {x} ==> Reaches(g, y, w)
  {
    hide Inv, LowWitness, LowBound, Reaches, Edge;
    ReachesEdge(g, x, w);
    forall y | y in gray + {x}
      ensures Reaches(g, y, w)
    {
      if y != x { ReachesTrans(g, y, x, w); }
    }
  }

  lemma ExploringFacts(g: Graph, loops: set<Id>, s0: State, s: State, x: Id, gray: set<Id>, seen: seq<Id>)
    requires Exploring(g, loops, s0, s, x, gray, seen)
    ensures x in s.low && x in s.index && x in s.stack && x !in s0.stack && s0.stack + [x] <= s.stack
    ensures forall i, j :: 0 <= i < j < |s.stack| ==> s.stack[i] != s.stack[j]
    ensures forall v :: v in s.stack ==> v in s.index
    ensures forall v :: v in s.index ==> v in s.low
  {
    hide NoBlackToWhite, StackReaches, StackReachesGray, IllegalExact, ClosedWhole, LowWitness, LowBound, Grows;
    assert s.stack[|s0.stack|] == x;
    forall i, j | 0 <= i < j < |s.stack|
      ensures s.stack[i] != s.stack[j]
    {
      assert s.index[s.stack[i]] < s.index[s.stack[j]];
    }
  }

  lemma ExploringInv(g: Graph, loops: set<Id>, s0: State, s: State, x: Id, gray: set<Id>, seen: seq<Id>)
    requires Exploring(g, loops, s0, s, x, gray, seen)
    ensures Inv(g, loops, s, gray + {x})
  {
    hide Inv, LowWitness, LowBound, Grows;
  }

  lemma SegmentIs(g: Graph, loops: set<Id>, s0: State, s: State, x: Id, gray: set<Id>, component: seq<Id>)
    requires Inv(g, loops, s0, gray) && Exploring(g, loops, s0, s, x, gray, Successors(g, x))
    requires x in s.low && s.low[x] == s.index[x] && component != []
    requires forall v :: v in component <==> v in s.stack && v !in s0.stack
    ensures component[0] in Segment(s0, s)
    ensures forall v :: Same(g, component[0], v) <==> v in component
  {
    hide Inv, Exploring, Reaches;
    PopClosed(g, loops, s0, s, x, gray, {});
    assert component[0] in component;
    forall v | Same(g, component[0], v)
      ensures v in component
    {
      SameSym(g, component[0], v);
      assert v in Segment(s0, s);
    }
  }

  class Search {
    const g: Graph
    const loops: set<Id>
    var indexByNode: map<Id, nat>
    var lowlinkByNode: map<Id, nat>
    var stack: seq<Id>
    var onStack: set<Id>
    var nextIndex: nat
    var illegal: set<Id>

    constructor (g: Graph, loops: set<Id>)
      ensures this.g == g && this.loops == loops
      ensures Snapshot() == State(map[], map[], [], 0, {}) && onStack == {}
    {
      this.g, this.loops := g, loops;
      indexByNode, lowlinkByNode, stack, onStack, nextIndex, illegal := map[], map[], [], {}, 0, {};
    }

    ghost function Snapshot(): State
      reads this
    {
      State(indexByNode, lowlinkByNode, stack, nextIndex, illegal)
    }

    ghost predicate Valid(gray: set<Id>)
      reads this
    {
      Inv(g, loops, Snapshot(), gray) && (forall v :: v in onStack <==> v in stack)
    }

    /** Pops the stack down to and including `x`; the popped ids come out in pop order. */
    method PopComponent(x: Id, ghost base: seq<Id>) returns (component: seq<Id>)
      requires base + [x] <= stack && x !in base
      requires forall i, j :: 0 <= i < j < |stack| ==> stack[i] != stack[j]
      requires forall v :: v in onStack <==> v in stack
      modifies this`stack, this`onStack
      ensures stack == base
      ensures forall v :: v in onStack <==> v in stack
      ensures forall v :: v in component <==> v in old(stack) && v !in base
      ensures |component| == |old(stack)| - |base| && component[0] == old(stack)[|old(stack)| - 1]
      ensures |component| > 1 <==> exists v :: v in component && v != component[0]
    {
      component := [];
      ghost var full := stack;
      ghost var k := |base|;
      assert full[k] == (base + [x])[k] == x;
      while true
        invariant k < |stack| <= |full| && stack == full[..|stack|]
        invariant forall v :: v in onStack <==> v in stack
        invariant |component| == |full| - |stack|
        invariant forall i :: 0 <= i < |component| ==> component[i] == full[|full| - 1 - i]
        decreases |stack|
      {
        var current := stack[|stack| - 1];
        assert stack == stack[..|stack| - 1] + [current];
        stack := stack[..|stack| - 1];
        onStack := onStack - {current};
        component := component + [current];
        if current == x {
          assert full[|stack|] == full[k];
          break;
        }
      }
      assert forall i :: k <= i < |full| ==> component[|full| - 1 - i] == full[i];
    }
  
    /** `component.length > 1 || component.some(selfEdge)`, and no loop node among the members. */
    method Offends(component: seq<Id>) returns (bad: bool)
      requires component != []
      requires forall v :: Same(g, component[0], v) <==> v in component
      requires |component| > 1 <==> exists v :: v in component && v != component[0]
      ensures bad <==> Offending(g, loops, component[0])
    {
      var comp := set v | v in component;
      var selfEdge := exists v :: v in component && Edge(g, v, v);
      var hasLoop := exists v :: v in component && v in loops;
      bad := (|component| > 1 || selfEdge) && !hasLoop;
      ComponentTest(g, loops, comp, component[0]);
    }

    /** One round of the successor loop of the call on `x`. */
    method Visit(x: Id, next: Id, ghost gray: set<Id>, ghost s0: State, ghost seen: seq<Id>)
      requires Exploring(g, loops, s0, Snapshot(), x, gray, seen)
      requires (forall v :: v in onStack <==> v in stack) && x in g.succ && Edge(g, x, next)
      requires forall y :: y in gray ==> Reaches(g, y, x)
      modifies this
      ensures Exploring(g, loops, s0, Snapshot(), x, gray, seen + [next])
      ensures forall v :: v in onStack <==> v in stack
      decreases |g.succ.Keys - s0.index.Keys|, 0
    {
      hide Exploring, Inv, Finished, Grows, LowWitness, LowBound, Reaches, Edge;
      ghost var s := Snapshot();
      ExploringFacts(g, loops, s0, s, x, gray, seen);
      if next !in g.succ {
        SkipStep(g, loops, s0, s, x, gray, seen, next);
      } else if next !in indexByNode {
        WhiteShrinks(g, loops, s0, s, x, gray, seen);
        GrayReachesChild(g, loops, s0, s, x, gray, seen, next);
        ExploringInv(g, loops, s0, s, x, gray, seen);
        StrongConnect(next, gray + {x});
        ghost var t := Snapshot();
        TreeStep(g, loops, s0, s, t, x, gray, seen, next);
        lowlinkByNode := lowlinkByNode[x := Min(lowlinkByNode[x], lowlinkByNode[next])];
        assert Snapshot() == Lower(t, x, t.low[next]);
      } else if next in onStack {
        BackStep(g, loops, s0, s, x, gray, seen, next);
        lowlinkByNode := lowlinkByNode[x := Min(lowlinkByNode[x], indexByNode[next])];
        assert Snapshot() == Lower(s, x, s.index[next]);
      } else {
        SkipStep(g, loops, s0, s, x, gray, seen, next);
      }
    }

    /** The successor loop of the call on `x`. */
    method Explore(x: Id, ghost gray: set<Id>, ghost s0: State)
      requires Exploring(g, loops, s0, Snapshot(), x, gray, [])
      requires (forall v :: v in onStack <==> v in stack) && x in g.succ
      requires forall y :: y in gray ==> Reaches(g, y, x)
      modifies this
      ensures Exploring(g, loops, s0, Snapshot(), x, gray, Successors(g, x))
      ensures forall v :: v in onStack <==> v in stack
      decreases |g.succ.Keys - s0.index.Keys|, 1
    {
      hide Exploring, Inv, Reaches;
      var targets := g.succ[x];
      assert targets[..0] == [];
      for i := 0 to |targets|
        invariant Exploring(g, loops, s0, Snapshot(), x, gray, targets[..i])
        invariant forall v :: v in onStack <==> v in stack
      {
        assert targets[..i + 1] == targets[..i] + [targets[i]];
        Visit(x, targets[i], gray, s0, targets[..i]);
      }
      assert targets[..|targets|] == targets == Successors(g, x);
    }

    method StrongConnect(x: Id, ghost gray: set<Id>)
      requires Valid(gray) && x in g.succ && x !in indexByNode
      requires forall y :: y in gray ==> Reaches(g, y, x)
      modifies this
      ensures Valid(gray)
      ensures Finished(g, old(Snapshot()), Snapshot(), x)
      decreases |g.succ.Keys - indexByNode.Keys|, 2
    {
      hide Exploring, Inv, Finished, Reaches;
      ghost var s0 := Snapshot();
      indexByNode := indexByNode[x := nextIndex];
      lowlinkByNode := lowlinkByNode[x := nextIndex];
      nextIndex := nextIndex + 1;
      stack := stack + [x];
      onStack := onStack + {x};
      assert Snapshot() == Push(s0, x);
      PushExploring(g, loops, s0, x, gray);
      Explore(x, gray, s0);
      ExploringFacts(g, loops, s0, Snapshot(), x, gray, Successors(g, x));

      ghost var s := Snapshot();
      if lowlinkByNode[x] != indexByNode[x] {
        KeepStep(g, loops, s0, s, x, gray);
        return;
      }
      Close(x, gray, s0);
    }

    /** Pops and judges the component rooted at `x`. */
    method Close(x: Id, ghost gray: set<Id>, ghost s0: State)
      requires Inv(g, loops, s0, gray) && Exploring(g, loops, s0, Snapshot(), x, gray, Successors(g, x))
      requires x in lowlinkByNode && x in indexByNode && lowlinkByNode[x] == indexByNode[x]
      requires forall v :: v in onStack <==> v in stack
      modifies this`stack, this`onStack, this`illegal
      ensures Valid(gray) && Finished(g, s0, Snapshot(), x)
    {
      hide Exploring, Inv, Finished, Reaches, Same, Offending, Edge, Segment;
      ghost var s := Snapshot();
      ExploringFacts(g, loops, s0, s, x, gray, Successors(g, x));
      var component := PopComponent(x, s0.stack);
      SegmentIs(g, loops, s0, s, x, gray, component);
      var bad := Offends(component);
      if bad {
        illegal := illegal + {component[0]};
      }
      PopStep(g, loops, s0, s, x, gray, illegal, component[0]);
      assert Snapshot() == Popped(s0, s, illegal);
    }
  }

  /** One reported node per offending component, and nothing else. */
  method FindIllegalCycles(g: Graph, loops: set<Id>) returns (illegal: set<Id>)
    requires g.Valid()
    ensures forall r :: r in illegal ==> r in g.succ && Offending(g, loops, r)
    ensures forall v :: v in g.succ && Offending(g, loops, v) ==> exists r :: r in illegal && Same(g, r, v)
    ensures forall r, r' :: r in illegal && r' in illegal && Same(g, r, r') ==> r == r'
    ensures illegal == {} <==> CyclesHaveLoops(g, loops)
  {
    hide Inv, Finished, Grows, LowWitness, LowBound, Reaches, Offending, Same, CyclesHaveLoops;
    var search := new Search(g, loops);
    EmptyInv(g, loops);
    for i := 0 to |g.keys|
      invariant search.g == g && search.loops == loops
      invariant search.Valid({})
      invariant forall k :: 0 <= k < i ==> g.keys[k] in search.indexByNode
    {
      ghost var s := search.Snapshot();
      if g.keys[i] !in search.indexByNode {
        search.StrongConnect(g.keys[i], {});
        FinishedFacts(g, s, search.Snapshot(), g.keys[i]);
      }
    }
    illegal := search.illegal;
    AllClosed(g, loops, search.Snapshot());
    LoopsIff(g, loops);
    assert illegal != {} ==> exists r :: r in illegal;
  }

  lemma LoopsIff(g: Graph, loops: set<Id>)
    ensures CyclesHaveLoops(g, loops) <==> forall v :: v in g.succ ==> !Offending(g, loops, v)
  {
    hide Reaches, Cyclic, Same;
  }

  lemma EmptyInv(g: Graph, loops: set<Id>)
    ensures Inv(g, loops, State(map[], map[], [], 0, {}), {})
  {
  }

  lemma FinishedFacts(g: Graph, s0: State, s: State, x: Id)
    requires Finished(g, s0, s, x)
    ensures x in s.index && forall v :: v in s0.index ==> v in s.index
  {
  }

  lemma AllClosed(g: Graph, loops: set<Id>, s: State)
    requires g.Valid() && Inv(g, loops, s, {})
    requires forall k :: 0 <= k < |g.keys| ==> g.keys[k] in s.index
    ensures forall r :: r in s.illegal ==> r in g.succ && Offending(g, loops, r)
    ensures forall v :: v in g.succ && Offending(g, loops, v) ==> exists r :: r in s.illegal && Same(g, r, v)
    ensures forall r, r' :: r in s.illegal && r' in s.illegal && Same(g, r, r') ==> r == r'
  {
    hide Reaches, Offending, Same, NoBlackToWhite, StackReaches, ClosedWhole;
    forall v | v in g.succ
      ensures Closed(s, v)
    {
      assert v in g.keys;
      assert v in s.stack ==> ReachesSome(g, v, {});
    }
  }
}
