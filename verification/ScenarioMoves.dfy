/** The flow of a scenario read off its fields, one by one, against the graph the validator builds. */
module ScenarioMoves {
  import opened IrelSyntax
  import opened Json
  import opened Graphs
  import opened Scenarios
  import opened ScenarioCompile
  import opened ScenarioTheorems

  // ----- the forms a target can take -----

  predicate Reserved(name: string) { name == "@end_no_data" || name == "@challenge" || name == "@human_task" }

  /** A plain node id. */
  predicate Plainly(target: Option<Json>, v: Id) {
    target == Some(JStr(v)) && !Reserved(v)
  }

  /** A call of a returning handler that comes back to the node. */
  predicate ByHandler(target: Option<Json>, v: Id) {
    && target.Some? && target.value.JObj?
    && "handler" in target.value.fields && "return_node" in target.value.fields
    && (target.value.fields["handler"] == JStr("@challenge") || target.value.fields["handler"] == JStr("@human_task"))
    && target.value.fields["return_node"] == JStr(v)
  }

  /** The end without data. */
  predicate ToEnd(target: Option<Json>) { target == Some(JStr("@end_no_data")) }

  // ----- moves -----

  /** The node's fields allow a move to `v`. */
  predicate Moves(n: IRNode, v: Id) {
    || Plainly(n.next, v) || ByHandler(n.next, v)
    || (exists i :: 0 <= i < |n.on| && (Plainly(n.on[i].target, v) || ByHandler(n.on[i].target, v)))
    || (exists i :: 0 <= i < |n.fallback| && n.fallback[i].entry == Some(JStr(v)))
    || (n.loop.Some? && (n.loop.value.body == Some(JStr(v)) || n.loop.value.exit == Some(JStr(v))))
  }

  /** The node can end the flow without data. */
  predicate CanEnd(n: IRNode) {
    ToEnd(n.next) || exists i :: 0 <= i < |n.on| && ToEnd(n.on[i].target)
  }

  /** A target of none of the forms. */
  ghost predicate Formless(target: Option<Json>) {
    !ToEnd(target) && forall v :: !Plainly(target, v) && !ByHandler(target, v)
  }

  /** Some field that is there has none of the forms it may have. */
  ghost predicate Broken(n: IRNode) {
    || (n.next.Some? && Formless(n.next))
    || (exists i :: 0 <= i < |n.on| && Formless(n.on[i].target))
    || (exists i :: 0 <= i < |n.fallback| && !IsText(n.fallback[i].entry))
    || (n.loop.Some? && (!IsText(n.loop.value.body) || !IsText(n.loop.value.exit)))
  }

  // ----- one target -----

  lemma ReadTargetForms(target: Option<Json>)
    ensures forall v :: ReadTarget(target) == ToNode(v) <==> Plainly(target, v) || ByHandler(target, v)
    ensures ReadTarget(target) == ToEndNoData <==> ToEnd(target)
    ensures ReadTarget(target) == Malformed <==> Formless(target)
  {
    forall v
      ensures ReadTarget(target) == ToNode(v) <==> Plainly(target, v) || ByHandler(target, v)
    {
    }
    if ReadTarget(target).ToNode? {
      assert Plainly(target, ReadTarget(target).id) || ByHandler(target, ReadTarget(target).id);
    }
  }

  lemma ReadNodeTargetForms(target: Option<Json>)
    ensures forall v :: ReadNodeTarget(target) == ToNode(v) <==> target == Some(JStr(v))
    ensures ReadNodeTarget(target) != ToEndNoData
    ensures ReadNodeTarget(target) == Malformed <==> !IsText(target)
  {
  }

  // ----- all targets of a node -----

  /** The targets of a node, field by field. */
  lemma TargetsAre(n: IRNode, t: Target)
    ensures t in TargetsOf(n) <==>
              || (n.next.Some? && t == ReadTarget(n.next))
              || (exists i :: 0 <= i < |n.on| && t == ReadTarget(n.on[i].target))
              || (exists i :: 0 <= i < |n.fallback| && t == ReadNodeTarget(n.fallback[i].entry))
              || (n.loop.Some? && (t == ReadNodeTarget(n.loop.value.body) || t == ReadNodeTarget(n.loop.value.exit)))
  {
    hide ReadTarget, ReadNodeTarget;
    var a := if n.next.Some? then [ReadTarget(n.next)] else [];
    var b := seq(|n.on|, i requires 0 <= i < |n.on| => ReadTarget(n.on[i].target));
    var c := seq(|n.fallback|, i requires 0 <= i < |n.fallback| => ReadNodeTarget(n.fallback[i].entry));
    var d := if n.loop.Some? then [ReadNodeTarget(n.loop.value.body), ReadNodeTarget(n.loop.value.exit)] else [];
    assert TargetsOf(n) == a + b + c + d;
    InFour(a, b, c, d, t);
    if i :| 0 <= i < |n.on| && t == ReadTarget(n.on[i].target) { assert b[i] == t; }
    if i :| 0 <= i < |n.fallback| && t == ReadNodeTarget(n.fallback[i].entry) { assert c[i] == t; }
    if t in d { assert n.loop.Some?; }
  }

  lemma InFour<T>(a: seq<T>, b: seq<T>, c: seq<T>, d: seq<T>, t: T)
    ensures t in a + b + c + d <==> t in a || t in b || t in c || t in d
  {
  }

  lemma TargetsMove(n: IRNode, v: Id)
    ensures ToNode(v) in TargetsOf(n) <==> Moves(n, v)
  {
    hide TargetsOf, ReadTarget, ReadNodeTarget, Plainly, ByHandler;
    TargetsAre(n, ToNode(v));
    ReadTargetForms(n.next);
    forall i | 0 <= i < |n.on|
      ensures ReadTarget(n.on[i].target) == ToNode(v) <==> Plainly(n.on[i].target, v) || ByHandler(n.on[i].target, v)
    {
      ReadTargetForms(n.on[i].target);
    }
    forall i | 0 <= i < |n.fallback|
      ensures ReadNodeTarget(n.fallback[i].entry) == ToNode(v) <==> n.fallback[i].entry == Some(JStr(v))
    {
      ReadNodeTargetForms(n.fallback[i].entry);
    }
    if n.loop.Some? {
      ReadNodeTargetForms(n.loop.value.body);
      ReadNodeTargetForms(n.loop.value.exit);
    }
    assert n.next.None? ==> !Plainly(n.next, v) && !ByHandler(n.next, v) by { NothingThere(v); }
  }

  lemma NothingThere(v: Id)
    ensures !Plainly(None, v) && !ByHandler(None, v) && !ToEnd(None)
  {
  }

  lemma TargetsEnd(n: IRNode)
    ensures ToEndNoData in TargetsOf(n) <==> CanEnd(n)
  {
    hide TargetsOf, ReadTarget, ReadNodeTarget, ToEnd;
    TargetsAre(n, ToEndNoData);
    ReadTargetForms(n.next);
    NothingThere("");
    forall i | 0 <= i < |n.on|
      ensures ReadTarget(n.on[i].target) == ToEndNoData <==> ToEnd(n.on[i].target)
    {
      ReadTargetForms(n.on[i].target);
    }
    forall i | 0 <= i < |n.fallback|
      ensures ReadNodeTarget(n.fallback[i].entry) != ToEndNoData
    {
      ReadNodeTargetForms(n.fallback[i].entry);
    }
    if n.loop.Some? {
      ReadNodeTargetForms(n.loop.value.body);
      ReadNodeTargetForms(n.loop.value.exit);
    }
  }

  lemma TargetsBroken(n: IRNode)
    ensures Malformed in TargetsOf(n) <==> Broken(n)
  {
    hide TargetsOf, ReadTarget, ReadNodeTarget, Formless;
    TargetsAre(n, Malformed);
    ReadTargetForms(n.next);
    forall i | 0 <= i < |n.on|
      ensures ReadTarget(n.on[i].target) == Malformed <==> Formless(n.on[i].target)
    {
      ReadTargetForms(n.on[i].target);
    }
    forall i | 0 <= i < |n.fallback|
      ensures ReadNodeTarget(n.fallback[i].entry) == Malformed <==> !IsText(n.fallback[i].entry)
    {
      ReadNodeTargetForms(n.fallback[i].entry);
    }
    if n.loop.Some? {
      ReadNodeTargetForms(n.loop.value.body);
      ReadNodeTargetForms(n.loop.value.exit);
    }
  }

  // ----- the graph -----

  /** The graph the validator builds has an edge exactly where the fields allow a move. */
  lemma EdgesAreMoves(s: Scenario, u: Id, v: Id)
    requires s.Valid()
    ensures Edge(BuildGraph(s), u, v) <==> u in s.nodes && Moves(s.nodes[u], v)
  {
    hide TargetsOf, Moves, BuildGraph;
    GraphValid(s);
    if u in s.nodes {
      TargetsMove(s.nodes[u], v);
    }
  }

  // ----- what acceptance guarantees, in moves -----

  /** A declared node that can move there. */
  predicate CanMove(s: Scenario, u: Id, v: Id) {
    u in s.nodes && Moves(s.nodes[u], v)
  }

  /** The scenario can be walked this way. */
  predicate Path(s: Scenario, w: seq<Id>) {
    forall i :: 0 < i < |w| ==> CanMove(s, w[i - 1], w[i])
  }

  lemma PathIsWalk(s: Scenario, w: seq<Id>)
    requires s.Valid()
    ensures Path(s, w) <==> IsWalk(BuildGraph(s), w)
  {
    hide Moves, BuildGraph;
    forall i | 0 < i < |w|
      ensures Edge(BuildGraph(s), w[i - 1], w[i]) <==> CanMove(s, w[i - 1], w[i])
    {
      EdgesAreMoves(s, w[i - 1], w[i]);
    }
  }

  /** No accepted node has a target of no form, and every path from the start stays on declared nodes. */
  lemma AcceptedPaths(s: Scenario, w: seq<Id>, i: nat)
    requires s.Valid() && Accepted(s) && Path(s, w) && i < |w| && w[0] == s.start
    ensures w[i] in s.nodes && !Broken(s.nodes[w[i]])
  {
    hide Path, IsWalk, BuildGraph, Broken, TargetsOf;
    PathIsWalk(s, w);
    WalkStaysDeclared(s, w, i);
    assert NodeAccepted(s, w[i]);
    TargetsBroken(s.nodes[w[i]]);
  }

  /** Some path from the start ends at a terminal node or one that can end without data. */
  lemma AcceptedEnds(s: Scenario) returns (w: seq<Id>)
    requires s.Valid() && Accepted(s)
    ensures w != [] && w[0] == s.start && Path(s, w)
    ensures var last := w[|w| - 1]; last in s.nodes && (s.nodes[last].terminal.Some? || CanEnd(s.nodes[last]))
  {
    hide Path, IsWalk, BuildGraph, Accepted, TargetsOf;
    w := AcceptedCanEnd(s);
    PathIsWalk(s, w);
    TargetsEnd(s.nodes[w[|w| - 1]]);
  }

  /** A path with more positions than there are nodes comes upon a node from which one can get to a loop node and
      back. */
  lemma LongPathMeetsLoop(s: Scenario, w: seq<Id>) returns (i: nat, l: Id, there: seq<Id>, back: seq<Id>)
    requires s.Valid() && Accepted(s) && Path(s, w) && |w| > |s.nodes.Keys| && w[0] == s.start
    ensures i < |w| && l in s.nodes && s.nodes[l].loop.Some?
    ensures there != [] && back != [] && Path(s, there) && Path(s, back)
    ensures there[0] == w[i] && there[|there| - 1] == l && back[0] == l && back[|back| - 1] == w[i]
  {
    hide Path, IsWalk, BuildGraph, Accepted, ReachesIn;
    PathIsWalk(s, w);
    i, l := LongWalkMeetsLoop(s, w);
    var g := BuildGraph(s);
    var n: nat :| ReachesIn(g, w[i], l, n);
    var m: nat :| ReachesIn(g, l, w[i], m);
    there := WalkOf(g, w[i], l, n);
    back := WalkOf(g, l, w[i], m);
    PathIsWalk(s, there);
    PathIsWalk(s, back);
  }
}
