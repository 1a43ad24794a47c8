/** Whole scenarios that the validator accepts although the documents say otherwise: one with a cycle that avoids its
    loop node, and one that loses a condition. */
module ScenarioWitnesses {
  import opened IrelSyntax
  import opened Json
  import opened Graphs
  import opened Tarjan
  import opened IrelPrinter
  import opened IrelTypes
  import opened IrelSoundness
  import opened IrelCompile
  import opened Scenarios
  import opened ScenarioCompile
  import opened ScenarioTheorems
  import opened CycleRule
  import IrelLexer

  // ----- the simplest condition -----

  const ALWAYS: Node := Literal(BooleanT, Bool(true), false)

  lemma AlwaysCompiles(ctx: Context)
    ensures CompileCondition("true ", ctx) == Compiled(ALWAYS)
  {
    hide ParseText;
    assert Fits(ALWAYS, OR) && Print(ALWAYS) == [BoolTok(true)];
    assert [BoolTok(true)][1..] == [];
    assert IrelLexer.Render(Print(ALWAYS)) == "true ";
    TextRoundTrip(ALWAYS);
  }

  /** What a node without a condition, or with the simplest ones, has to meet to be accepted. */
  lemma PlainAccepted(s: Scenario, id: Id)
    requires id in s.nodes
    requires var n := s.nodes[id];
             && n.fallback == [] && n.criteria == [] && n.what == [] && |n.on| <= 1
             && (forall i :: 0 <= i < |n.on| ==>
                   n.on[i].when == Some(JStr("true ")) && n.on[i].target.Some? && n.on[i].target.value.JStr?)
             && (n.loop.Some? ==>
                   && n.loop.value.until == Some(JStr("true "))
                   && IsText(n.loop.value.body) && IsText(n.loop.value.exit)
                   && n.loop.value.maxIterations == Some(JNum(1.0)))
             && Malformed !in TargetsOf(n) && (forall t :: ToNode(t) in TargetsOf(n) ==> t in s.nodes)
    ensures NodeAccepted(s, id)
  {
    hide TargetsOf, CompileCondition, NodeContext;
    PlainPriorities(s.nodes[id].on);
    PlainCompiles(s, id);
  }

  lemma PlainPriorities(on: seq<OnBranch>)
    requires |on| <= 1
    ensures NoRepeats(Priorities(on))
  {
    if |on| == 1 {
      assert on[..0] == [] && on[1..] == [];
    }
  }

  lemma PlainCompiles(s: Scenario, id: Id)
    requires id in s.nodes
    requires var n := s.nodes[id];
             && n.fallback == [] && n.criteria == [] && |n.on| <= 1
             && (forall i :: 0 <= i < |n.on| ==> n.on[i].when == Some(JStr("true ")))
             && (n.loop.Some? ==> n.loop.value.until == Some(JStr("true ")))
    ensures CompileNode(s, id).1 == []
  {
    hide CompileCondition, NodeContext, CompileBranches;
    var n := s.nodes[id];
    var ctx := NodeContext(s, id, false, {});
    AlwaysCompiles(ctx);
    AlwaysCompiles(NodeContext(s, id, true, {}));
    OneBranch(n.on, id, ctx);
    var none: seq<Issue> := [];
    assert CompileNode(s, id).1 == none + none + none + none;
  }

  /** What at most one branch compiles to. */
  lemma OneBranch(on: seq<OnBranch>, id: Id, ctx: Context)
    requires |on| <= 1 && (on != [] ==> IsText(on[0].when))
    ensures on == [] ==> CompileBranches(on, id, ctx) == ([], [])
    ensures on != [] ==>
              var c := CompileCondition(on[0].when.value.s, ctx);
              && CompileBranches(on, id, ctx).1 == CompiledIssues(c, id)
              && (c.Refused? ==> CompileBranches(on, id, ctx).0 == [])
  {
    hide CompileCondition;
    if on != [] {
      assert on[..0] == [] && CompileBranches(on[..0], id, ctx) == ([], []);
      var c := CompileCondition(on[0].when.value.s, ctx);
      assert [] + CompiledIssues(c, id) == CompiledIssues(c, id);
    }
  }

  // ----- a cycle that avoids its loop node -----

  function Plain(next: Option<Json>, on: seq<OnBranch>, loop: Option<Loop>, terminal: Option<string>): IRNode {
    IRNode(next, on, loop, [], terminal, [], [], None)
  }

  function DetourNodes(): map<Id, IRNode> {
    map[
      "a" := Plain(None, [], Some(Loop(Some(JStr("b")), Some(JStr("d")), Some(JStr("true ")), Some(JNum(1.0)))), None),
      "b" := Plain(Some(JStr("c")), [], None, None),
      "c" := Plain(Some(JStr("a")), [OnBranch(Some(JStr("true ")), Some(JStr("b")), Some(JNum(1.0)))], None, None),
      "d" := Plain(None, [], None, Some("success"))]
  }

  /** The loop node `a` leads to `b` and out to `d`; `b` and `c` go back and forth; `c` also returns to `a`. */
  function DetourScenario(): Scenario {
    Scenario("a", ["a", "b", "c", "d"], DetourNodes(), None)
  }

  lemma DetourTargets()
    ensures var n := DetourNodes();
            && TargetsOf(n["a"]) == [ToNode("b"), ToNode("d")] && TargetsOf(n["b"]) == [ToNode("c")]
            && TargetsOf(n["c"]) == [ToNode("a"), ToNode("b")] && TargetsOf(n["d"]) == []
  {
    assert "c"[0] != '@' && "a"[0] != '@' && "b"[0] != '@';
    assert END_NO_DATA[0] == '@' && forall h :: h in RETURNING ==> h[0] == '@';
  }

  lemma DetourEdges(u: Id, v: Id)
    ensures Edge(BuildGraph(DetourScenario()), u, v) <==>
              || (u == "a" && (v == "b" || v == "d")) || (u == "b" && v == "c") || (u == "c" && (v == "a" || v == "b"))
  {
    hide TargetsOf, BuildGraph;
    DetourTargets();
    GraphValid(DetourScenario());
  }

  lemma DetourNodesAccepted()
    ensures forall id :: id in DetourNodes() ==> NodeAccepted(DetourScenario(), id)
  {
    hide TargetsOf, NodeAccepted;
    DetourTargets();
    PlainAccepted(DetourScenario(), "a");
    PlainAccepted(DetourScenario(), "b");
    PlainAccepted(DetourScenario(), "c");
    PlainAccepted(DetourScenario(), "d");
  }

  lemma DetourNotOffending(id: Id)
    requires id in DetourNodes()
    ensures !Offending(BuildGraph(DetourScenario()), LoopNodes(DetourScenario()), id)
  {
    hide BuildGraph, Reaches;
    var g := BuildGraph(DetourScenario());
    assert "a" in LoopNodes(DetourScenario());
    var around := ["a", "b", "c", "a"];
    DetourEdges("a", "b");
    DetourEdges("b", "c");
    DetourEdges("c", "a");
    assert ClosedWalk(g, around);
    if id == "d" {
      forall v
        ensures !Edge(g, "d", v)
      {
        DetourEdges("d", v);
      }
    } else {
      ClosedTogether(g, around, if id == "a" then 0 else if id == "b" then 1 else 2);
    }
  }

  /** The validator accepts it, although the cycle between `b` and `c` has no loop node. */
  lemma DetourScenarioAccepted()
    ensures var s := DetourScenario();
            s.Valid() && Accepted(s) && !EveryCycleLoops(BuildGraph(s), LoopNodes(s))
  {
    hide BuildGraph, Reaches, Offending, NodeAccepted, TargetsOf;
    var s := DetourScenario();
    var g := BuildGraph(s);
    DetourNodesAccepted();
    forall id | id in s.nodes
      ensures !Offending(g, LoopNodes(s), id)
    {
      DetourNotOffending(id);
    }
    DetourEdges("a", "d");
    ReachesEdge(g, "a", "d");
    assert Terminal(s, "d") && TerminalReachable(s);
    var inner := ["b", "c", "b"];
    DetourEdges("b", "c");
    DetourEdges("c", "b");
    assert ClosedWalk(g, inner) && LoopNodes(s) == {"a"} && !Touches(inner, {"a"});
  }

  // ----- a condition that disappears -----

  const ASKS: Node := Call("is_null", [Variable(["params", "p"], false)], false)

  /** The condition as the printer spells it. */
  ghost function AsksText(): string { IrelLexer.Render(Print(ASKS)) }

  /** The parameter `p` may be nothing at all: its list of choices is empty. */
  function EmptyChoice(): map<string, Json> {
    map["type" := JStr("object"), "properties" := JObj(map["p" := JObj(map["enum" := JArr([])])])]
  }

  ghost function LossyNodes(): map<Id, IRNode> {
    map[
      "n" := Plain(
        Some(JStr("done")), [OnBranch(Some(JStr(AsksText())), Some(JStr("done")), Some(JNum(1.0)))], None, None),
      "done" := Plain(None, [], None, Some("success"))]
  }

  ghost function LossyScenario(): Scenario {
    Scenario("n", ["n", "done"], LossyNodes(), Some(EmptyChoice()))
  }

  lemma AsksFits()
    ensures Fits(ASKS, OR)
  {
    assert Fits(Variable(["params", "p"], false), OR);
  }

  /** The empty list of choices infers the empty type. */
  lemma ChoiceIsEmpty(ctx: Context)
    requires ctx.params == Some(EmptyChoice())
    ensures ResolveVariable(["params", "p"], ctx).ty == Some({})
  {
    assert ["params", "p"][1..] == ["p"];
    var child := map["enum" := JArr([])];
    assert InferType(child) == Some({});
    assert Properties(EmptyChoice()) == map["p" := JObj(child)];
    assert ResolveProperty(["p"], EmptyChoice()) == Accept({});
  }

  lemma AsksDropped(ctx: Context)
    requires ctx.params == Some(EmptyChoice())
    ensures CompileCondition(AsksText(), ctx) == Refused([])
  {
    hide ParseText, TypeCheck, ResolveVariable, Fits, Print;
    AsksFits();
    TextRoundTrip(ASKS);
    ChoiceIsEmpty(ctx);
    SilentRefusal(["params", "p"], ctx);
  }

  /** A node whose only condition is dropped compiles to nothing and reports nothing. */
  lemma DroppedBranch(s: Scenario, id: Id)
    requires id in s.nodes
    requires var n := s.nodes[id];
             && |n.on| == 1 && IsText(n.on[0].when) && n.loop.None? && n.fallback == [] && n.criteria == []
             && CompileCondition(n.on[0].when.value.s, NodeContext(s, id, false, {})) == Refused([])
    ensures CompileNode(s, id).0 == CompiledNode([], None, [], []) && CompileNode(s, id).1 == []
  {
    hide CompileCondition, CompileBranches, NodeContext;
    OneBranch(s.nodes[id].on, id, NodeContext(s, id, false, {}));
    var none: seq<Issue> := [];
    assert CompiledIssues(Refused([]), id) == none;
    assert CompileNode(s, id).1 == none + none + none + none && none + none + none + none == none;
    var c := CompileNode(s, id).0;
    assert c.on == [] && c.loop == None && c.fallback == [] && c.witnesses == [];
  }

  lemma LossyCompiles()
    ensures var (c, issues) := CompileNode(LossyScenario(), "n"); c == CompiledNode([], None, [], []) && issues == []
  {
    hide CompileCondition, CompileNode, NodeContext, AsksText;
    var s := LossyScenario();
    ContextParams(s, "n");
    AsksDropped(NodeContext(s, "n", false, {}));
    DroppedBranch(s, "n");
  }

  lemma ContextParams(s: Scenario, id: Id)
    ensures NodeContext(s, id, false, {}).params == s.params
  {
  }

  lemma LossyTargets()
    ensures var n := LossyNodes(); TargetsOf(n["n"]) == [ToNode("done"), ToNode("done")] && TargetsOf(n["done"]) == []
  {
    assert "done"[0] != '@' && END_NO_DATA[0] == '@' && forall h :: h in RETURNING ==> h[0] == '@';
  }

  lemma LossyEdges(u: Id, v: Id)
    ensures Edge(BuildGraph(LossyScenario()), u, v) <==> u == "n" && v == "done"
  {
    hide TargetsOf, BuildGraph;
    LossyTargets();
    GraphValid(LossyScenario());
  }

  lemma LossyNodesAccepted()
    ensures NodeAccepted(LossyScenario(), "n") && NodeAccepted(LossyScenario(), "done")
  {
    hide TargetsOf, CompileNode;
    LossyTargets();
    LossyCompiles();
    PlainPriorities(LossyNodes()["n"].on);
    PlainAccepted(LossyScenario(), "done");
  }

  lemma LossyAcyclic(id: Id)
    ensures !Cyclic(BuildGraph(LossyScenario()), id)
  {
    hide BuildGraph;
    var g := BuildGraph(LossyScenario());
    if w :| Edge(g, id, w) && Reaches(g, w, id) {
      LossyEdges(id, w);
      var next := FirstEdge(g, w, id);
      LossyEdges(w, next);
      assert false;
    }
  }

  /** The validator accepts the scenario with no error, its node is schema-valid, and the compiled form has lost the
      only condition. */
  lemma LossyScenarioAccepted()
    ensures var s := LossyScenario();
            && s.Valid() && Accepted(s) && SchemaValid(s.nodes["n"])
            && |s.nodes["n"].on| == 1 && CompileNode(s, "n").0.on == [] && CompiledNodes(s) == map[]
  {
    hide BuildGraph, Reaches, NodeAccepted, TargetsOf, CompileNode, Cyclic, AsksText, EmptyChoice;
    var s := LossyScenario();
    assert ParamsUsable(s) by { ChoiceUsable(s); }
    var g := BuildGraph(s);
    LossyNodesAccepted();
    LossyCompiles();
    PlainCompiled();
    forall id | id in s.nodes
      ensures !Offending(g, LoopNodes(s), id)
    {
      LossyAcyclic(id);
    }
    LossyEdges("n", "done");
    ReachesEdge(g, "n", "done");
    assert Terminal(s, "done") && TerminalReachable(s);
  }

  lemma ChoiceUsable(s: Scenario)
    requires s.params == Some(EmptyChoice())
    ensures ParamsUsable(s)
  {
  }

  lemma PlainCompiled()
    ensures CompileNode(LossyScenario(), "done").0 == CompiledNode([], None, [], [])
  {
  }
}
