/** What acceptance by the static validator guarantees about the flow graph and the compiled conditions. */
module ScenarioTheorems {
  import opened IrelSyntax
  import opened Json
  import opened Graphs
  import opened IrelPrinter
  import opened IrelTypes
  import opened IrelEval
  import opened IrelSoundness
  import opened IrelCompile
  import opened Scenarios
  import opened ScenarioCompile
  import opened Tarjan
  import opened Decisions

  // ----- walks -----

  ghost predicate IsWalk(g: Graph, w: seq<Id>) {
    forall i :: 0 < i < |w| ==> Edge(g, w[i - 1], w[i])
  }

  /** Every walk from the start stays on declared nodes. */
  lemma {:induction false} WalkStaysDeclared(s: Scenario, w: seq<Id>, i: nat)
    requires s.Valid() && Accepted(s)
    requires IsWalk(BuildGraph(s), w) && i < |w| && w[0] == s.start
    ensures w[i] in s.nodes
    decreases i
  {
    hide BuildGraph, CompileNode, Reaches, TargetsOf, TiersRise, NoRepeats, Priorities;
    if i > 0 {
      WalkStaysDeclared(s, w, i - 1);
      GraphValid(s);
      assert NodeAccepted(s, w[i - 1]);
    }
  }

  /** A path as a walk. */
  lemma {:induction false} WalkOf(g: Graph, u: Id, v: Id, n: nat) returns (w: seq<Id>)
    requires ReachesIn(g, u, v, n)
    ensures |w| == n + 1 && w[0] == u && w[n] == v && IsWalk(g, w)
    decreases n
  {
    if n == 0 {
      w := [u];
    } else {
      var x :| Edge(g, u, x) && ReachesIn(g, x, v, n - 1);
      var rest := WalkOf(g, x, v, n - 1);
      w := [u] + rest;
      assert forall i :: 0 < i < |w| ==> w[i] == rest[i - 1];
    }
  }

  lemma {:induction false} WalkReaches(g: Graph, w: seq<Id>, i: nat, j: nat)
    requires IsWalk(g, w) && i <= j < |w|
    ensures Reaches(g, w[i], w[j])
    decreases j - i
  {
    if i == j {
      ReachesRefl(g, w[i]);
    } else {
      WalkReaches(g, w, i, j - 1);
      ReachesEdge(g, w[j - 1], w[j]);
      ReachesTrans(g, w[i], w[j - 1], w[j]);
    }
  }

  /** More positions than members: some member repeats. */
  lemma {:induction false} Pigeonhole(w: seq<Id>, members: set<Id>) returns (i: nat, j: nat)
    requires forall k :: 0 <= k < |w| ==> w[k] in members
    requires |w| > |members|
    ensures i < j < |w| && w[i] == w[j]
    decreases |w|
  {
    var last := w[|w| - 1];
    if k :| 0 <= k < |w| - 1 && w[k] == last {
      i, j := k, |w| - 1;
    } else {
      i, j := Pigeonhole(w[..|w| - 1], members - {last});
    }
  }

  /** A walk longer than the number of nodes passes through a component that contains a loop node. */
  lemma LongWalkMeetsLoop(s: Scenario, w: seq<Id>) returns (i: nat, l: Id)
    requires s.Valid() && Accepted(s)
    requires IsWalk(BuildGraph(s), w) && |w| > |s.nodes.Keys| && w[0] == s.start
    ensures i < |w| && l in LoopNodes(s) && Same(BuildGraph(s), w[i], l)
  {
    hide BuildGraph, NodeAccepted, Reaches, Same, LoopNodes, TerminalReachable;
    var g := BuildGraph(s);
    forall k | 0 <= k < |w|
      ensures w[k] in s.nodes.Keys
    {
      WalkStaysDeclared(s, w, k);
    }
    var a, b := Pigeonhole(w, s.nodes.Keys);
    WalkReaches(g, w, a + 1, b);
    assert Edge(g, w[a], w[a + 1]);
    assert Cyclic(g, w[a]);
    assert !Offending(g, LoopNodes(s), w[a]);
    i := a;
    l :| Same(g, w[a], l) && l in LoopNodes(s);
  }

  /** In an accepted scenario some walk from the start ends at a node that is terminal or ends without data. */
  lemma AcceptedCanEnd(s: Scenario) returns (w: seq<Id>)
    requires s.Valid() && Accepted(s)
    ensures w != [] && w[0] == s.start && IsWalk(BuildGraph(s), w)
    ensures w[|w| - 1] in s.nodes && Terminal(s, w[|w| - 1])
  {
    hide NodeAccepted, BuildGraph, Offending, Terminal;
    var g := BuildGraph(s);
    var end :| Reaches(g, s.start, end) && Terminal(s, end);
    var n: nat :| ReachesIn(g, s.start, end, n);
    w := WalkOf(g, s.start, end, n);
    WalkStaysDeclared(s, w, n);
  }

  // ----- compiled conditions -----

  /** Shapes the JSON schema of scenarios guarantees before static validation. */
  predicate SchemaValid(n: IRNode) {
    && (forall i :: 0 <= i < |n.on| ==> IsText(n.on[i].when) && n.on[i].priority.Some? && n.on[i].priority.value.JNum?)
    && (n.loop.Some? ==> IsText(n.loop.value.until) && IsText(n.loop.value.body) && IsText(n.loop.value.exit)
                         && n.loop.value.maxIterations.Some? && n.loop.value.maxIterations.value.JNum?)
    && (forall i :: 0 <= i < |n.fallback| ==> IsText(n.fallback[i].tier) && IsText(n.fallback[i].entry))
  }

  /** No parameter that a text can name is declared with an empty list of types or choices. */
  ghost predicate NoEmptyParams(s: Scenario) {
    forall path :: Writable(["params"] + path) ==> ResolveParam(path, s.params).ty != Some({})
  }

  lemma ContextNoEmpty(s: Scenario, id: Id, allowLoop: bool, priors: set<Id>)
    requires NoEmptyParams(s)
    ensures NoEmptyWritable(NodeContext(s, id, allowLoop, priors))
  {
    hide Reachability.ReachesPlus, ResolveParam, BuildGraph;
    var ctx := NodeContext(s, id, allowLoop, priors);
    forall path | Writable(path)
      ensures ResolveVariable(path, ctx).ty != Some({})
    {
      if path[0] == "node" && |path| >= 3 {
        FieldTypeNonEmpty(s, path, ctx);
      } else if path[0] == "params" {
        assert ["params"] + path[1..] == path;
      }
    }
  }

  lemma FieldTypeNonEmpty(s: Scenario, path: seq<string>, ctx: Context)
    requires |path| >= 3 && ctx.humanTasks == HumanTasks(s)
    ensures NodeFieldType(path, ctx) != Some({})
  {
  }

  /** The condition compiled to the parse of its text. */
  ghost predicate Kept(text: Option<Json>, ast: Node, ctx: Context) {
    IsText(text) && CompileCondition(text.value.s, ctx) == Compiled(ast)
  }

  lemma NoIssueCompiled(text: string, ctx: Context, id: Id)
    requires NoEmptyWritable(ctx) && CompiledIssues(CompileCondition(text, ctx), id) == []
    ensures CompileCondition(text, ctx).Compiled?
  {
    hide CompileCondition, NoEmptyWritable;
    var c := CompileCondition(text, ctx);
    assert c.Refused? ==> |CompiledIssues(c, id)| == |c.diags|;
    NeverDropped(text, ctx);
  }

  lemma {:induction false} BranchesKept(on: seq<OnBranch>, id: Id, ctx: Context)
    requires NoEmptyWritable(ctx) && CompileBranches(on, id, ctx).1 == []
    requires forall i :: 0 <= i < |on| ==> IsText(on[i].when) && on[i].priority.Some? && on[i].priority.value.JNum?
    ensures var r := CompileBranches(on, id, ctx).0;
            |r| == |on| && forall i :: 0 <= i < |on| ==>
              Kept(on[i].when, r[i].when, ctx) && r[i].target == on[i].target
                  && on[i].priority == Some(JNum(r[i].priority))
    decreases |on|
  {
    hide CompileCondition, NoEmptyWritable;
    if on != [] {
      var b := on[|on| - 1];
      BranchesKept(on[..|on| - 1], id, ctx);
      NoIssueCompiled(b.when.value.s, ctx, id);
    }
  }

  lemma {:induction false} TiersKept(s: Scenario, chain: seq<Tier>, id: Id)
    requires NoEmptyParams(s) && CompileTiers(s, chain, id).1 == []
    requires forall i :: 0 <= i < |chain| ==> IsText(chain[i].tier) && IsText(chain[i].entry)
    ensures var r := CompileTiers(s, chain, id).0;
            |r| == |chain| && forall i :: 0 <= i < |chain| ==>
              && chain[i].tier == Some(JStr(r[i].tier)) && chain[i].entry == Some(JStr(r[i].entry))
              && (IsText(chain[i].advanceWhen) <==> r[i].advanceWhen.Some?)
              && (r[i].advanceWhen.Some? ==>
                    Kept(chain[i].advanceWhen, r[i].advanceWhen.value,
                        NodeContext(s, id, false, EntryNodes(chain[..i + 1]))))
    decreases |chain|
  {
    hide CompileCondition, NoEmptyParams, NodeContext, EntryNodes;
    if chain != [] {
      var t := chain[|chain| - 1];
      var front := chain[..|chain| - 1];
      TiersKept(s, front, id);
      forall i | 0 <= i < |front|
        ensures front[i] == chain[i] && EntryNodes(front[..i + 1]) == EntryNodes(chain[..i + 1])
      {
        assert front[..i + 1] == chain[..i + 1];
      }
      assert chain[..|chain|] == chain;
      if IsText(t.advanceWhen) {
        ContextNoEmpty(s, id, false, EntryNodes(chain));
        NoIssueCompiled(t.advanceWhen.value.s, NodeContext(s, id, false, EntryNodes(chain)), id);
      }
    }
  }

  /** The texts of the empty-result witnesses, in order. */
  function WitnessTexts(criteria: seq<Criterion>): seq<string> {
    if criteria == [] then []
    else
      WitnessTexts(criteria[..|criteria| - 1])
      + if criteria[|criteria| - 1].EmptyResultAllowed? then [criteria[|criteria| - 1].condition] else []
  }

  lemma {:induction false} WitnessesKept(criteria: seq<Criterion>, id: Id, ctx: Context)
    requires NoEmptyWritable(ctx) && CompileWitnesses(criteria, id, ctx).1 == []
    ensures var r := CompileWitnesses(criteria, id, ctx).0;
            && |r| == |WitnessTexts(criteria)|
            && forall i :: 0 <= i < |r| ==> Kept(Some(JStr(WitnessTexts(criteria)[i])), r[i], ctx)
    decreases |criteria|
  {
    hide CompileCondition, NoEmptyWritable;
    if criteria != [] {
      var x := criteria[|criteria| - 1];
      WitnessesKept(criteria[..|criteria| - 1], id, ctx);
      if x.EmptyResultAllowed? {
        NoIssueCompiled(x.condition, ctx, id);
      }
    }
  }

  /** `c` holds every condition of node `n`, compiled, in the source's order. */
  ghost predicate KeepsAll(s: Scenario, id: Id, n: IRNode, c: CompiledNode) {
    var ctx := NodeContext(s, id, false, {});
    && |c.on| == |n.on|
    && (forall i :: 0 <= i < |n.on| ==>
          Kept(n.on[i].when, c.on[i].when, ctx) && c.on[i].target == n.on[i].target
              && n.on[i].priority == Some(JNum(c.on[i].priority)))
    && (c.loop.Some? <==> n.loop.Some?)
    && (c.loop.Some? ==>
          Kept(n.loop.value.until, c.loop.value.until, NodeContext(s, id, true, {}))
          && n.loop.value.body == Some(JStr(c.loop.value.body)) && n.loop.value.exit == Some(JStr(c.loop.value.exit))
          && n.loop.value.maxIterations == Some(JNum(c.loop.value.maxIterations)))
    && |c.fallback| == |n.fallback|
    && (forall i :: 0 <= i < |n.fallback| ==>
          (IsText(n.fallback[i].advanceWhen) <==> c.fallback[i].advanceWhen.Some?)
          && (c.fallback[i].advanceWhen.Some? ==>
                Kept(n.fallback[i].advanceWhen, c.fallback[i].advanceWhen.value,
                    NodeContext(s, id, false, EntryNodes(n.fallback[..i + 1])))))
    && |c.witnesses| == |WitnessTexts(n.criteria)|
    && (forall i :: 0 <= i < |c.witnesses| ==> Kept(Some(JStr(WitnessTexts(n.criteria)[i])), c.witnesses[i], ctx))
  }

  /** Compilation is complete: an accepted scenario loses no condition. */
  lemma CompilationComplete(s: Scenario, id: Id)
    requires Accepted(s) && id in s.nodes && SchemaValid(s.nodes[id]) && NoEmptyParams(s)
    ensures KeepsAll(s, id, s.nodes[id], CompileNode(s, id).0)
  {
    hide CompileCondition, CompileBranches, CompileTiers, CompileWitnesses, TerminalReachable, Offending, Kept,
        NoEmptyParams, NoEmptyWritable, NodeContext, EntryNodes, Accepted, CompileLoop, WitnessTexts;
    var n := s.nodes[id];
    IssuesSplit(s, id);
    ContextNoEmpty(s, id, false, {});
    ContextNoEmpty(s, id, true, {});
    BranchesKept(n.on, id, NodeContext(s, id, false, {}));
    if n.loop.Some? { LoopKept(n.loop.value, id, NodeContext(s, id, true, {})); }
    TiersKept(s, n.fallback, id);
    WitnessesKept(n.criteria, id, NodeContext(s, id, false, {}));
  }

  lemma IssuesSplit(s: Scenario, id: Id)
    requires Accepted(s) && id in s.nodes
    ensures var n := s.nodes[id];
            var ctx := NodeContext(s, id, false, {});
            && CompileBranches(n.on, id, ctx).1 == [] && CompileTiers(s, n.fallback, id).1 == []
            && CompileWitnesses(n.criteria, id, ctx).1 == []
            && (n.loop.Some? ==> CompileLoop(n.loop.value, id, NodeContext(s, id, true, {})).1 == [])
  {
    hide CompileBranches, CompileTiers, CompileWitnesses, CompileLoop, TerminalReachable, Offending, NodeContext;
    assert NodeAccepted(s, id);
    var n := s.nodes[id];
    var ctx := NodeContext(s, id, false, {});
    var i1, i3, i4 := CompileBranches(n.on, id, ctx).1, CompileTiers(s, n.fallback, id).1,
        CompileWitnesses(n.criteria, id, ctx).1;
    var i2 := if n.loop.Some? then CompileLoop(n.loop.value, id, NodeContext(s, id, true, {})).1 else [];
    assert CompileNode(s, id).1 == i1 + i2 + i3 + i4;
    assert |i1| + |i2| + |i3| + |i4| == 0;
  }

  lemma LoopKept(l: Loop, id: Id, ctx: Context)
    requires NoEmptyWritable(ctx) && CompileLoop(l, id, ctx).1 == []
    requires IsText(l.until) && IsText(l.body) && IsText(l.exit) && l.maxIterations.Some? && l.maxIterations.value.JNum?
    ensures var r := CompileLoop(l, id, ctx).0;
            r.Some? && Kept(l.until, r.value.until, ctx)
            && l.body == Some(JStr(r.value.body)) && l.exit == Some(JStr(r.value.exit))
            && l.maxIterations == Some(JNum(r.value.maxIterations))
  {
    hide CompileCondition, NoEmptyWritable;
    NoIssueCompiled(l.until.value.s, ctx, id);
  }

  /** Compilation is safe: a kept condition decides in every scope that supplies its variables. */
  lemma KeptDecides(text: Option<Json>, ast: Node, ctx: Context, scope: Scope, dates: Dates)
    requires Kept(text, ast, ctx) && Supplies(scope, ctx, ast)
    ensures ParseText(text.value.s) == Some(ast) && Decides(ast, scope, dates)
  {
    hide ParseText, Supplies, Decides, CompileCondition;
    CompiledDecides(text.value.s, ctx, scope, dates);
  }

  /** At a node without warnings, a plainly tested human decision always finds a branch that fires. */
  lemma QuietDecisionsHandled(s: Scenario, id: Id, task: Id, value: string)
    requires id in s.nodes && NodeQuiet(s, id) && value in DECISIONS
    requires var whens := Whens(CompileNode(s, id).0.on);
             Tested(whens, HumanTasks(s).Keys, task) && !Muddled(whens, HumanTasks(s).Keys, task)
    ensures Answered(Whens(CompileNode(s, id).0.on), task, value)
  {
    hide CompileNode, Tested, Muddled, Answered, Warned, HumanTasks, WitnessIssues;
    UnwarnedAnswered(Whens(CompileNode(s, id).0.on), HumanTasks(s).Keys, task, value);
  }
}
