/** The scenario compiler (codegen/static-validation.ts `compileScenarioStatic`, `validateExpressions`). */
module ScenarioCompile {
  import opened IrelSyntax
  import opened Json
  import opened Graphs
  import opened Reachability
  import opened IrelTypes
  import opened IrelCompile
  import opened Scenarios
  import opened Tarjan
  import opened Decisions

  datatype CompiledBranch = CompiledBranch(when: Node, target: Option<Json>, priority: real)
  datatype CompiledLoop = CompiledLoop(until: Node, body: Id, exit: Id, maxIterations: real)
  datatype CompiledTier = CompiledTier(tier: string, entry: Id, advanceWhen: Option<Node>)

  datatype CompiledNode = CompiledNode(
    on: seq<CompiledBranch>,
    loop: Option<CompiledLoop>,
    fallback: seq<CompiledTier>,
    witnesses: seq<Node>)

  datatype Report = Report(errors: seq<Issue>, warnings: seq<Issue>)

  // ----- conditions of one node -----

  /** The typing context of a condition at node `id`. */
  function NodeContext(s: Scenario, id: Id, allowLoop: bool, priors: set<Id>): Context {
    Context(id, s.nodes.Keys, BuildGraph(s), s.params, priors, allowLoop, HumanTasks(s))
  }

  function DiagnosticIssues(diags: seq<Reason>, id: Id): (r: seq<Issue>)
    ensures |r| == |diags|
  {
    seq(|diags|, i requires 0 <= i < |diags| => Issue(if diags[i] == UnknownNodeField then 9 else 8, Some(id)))
  }

  function CompiledIssues(c: Compiled, id: Id): seq<Issue> {
    if c.Compiled? then [] else DiagnosticIssues(c.diags, id)
  }

  ghost function CompileBranches(on: seq<OnBranch>, id: Id, ctx: Context): (seq<CompiledBranch>, seq<Issue>)
    decreases |on|
  {
    if on == [] then ([], [])
    else
      var (before, issues) := CompileBranches(on[..|on| - 1], id, ctx);
      var b := on[|on| - 1];
      if !IsText(b.when) then (before, issues)
      else
        var c := CompileCondition(b.when.value.s, ctx);
        (if c.Compiled? && b.priority.Some? && b.priority.value.JNum?
         then before + [CompiledBranch(c.ast, b.target, b.priority.value.n)] else before,
         issues + CompiledIssues(c, id))
  }

  ghost function CompileLoop(l: Loop, id: Id, ctx: Context): (Option<CompiledLoop>, seq<Issue>) {
    if !IsText(l.until) then (None, [])
    else
      var c := CompileCondition(l.until.value.s, ctx);
      (if c.Compiled? && IsText(l.body) && IsText(l.exit) && l.maxIterations.Some? && l.maxIterations.value.JNum?
       then Some(CompiledLoop(c.ast, l.body.value.s, l.exit.value.s, l.maxIterations.value.n)) else None,
       CompiledIssues(c, id))
  }

  /** The entry nodes of the first tiers: they may be referred to by the tier's own condition. */
  function EntryNodes(chain: seq<Tier>): set<Id> {
    set t | t in chain && IsText(t.entry) :: t.entry.value.s
  }

  ghost function CompileTiers(s: Scenario, chain: seq<Tier>, id: Id): (seq<CompiledTier>, seq<Issue>)
    decreases |chain|
  {
    if chain == [] then ([], [])
    else
      var (before, issues) := CompileTiers(s, chain[..|chain| - 1], id);
      var t := chain[|chain| - 1];
      if !IsText(t.tier) || !IsText(t.entry) then (before, issues)
      else if !IsText(t.advanceWhen) then (before + [CompiledTier(t.tier.value.s, t.entry.value.s, None)], issues)
      else
        var c := CompileCondition(t.advanceWhen.value.s, NodeContext(s, id, false, EntryNodes(chain)));
        (before + [CompiledTier(t.tier.value.s, t.entry.value.s, if c.Compiled? then Some(c.ast) else None)],
         issues + CompiledIssues(c, id))
  }

  ghost function CompileWitnesses(criteria: seq<Criterion>, id: Id, ctx: Context): (seq<Node>, seq<Issue>)
    decreases |criteria|
  {
    if criteria == [] then ([], [])
    else
      var (before, issues) := CompileWitnesses(criteria[..|criteria| - 1], id, ctx);
      var x := criteria[|criteria| - 1];
      if !x.EmptyResultAllowed? then (before, issues)
      else
        var c := CompileCondition(x.condition, ctx);
        (if c.Compiled? then before + [c.ast] else before, issues + CompiledIssues(c, id))
  }

  ghost function CompileNode(s: Scenario, id: Id): (CompiledNode, seq<Issue>)
    requires id in s.nodes
  {
    var n := s.nodes[id];
    var ctx := NodeContext(s, id, false, {});
    var (on, i1) := CompileBranches(n.on, id, ctx);
    var (loop, i2) := if n.loop.Some? then CompileLoop(n.loop.value, id, NodeContext(s, id, true, {})) else (None, []);
    var (chain, i3) := CompileTiers(s, n.fallback, id);
    var (witnesses, i4) := CompileWitnesses(n.criteria, id, ctx);
    (CompiledNode(on, loop, chain, witnesses), i1 + i2 + i3 + i4)
  }

  method BranchesOf(on: seq<OnBranch>, id: Id, ctx: Context) returns (r: (seq<CompiledBranch>, seq<Issue>))
    requires ctx.graph.Valid()
    ensures r == CompileBranches(on, id, ctx)
  {
    hide CompileCondition;
    r := ([], []);
    assert on[..0] == [];
    for i := 0 to |on|
      invariant r == CompileBranches(on[..i], id, ctx)
    {
      assert on[..i + 1][..i] == on[..i];
      if IsText(on[i].when) {
        var c := Compile(on[i].when.value.s, ctx);
        var keep := c.Compiled? && on[i].priority.Some? && on[i].priority.value.JNum?;
        r := (if keep then r.0 + [CompiledBranch(c.ast, on[i].target, on[i].priority.value.n)] else r.0,
              r.1 + CompiledIssues(c, id));
      }
    }
    assert on[..|on|] == on;
  }

  method LoopOf(l: Loop, id: Id, ctx: Context) returns (r: (Option<CompiledLoop>, seq<Issue>))
    requires ctx.graph.Valid()
    ensures r == CompileLoop(l, id, ctx)
  {
    hide CompileCondition;
    if !IsText(l.until) { return (None, []); }
    var c := Compile(l.until.value.s, ctx);
    if c.Compiled? && IsText(l.body) && IsText(l.exit) && l.maxIterations.Some? && l.maxIterations.value.JNum? {
      return (Some(CompiledLoop(c.ast, l.body.value.s, l.exit.value.s, l.maxIterations.value.n)),
          CompiledIssues(c, id));
    }
    return (None, CompiledIssues(c, id));
  }

  method TiersOf(s: Scenario, chain: seq<Tier>, id: Id) returns (r: (seq<CompiledTier>, seq<Issue>))
    requires s.Valid()
    ensures r == CompileTiers(s, chain, id)
  {
    hide CompileCondition;
    r := ([], []);
    var priorTierNodes: set<Id> := {};
    assert chain[..0] == [];
    for i := 0 to |chain|
      invariant priorTierNodes == EntryNodes(chain[..i])
      invariant r == CompileTiers(s, chain[..i], id)
    {
      var t := chain[i];
      assert chain[..i + 1] == chain[..i] + [t];
      assert chain[..i + 1][..i] == chain[..i];
      if IsText(t.entry) { priorTierNodes := priorTierNodes + {t.entry.value.s}; }
      if IsText(t.tier) && IsText(t.entry) {
        if IsText(t.advanceWhen) {
          var c := Compile(t.advanceWhen.value.s, NodeContext(s, id, false, priorTierNodes));
          r := (r.0 + [CompiledTier(t.tier.value.s, t.entry.value.s, if c.Compiled? then Some(c.ast) else None)],
                r.1 + CompiledIssues(c, id));
        } else {
          r := (r.0 + [CompiledTier(t.tier.value.s, t.entry.value.s, None)], r.1);
        }
      }
    }
    assert chain[..|chain|] == chain;
  }

  method WitnessesOf(criteria: seq<Criterion>, id: Id, ctx: Context) returns (r: (seq<Node>, seq<Issue>))
    requires ctx.graph.Valid()
    ensures r == CompileWitnesses(criteria, id, ctx)
  {
    hide CompileCondition;
    r := ([], []);
    assert criteria[..0] == [];
    for i := 0 to |criteria|
      invariant r == CompileWitnesses(criteria[..i], id, ctx)
    {
      assert criteria[..i + 1][..i] == criteria[..i];
      if criteria[i].EmptyResultAllowed? {
        var c := Compile(criteria[i].condition, ctx);
        r := (if c.Compiled? then r.0 + [c.ast] else r.0, r.1 + CompiledIssues(c, id));
      }
    }
    assert criteria[..|criteria|] == criteria;
  }

  method ValidateExpressions(s: Scenario, id: Id) returns (r: (CompiledNode, seq<Issue>))
    requires s.Valid() && id in s.nodes
    ensures r == CompileNode(s, id)
  {
    hide CompileBranches, CompileLoop, CompileTiers, CompileWitnesses;
    var n := s.nodes[id];
    var ctx := NodeContext(s, id, false, {});
    var on := BranchesOf(n.on, id, ctx);
    var loop: (Option<CompiledLoop>, seq<Issue>) := (None, []);
    if n.loop.Some? {
      loop := LoopOf(n.loop.value, id, NodeContext(s, id, true, {}));
    }
    var chain := TiersOf(s, n.fallback, id);
    var witnesses := WitnessesOf(n.criteria, id, ctx);
    r := (CompiledNode(on.0, loop.0, chain.0, witnesses.0), on.1 + loop.1 + chain.1 + witnesses.1);
  }

  // ----- acceptance, stated without the algorithm -----

  ghost predicate NodeAccepted(s: Scenario, id: Id)
    requires id in s.nodes
  {
    var n := s.nodes[id];
    && Malformed !in TargetsOf(n) && (forall t :: ToNode(t) in TargetsOf(n) ==> t in s.nodes)
    && (forall i :: 0 <= i < |n.on| ==> !(n.on[i].target.Some? && n.on[i].target.value.JObj?))
    && NoRepeats(Priorities(n.on))
    && TiersRise(n.fallback, -1)
    && (ChainMutates(s, n.fallback) ==> forall i :: 0 <= i < |n.fallback| ==> Keyed(s, n.fallback[i]))
    && (forall i :: 0 <= i < |n.criteria| && n.criteria[i].ValueMatch? ==> ValuePathOk(n.criteria[i].path))
    && CompileNode(s, id).1 == []
    && (forall i :: 0 <= i < |n.what| ==> n.what[i].name != "file" && n.what[i].name != "shell")
    && LoopIssues(n, id) == []
  }

  /** The errors reported about the ways out of a node. */
  ghost predicate FlowReports(s: Scenario, id: Id, x: Issue)
    requires id in s.nodes
  {
    var n := s.nodes[id];
    || (x == Issue(1, Some(id))
        && (Malformed in TargetsOf(n) || exists t :: ToNode(t) in TargetsOf(n) && t !in s.nodes))
    || (x == Issue(1, Some(id)) && exists i :: 0 <= i < |n.on| && CallsHandler(n.on[i]))
    || (x == Issue(6, Some(id)) && !NoRepeats(Priorities(n.on)))
    || (x == Issue(11, Some(id)) && !TiersRise(n.fallback, -1))
    || (x == Issue(12, Some(id)) && ChainMutates(s, n.fallback)
        && exists i :: 0 <= i < |n.fallback| && !Keyed(s, n.fallback[i]))
  }

  /** The errors reported about its conditions, paths, actions and loop. */
  ghost predicate ContentReports(s: Scenario, id: Id, x: Issue)
    requires id in s.nodes
  {
    var n := s.nodes[id];
    || (x == Issue(10, Some(id)) && exists i :: 0 <= i < |n.criteria| && BadPath(n.criteria[i]))
    || x in CompileNode(s, id).1
    || (x == Issue(8, Some(id)) && exists i :: 0 <= i < |n.what| && Forbidden(n.what[i]))
    || x in LoopIssues(n, id)
  }

  /** All errors reported about a node, rule by rule. */
  ghost predicate NodeReports(s: Scenario, id: Id, x: Issue)
    requires id in s.nodes
  {
    FlowReports(s, id, x) || ContentReports(s, id, x)
  }

  /** The warnings about a node. */
  ghost predicate NodeWarns(s: Scenario, id: Id, x: Issue)
    requires id in s.nodes
  {
    || x in WitnessIssues(s.nodes[id], id)
    || (x == Issue(13, Some(id)) && exists task :: Warned(Whens(CompileNode(s, id).0.on), HumanTasks(s).Keys, task))
  }

  /** Some terminal node, or a node that can end without data, is reachable from the start. */
  ghost predicate TerminalReachable(s: Scenario) {
    exists id :: Reaches(BuildGraph(s), s.start, id) && Terminal(s, id)
  }

  predicate Terminal(s: Scenario, id: Id) {
    id in s.nodes && (s.nodes[id].terminal.Some? || ToEndNoData in TargetsOf(s.nodes[id]))
  }

  predicate ParamsUsable(s: Scenario) {
    s.params.Some? ==> CanBeObject(s.params.value)
  }

  ghost predicate Accepted(s: Scenario) {
    && s.start in s.nodes
    && ParamsUsable(s)
    && (forall id :: id in s.nodes ==> NodeAccepted(s, id))
    && TerminalReachable(s)
    && (forall id :: id in s.nodes ==> !Offending(BuildGraph(s), LoopNodes(s), id))
  }

  function Whens(on: seq<CompiledBranch>): seq<Node> {
    seq(|on|, i requires 0 <= i < |on| => on[i].when)
  }

  ghost predicate NodeQuiet(s: Scenario, id: Id)
    requires id in s.nodes
  {
    && WitnessIssues(s.nodes[id], id) == []
    && forall task :: !Warned(Whens(CompileNode(s, id).0.on), HumanTasks(s).Keys, task)
  }

  ghost predicate Quiet(s: Scenario) {
    && (forall id :: id in s.nodes ==> NodeQuiet(s, id))
    && (forall id :: id in s.nodes ==> Reaches(BuildGraph(s), s.start, id))
  }

  predicate Blank(c: CompiledNode) {
    c.on == [] && c.loop.None? && c.fallback == [] && c.witnesses == []
  }

  /** The compiled scenario: every node that has conditions or tiers. */
  ghost function CompiledNodes(s: Scenario): map<Id, CompiledNode> {
    map id | id in s.nodes && !Blank(CompileNode(s, id).0) :: CompileNode(s, id).0
  }

  lemma GraphValid(s: Scenario)
    requires s.Valid()
    ensures BuildGraph(s).Valid()
    ensures BuildGraph(s).succ.Keys == s.nodes.Keys
    ensures forall u, v :: Edge(BuildGraph(s), u, v) <==> u in s.nodes && ToNode(v) in TargetsOf(s.nodes[u])
  {
  }

  // ----- the validator -----

  lemma OnlyIssue(r: seq<Issue>, x: Issue)
    requires forall y :: y in r ==> y == x
    ensures forall y :: y in r <==> y == x && r != []
  {
    if r != [] { assert r[0] in r; }
  }

  /** A command without a signature is a shell action, which is refused anyway. */
  lemma UnsignedForbidden(what: seq<Action>, signed: Option<set<string>>, id: Id)
    ensures forall y :: y in CommandIssues(what, signed, id) ==> y in ActionIssues(what, id)
  {
    OnlyIssue(CommandIssues(what, signed, id), Issue(8, Some(id)));
    OnlyIssue(ActionIssues(what, id), Issue(8, Some(id)));
  }

  lemma FlowIssues(s: Scenario, id: Id, priorities: seq<Issue>)
    requires id in s.nodes && (priorities == [] <==> NoRepeats(Priorities(s.nodes[id].on)))
    requires forall x :: x in priorities ==> x == Issue(6, Some(id))
    ensures var n := s.nodes[id];
            forall x :: x in TargetIssues(TargetsOf(n), s.nodes.Keys, id) + HandlerBranchIssues(n.on, id) + priorities
                             + ChainIssues(n, id) + FallbackIssues(s, n, id)
              <==> FlowReports(s, id, x)
  {
    hide NoRepeats, TiersRise, ChainMutates, Keyed, TargetsOf, Priorities;
    var n := s.nodes[id];
    OnlyIssue(TargetIssues(TargetsOf(n), s.nodes.Keys, id), Issue(1, Some(id)));
    OnlyIssue(HandlerBranchIssues(n.on, id), Issue(1, Some(id)));
    OnlyIssue(priorities, Issue(6, Some(id)));
    OnlyIssue(FallbackIssues(s, n, id), Issue(12, Some(id)));
  }

  lemma ContentIssues(s: Scenario, id: Id, signed: Option<set<string>>)
    requires id in s.nodes
    ensures var n := s.nodes[id];
            forall x :: x in PathIssues(n.criteria, id) + CompileNode(s, id).1 + ActionIssues(n.what, id)
                             + CommandIssues(n.what, signed, id) + LoopIssues(n, id)
              <==> ContentReports(s, id, x)
  {
    hide CompileNode, LoopIssues, ValuePathOk;
    var n := s.nodes[id];
    OnlyIssue(PathIssues(n.criteria, id), Issue(10, Some(id)));
    OnlyIssue(ActionIssues(n.what, id), Issue(8, Some(id)));
    UnsignedForbidden(n.what, signed, id);
  }

  method ValidateNode(s: Scenario, signed: Option<set<string>>, id: Id)
    returns (errors: seq<Issue>, warnings: seq<Issue>, compiled: CompiledNode)
    requires s.Valid() && id in s.nodes
    ensures forall x :: x in errors <==> NodeReports(s, id, x)
    ensures forall x :: x in warnings <==> NodeWarns(s, id, x)
    ensures compiled == CompileNode(s, id).0
  {
    hide CompileNode, NoRepeats, Warned, WitnessIssues, TargetsOf, Priorities, LoopIssues, FlowReports, ContentReports,
        TiersRise;
    var n := s.nodes[id];
    var priorities := PriorityIssues(n.on, id);
    var expressions := ValidateExpressions(s, id);
    compiled := expressions.0;
    warnings := WitnessIssues(n, id);
    var warned := WarnedTasks(Whens(compiled.on), HumanTasks(s).Keys);
    var decisions := seq(|warned|, i => Issue(13, Some(id)));
    assert warned == [] <==> forall task :: !Warned(Whens(compiled.on), HumanTasks(s).Keys, task) by {
      if warned != [] { assert warned[0] in warned; }
    }
    OnlyIssue(decisions, Issue(13, Some(id)));
    warnings := warnings + decisions;
    errors := TargetIssues(TargetsOf(n), s.nodes.Keys, id) + HandlerBranchIssues(n.on, id) + priorities
              + ChainIssues(n, id) + FallbackIssues(s, n, id);
    errors := errors + (PathIssues(n.criteria, id) + expressions.1 + ActionIssues(n.what, id)
                        + CommandIssues(n.what, signed, id) + LoopIssues(n, id));
    FlowIssues(s, id, priorities);
    ContentIssues(s, id, signed);
  }

  lemma LoopRule(n: IRNode, id: Id)
    ensures forall x :: x in LoopIssues(n, id) ==> x == Issue(4, Some(id))
  {
  }

  /** A node is accepted exactly when nothing is reported about it, and quiet when there is no warning. */
  lemma NothingReported(s: Scenario, id: Id)
    requires id in s.nodes
    ensures NodeAccepted(s, id) <==> forall x :: !NodeReports(s, id, x)
    ensures NodeQuiet(s, id) <==> forall x :: !NodeWarns(s, id, x)
  {
    hide CompileNode, NoRepeats, TiersRise, ChainMutates, Keyed, Warned, WitnessIssues, TargetsOf, Priorities,
        LoopIssues;
    var n := s.nodes[id];
    LoopRule(n, id);
    OnlyIssue(LoopIssues(n, id), Issue(4, Some(id)));
    assert forall i :: 0 <= i < |n.on| ==>
        (CallsHandler(n.on[i]) <==> n.on[i].target.Some? && n.on[i].target.value.JObj?);
    if CompileNode(s, id).1 != [] { assert NodeReports(s, id, CompileNode(s, id).1[0]); }
    if x :| NodeReports(s, id, x) {
      assert !NodeAccepted(s, id);
    } else {
      assert forall k: nat :: !NodeReports(s, id, Issue(k, Some(id)));
    }
    if WitnessIssues(n, id) != [] { assert NodeWarns(s, id, WitnessIssues(n, id)[0]); }
    if !(forall task :: !Warned(Whens(CompileNode(s, id).0.on), HumanTasks(s).Keys, task)) {
      assert NodeWarns(s, id, Issue(13, Some(id)));
    }
  }

  /** The exit target of a loop is one of the loop node's edges, so this check never reports. */
  method LoopExitIssues(s: Scenario, g: Graph, reachable: set<Id>) returns (errors: seq<Issue>)
    requires s.Valid() && g == BuildGraph(s)
    ensures errors == []
  {
    hide Reaches;
    errors := [];
    for i := 0 to |s.order|
      invariant errors == []
    {
      var id := s.order[i];
      var n := s.nodes[id];
      if n.loop.Some? && id in reachable && IsText(n.loop.value.exit) {
        var exit := n.loop.value.exit.value.s;
        if exit in s.nodes {
          var fromLoop := ReachableFrom(id, g);
          ExitIsEdge(s, id, exit);
          var issue := Issue(4, Some(id));
          if exit !in fromLoop { errors := errors + [issue]; }
        }
      }
    }
  }

  lemma ExitIsEdge(s: Scenario, id: Id, exit: Id)
    requires s.Valid() && id in s.nodes && s.nodes[id].loop.Some?
    requires s.nodes[id].loop.value.exit == Some(JStr(exit))
    ensures Reaches(BuildGraph(s), id, exit)
  {
    GraphValid(s);
    var n := s.nodes[id];
    var ts := TargetsOf(n);
    assert ts[|ts| - 1] == ToNode(exit);
    ReachesEdge(BuildGraph(s), id, exit);
  }

  method HasReachableTerminal(s: Scenario, reachable: set<Id>) returns (found: bool)
    requires s.Valid()
    ensures found <==> exists id :: id in reachable && Terminal(s, id)
  {
    for i := 0 to |s.order|
      invariant forall k :: 0 <= k < i ==> !(s.order[k] in reachable && Terminal(s, s.order[k]))
    {
      if s.order[i] in reachable && Terminal(s, s.order[i]) { return true; }
    }
    assert forall id :: Terminal(s, id) ==> id in s.order;
    return false;
  }

  method UnreachableIssues(s: Scenario, reachable: set<Id>) returns (warnings: seq<Issue>)
    requires s.Valid()
    ensures forall x :: x in warnings <==> exists id :: id in s.nodes && id !in reachable && x == Issue(5, Some(id))
  {
    warnings := [];
    for i := 0 to |s.order|
      invariant forall x :: x in warnings <==>
                exists k :: 0 <= k < i && s.order[k] !in reachable && x == Issue(5, Some(s.order[k]))
    {
      if s.order[i] !in reachable { warnings := warnings + [Issue(5, Some(s.order[i]))]; }
    }
    assert forall id :: id in s.nodes <==> id in s.order;
  }

  /** One error per reported cycle member. */
  method CycleIssues(s: Scenario, illegal: set<Id>) returns (errors: seq<Issue>)
    requires s.Valid() && forall r :: r in illegal ==> r in s.nodes
    ensures forall x :: x in errors <==> exists id :: id in illegal && x == Issue(4, Some(id))
  {
    errors := [];
    for i := 0 to |s.order|
      invariant forall x :: x in errors <==>
                exists k :: 0 <= k < i && s.order[k] in illegal && x == Issue(4, Some(s.order[k]))
    {
      if s.order[i] in illegal { errors := errors + [Issue(4, Some(s.order[i]))]; }
    }
    assert forall id :: id in illegal ==> id in s.order;
  }

  method ValidateNodes(s: Scenario, signed: Option<set<string>>)
    returns (errors: seq<Issue>, warnings: seq<Issue>, compiled: map<Id, CompiledNode>)
    requires s.Valid()
    ensures forall x :: x in errors <==> exists id :: id in s.nodes && NodeReports(s, id, x)
    ensures forall x :: x in warnings <==> exists id :: id in s.nodes && NodeWarns(s, id, x)
    ensures compiled == CompiledNodes(s)
  {
    hide NodeReports, NodeWarns, CompileNode;
    errors, warnings, compiled := [], [], map[];
    for i := 0 to |s.order|
      invariant forall x :: x in errors <==> exists k :: 0 <= k < i && NodeReports(s, s.order[k], x)
      invariant forall x :: x in warnings <==> exists k :: 0 <= k < i && NodeWarns(s, s.order[k], x)
      invariant forall id :: id in compiled <==> id in s.order[..i] && id in s.nodes && !Blank(CompileNode(s, id).0)
      invariant forall id :: id in compiled ==> compiled[id] == CompileNode(s, id).0
    {
      var id := s.order[i];
      var e, w, c := ValidateNode(s, signed, id);
      errors, warnings := errors + e, warnings + w;
      if !Blank(c) { compiled := compiled[id := c]; }
      assert s.order[..i + 1] == s.order[..i] + [id];
    }
    assert s.order[..|s.order|] == s.order;
    assert forall id :: id in s.nodes <==> id in s.order;
  }

  // ----- the whole report -----

  /** The errors, cycles apart: about the scenario as a whole, or about a node. */
  ghost predicate Reported(s: Scenario, x: Issue) {
    || (x == Issue(2, None) && s.start !in s.nodes)
    || (x == Issue(8, None) && !ParamsUsable(s))
    || (x == Issue(3, None) && s.start in s.nodes && !TerminalReachable(s))
    || exists id :: id in s.nodes && NodeReports(s, id, x)
  }

  ghost predicate Cautioned(s: Scenario, x: Issue) {
    || (exists id :: id in s.nodes && NodeWarns(s, id, x))
    || (exists id :: id in s.nodes && !Reaches(BuildGraph(s), s.start, id) && x == Issue(5, Some(id)))
  }

  ghost predicate CycleMember(s: Scenario, x: Issue) {
    exists id :: id in s.nodes && Offending(BuildGraph(s), LoopNodes(s), id) && x == Issue(4, Some(id))
  }

  /** The errors are exact: every broken rule is reported under its number and about its node, nothing else is, and
      every component with a cycle but no loop node has a member that is. */
  ghost predicate ErrorsExact(s: Scenario, errors: seq<Issue>) {
    && (forall x :: Reported(s, x) ==> x in errors)
    && (forall x :: x in errors ==> Reported(s, x) || CycleMember(s, x))
    && (forall v :: v in s.nodes && Offending(BuildGraph(s), LoopNodes(s), v) ==>
          exists r :: Same(BuildGraph(s), r, v) && Issue(4, Some(r)) in errors)
  }

  /** So are the warnings. */
  ghost predicate Exact(s: Scenario, report: Report) {
    ErrorsExact(s, report.errors) && forall x :: x in report.warnings <==> Cautioned(s, x)
  }

  lemma ExactDecides(s: Scenario, report: Report)
    requires s.Valid() && Exact(s, report)
    ensures report.errors == [] <==> Accepted(s)
    ensures report.warnings == [] <==> Quiet(s)
  {
    hide NodeReports, NodeWarns, NodeAccepted, NodeQuiet, Reaches, Offending, BuildGraph, LoopNodes, Same, ParamsUsable,
        TerminalReachable;
    forall id | id in s.nodes
      ensures NodeAccepted(s, id) <==> forall x :: !NodeReports(s, id, x)
      ensures NodeQuiet(s, id) <==> forall x :: !NodeWarns(s, id, x)
    {
      NothingReported(s, id);
    }
    if report.errors == [] {
      assert !Reported(s, Issue(2, None)) && !Reported(s, Issue(8, None)) && !Reported(s, Issue(3, None));
      forall id, x | id in s.nodes
        ensures !NodeReports(s, id, x)
      {
        assert !Reported(s, x);
      }
    } else {
      assert report.errors[0] in report.errors;
    }
    if report.warnings == [] {
      forall id, x | id in s.nodes
        ensures !NodeWarns(s, id, x)
      {
        assert !Cautioned(s, x);
      }
      forall id | id in s.nodes
        ensures Reaches(BuildGraph(s), s.start, id)
      {
        assert !Cautioned(s, Issue(5, Some(id)));
      }
    } else {
      assert report.warnings[0] in report.warnings;
    }
  }

  lemma CyclesReported(s: Scenario, illegal: set<Id>, errors: seq<Issue>)
    requires forall r :: r in illegal ==> r in s.nodes && Offending(BuildGraph(s), LoopNodes(s), r)
    requires forall v :: v in s.nodes && Offending(BuildGraph(s), LoopNodes(s), v) ==>
               exists r :: r in illegal && Same(BuildGraph(s), r, v)
    requires forall x :: x in errors <==> Reported(s, x) || exists id :: id in illegal && x == Issue(4, Some(id))
    ensures ErrorsExact(s, errors)
  {
    hide Reported, Reaches, Offending, BuildGraph, Same, LoopNodes;
    forall x | x in errors && !Reported(s, x)
      ensures CycleMember(s, x)
    {
    }
    forall v | v in s.nodes && Offending(BuildGraph(s), LoopNodes(s), v)
      ensures exists r :: Same(BuildGraph(s), r, v) && Issue(4, Some(r)) in errors
    {
      var r :| r in illegal && Same(BuildGraph(s), r, v);
      assert Issue(4, Some(r)) in errors;
    }
  }

  /** The whole validator: it accepts exactly the scenarios the rules describe, warns exactly where they say,
      and returns the compiled conditions exactly when it accepts. The registry of signed commands cannot
      turn acceptance round: shell actions are refused with or without it. */
  method CompileScenarioStatic(s: Scenario, signed: Option<set<string>>)
    returns (report: Report, compiled: Option<map<Id, CompiledNode>>)
    requires s.Valid()
    ensures Exact(s, report)
    ensures report.errors == [] <==> Accepted(s)
    ensures report.warnings == [] <==> Quiet(s)
    ensures compiled.Some? <==> report.errors == []
    ensures compiled.Some? ==> compiled.value == CompiledNodes(s)
  {
    hide NodeReports, NodeWarns, CompileNode, Reaches, Offending, Terminal, BuildGraph, CompiledNodes, Same,
        CyclesHaveLoops, LoopNodes, TargetsOf, ParamsUsable, Accepted, Quiet;
    GraphValid(s);
    var g := BuildGraph(s);
    var errors := if s.start in s.nodes then [] else [Issue(2, None)];
    errors := errors + if ParamsUsable(s) then [] else [Issue(8, None)];
    var nodeErrors, nodeWarnings, nodes := ValidateNodes(s, signed);
    var reachable := ReachableFrom(s.start, g);
    var exits := LoopExitIssues(s, g, reachable);
    var terminal := HasReachableTerminal(s, reachable);
    var unreachable := UnreachableIssues(s, reachable);
    var illegal := FindIllegalCycles(g, LoopNodes(s));
    var cycles := CycleIssues(s, illegal);
    errors := errors + nodeErrors + exits + (if s.start in s.nodes && !terminal then [Issue(3, None)] else []) + cycles;
    report := Report(errors, nodeWarnings + unreachable);
    compiled := if errors == [] then Some(nodes) else None;
    assert terminal <==> TerminalReachable(s);
    CyclesReported(s, illegal, errors);
    ExactDecides(s, report);
  }
}
