/** The rules of the validator in the terms of the documents, field by field: what must hold of a scenario for each
    rule to be silent, against the checks that report it. */
module ScenarioRules {
  import opened IrelSyntax
  import opened Json
  import opened Graphs
  import opened IrelTypes
  import opened IrelCompile
  import opened Scenarios
  import opened ScenarioCompile
  import opened ScenarioMoves
  import opened IrelSoundness
  import opened Decisions

  // ----- rule 11: tiers -----

  /** The tiers from the given one on. */
  function TiersFrom(k: nat): seq<string>
    requires k <= 4
  {
    ["T0", "T1", "T2", "T3"][k..]
  }

  /** The tier names of a chain, in order. */
  function TierNames(chain: seq<Tier>): seq<string> {
    if chain == [] then []
    else (match chain[0].tier case Some(JStr(name)) => [name] case _ => []) + TierNames(chain[1..])
  }

  /** `a` is what is left of `b` when some of it is struck out. */
  predicate Subsequence(a: seq<string>, b: seq<string>)
    decreases |b|
  {
    a == [] || (b != [] && if a[0] == b[0] then Subsequence(a[1..], b[1..]) else Subsequence(a, b[1..]))
  }

  lemma TiersAt(name: string, k: nat)
    requires k < 4
    ensures var ts := TiersFrom(k); ts != [] && ts[1..] == TiersFrom(k + 1) && (ts[0] == name <==> TierRank(name) == k)
  {
  }

  lemma {:induction false} NextTier(name: string, rest: seq<string>, k: nat)
    requires k <= 4
    ensures Subsequence([name] + rest, TiersFrom(k)) <==>
            k <= TierRank(name) < 4 && Subsequence(rest, TiersFrom(TierRank(name) + 1))
    decreases 4 - k
  {
    hide TiersFrom, TierRank;
    assert ([name] + rest)[1..] == rest;
    if k < 4 {
      TiersAt(name, k);
      NextTier(name, rest, k + 1);
    } else {
      NoTier();
    }
  }

  lemma NoTier()
    ensures TiersFrom(4) == []
  {
  }

  lemma {:induction false} RiseFrom(chain: seq<Tier>, above: int)
    requires -1 <= above <= 3
    ensures TiersRise(chain, above) <==> Subsequence(TierNames(chain), TiersFrom(above + 1))
    decreases |chain|
  {
    hide Subsequence, TierRank, TiersFrom;
    if chain == [] {
      NothingLeft(TiersFrom(above + 1));
    } else {
      match chain[0].tier
      case Some(JStr(name)) =>
        NextTier(name, TierNames(chain[1..]), above + 1);
        RankBound(name);
        if TierRank(name) > above { RiseFrom(chain[1..], TierRank(name)); }
      case _ =>
        assert [] + TierNames(chain[1..]) == TierNames(chain[1..]);
        RiseFrom(chain[1..], above);
    }
  }

  lemma NothingLeft(b: seq<string>)
    ensures Subsequence([], b)
  {
  }

  lemma RankBound(name: string)
    ensures -1 <= TierRank(name) <= 3
  {
  }

  /** A chain is accepted exactly when its tier names are taken from T0, T1, T2, T3 in that order, each at most once. */
  lemma TiersIff(chain: seq<Tier>)
    ensures TiersRise(chain, -1) <==> Subsequence(TierNames(chain), ["T0", "T1", "T2", "T3"])
  {
    hide Subsequence, TiersRise, TierNames;
    RiseFrom(chain, -1);
    assert TiersFrom(0) == ["T0", "T1", "T2", "T3"];
  }

  // ----- rule 4: loops -----

  /** A whole number of rounds. */
  predicate Rounds(v: Option<Json>, k: int) { 1 <= k <= 10000 && v == Some(JNum(k as real)) }

  /** A loop names its body and its exit and bounds its rounds by a whole number from 1 to 10000. */
  lemma LoopIff(n: IRNode, id: Id)
    ensures LoopIssues(n, id) == [] <==>
            n.loop.Some? ==>
              && (exists body :: n.loop.value.body == Some(JStr(body)))
              && (exists exit :: n.loop.value.exit == Some(JStr(exit)))
              && (exists k :: Rounds(n.loop.value.maxIterations, k))
  {
    if n.loop.Some? {
      var l := n.loop.value;
      if IsText(l.body) { assert l.body == Some(JStr(l.body.value.s)); }
      if IsText(l.exit) { assert l.exit == Some(JStr(l.exit.value.s)); }
      if IsIterationCount(l.maxIterations) {
        assert Rounds(l.maxIterations, l.maxIterations.value.n.Floor);
      }
    }
  }

  // ----- rule 7: empty results -----

  /** A node that can end without data, or ends with an empty success, says when an empty result is allowed. */
  lemma WitnessIff(n: IRNode, id: Id)
    ensures WitnessIssues(n, id) == [] <==>
            CanEnd(n) || n.terminal == Some("success_empty") ==>
              exists condition :: EmptyResultAllowed(condition) in n.criteria
  {
    hide TargetsOf, CanEnd;
    TargetsEnd(n);
    if HasWitness(n) {
      var i :| 0 <= i < |n.criteria| && n.criteria[i].EmptyResultAllowed?;
      assert EmptyResultAllowed(n.criteria[i].condition) in n.criteria;
    }
  }

  // ----- rule 12: fallback tiers that change something -----

  /** A named tier enters the chain at this node. */
  predicate Enters(n: IRNode, e: Id) {
    exists i :: 0 <= i < |n.fallback| && IsText(n.fallback[i].tier) && n.fallback[i].entry == Some(JStr(e))
  }

  predicate Writes(s: Scenario, e: Id) {
    e in s.nodes && s.nodes[e].sideEffect.Some? && s.nodes[e].sideEffect.value.kind != "read_only"
  }

  predicate Repeatable(s: Scenario, e: Id) {
    e in s.nodes && s.nodes[e].sideEffect.Some? && s.nodes[e].sideEffect.value.key.Some?
    && |s.nodes[e].sideEffect.value.key.value| > 0
  }

  /** Once one tier's entry changes something, every tier's entry needs an idempotency key. */
  lemma FallbackIff(s: Scenario, n: IRNode, id: Id)
    ensures FallbackIssues(s, n, id) == [] <==>
            ((exists e :: Enters(n, e) && Writes(s, e)) ==> forall e :: Enters(n, e) ==> Repeatable(s, e))
  {
    hide Enters;
    forall i | 0 <= i < |n.fallback| && IsEntry(n.fallback[i])
      ensures Enters(n, n.fallback[i].entry.value.s)
    {
      EntersAt(n, i);
    }
    forall e | Enters(n, e)
      ensures exists i :: 0 <= i < |n.fallback| && IsEntry(n.fallback[i]) && n.fallback[i].entry.value.s == e
    {
      EnteredAt(n, e);
    }
    if ChainMutates(s, n.fallback) {
      var i :| 0 <= i < |n.fallback| && Mutates(s, n.fallback[i]);
      assert Writes(s, n.fallback[i].entry.value.s);
    }
  }

  lemma EntersAt(n: IRNode, i: nat)
    requires i < |n.fallback| && IsEntry(n.fallback[i])
    ensures Enters(n, n.fallback[i].entry.value.s)
  {
  }

  lemma EnteredAt(n: IRNode, e: Id)
    requires Enters(n, e)
    ensures exists i :: 0 <= i < |n.fallback| && IsEntry(n.fallback[i]) && n.fallback[i].entry.value.s == e
  {
  }

  // ----- rule 10: value paths -----

  predicate Identifier(s: string) {
    s != "" && IsIdentStart(s[0]) && forall i :: 0 <= i < |s| ==> IsIdentPart(s[i])
  }

  function Dotted(parts: seq<string>): string
    requires parts != []
  {
    if |parts| == 1 then parts[0] else parts[0] + "." + Dotted(parts[1..])
  }

  ghost predicate Spells(parts: seq<string>, s: string) {
    parts != [] && (forall i :: 0 <= i < |parts| ==> Identifier(parts[i])) && s == Dotted(parts)
  }

  lemma {:induction false} DottedParts(parts: seq<string>)
    requires parts != [] && Spells(parts, Dotted(parts))
    ensures var s := Dotted(parts); IsDotPath(s) && s[..DotIndex(s)] == parts[0]
    decreases |parts|
  {
    var s := Dotted(parts);
    var k := |parts[0]|;
    assert s[..k] == parts[0];
    assert forall i :: 0 <= i < k ==> s[i] == parts[0][i] && s[i] != '.';
    if |parts| == 1 {
      assert DotIndex(s) == k;
    } else {
      assert s[k] == '.' && s[k + 1..] == Dotted(parts[1..]);
      assert DotIndex(s) == k;
      DottedParts(parts[1..]);
    }
  }

  lemma {:induction false} PathParts(s: string) returns (parts: seq<string>)
    requires IsDotPath(s)
    ensures Spells(parts, s) && parts[0] == s[..DotIndex(s)]
    decreases |s|
  {
    var k := DotIndex(s);
    if k < |s| {
      var rest := PathParts(s[k + 1..]);
      parts := [s[..k]] + rest;
      assert parts[1..] == rest;
      assert s == s[..k] + "." + s[k + 1..];
    } else {
      parts := [s];
      assert s[..k] == s;
    }
  }

  /** A value path is a dotted list of identifiers that starts with `extracted` or `node`. */
  lemma ValuePathIff(s: string)
    ensures ValuePathOk(s) <==>
            exists parts :: Spells(parts, s) && (parts[0] == "extracted" || parts[0] == "node")
  {
    hide Spells, IsDotPath;
    if IsDotPath(s) {
      var parts := PathParts(s);
    }
    forall parts | Spells(parts, s)
      ensures IsDotPath(s) && parts != [] && parts[0] == s[..DotIndex(s)]
    {
      SpelledPath(parts, s);
    }
  }

  lemma SpelledPath(parts: seq<string>, s: string)
    requires Spells(parts, s)
    ensures IsDotPath(s) && parts != [] && parts[0] == s[..DotIndex(s)]
  {
    DottedParts(parts);
  }

  // ----- rule 6: priorities -----

  lemma {:induction false} PriorityIn(on: seq<OnBranch>, p: real)
    ensures p in Priorities(on) <==> exists j :: 0 <= j < |on| && on[j].priority == Some(JNum(p))
    decreases |on|
  {
    if on != [] {
      PriorityIn(on[1..], p);
      if j :| 0 <= j < |on| && on[j].priority == Some(JNum(p)) {
        if j > 0 { assert on[1..][j - 1].priority == Some(JNum(p)); }
      }
      if j :| 0 <= j < |on[1..]| && on[1..][j].priority == Some(JNum(p)) { assert on[j + 1].priority == Some(JNum(p)); }
    }
  }

  predicate Clash(on: seq<OnBranch>, i: nat, j: nat) {
    i < j < |on| && on[i].priority.Some? && on[i].priority.value.JNum? && on[i].priority == on[j].priority
  }

  lemma NoRepeatsCons(x: real, xs: seq<real>)
    ensures NoRepeats([x] + xs) <==> x !in xs && NoRepeats(xs)
  {
    var ys := [x] + xs;
    assert forall i :: 0 <= i < |xs| ==> ys[i + 1] == xs[i];
    if NoRepeats(ys) {
      forall j | 0 <= j < |xs|
        ensures x != xs[j] && forall i :: 0 <= i < j ==> xs[i] != xs[j]
      {
        assert ys[j + 1] == xs[j] && ys[0] == x;
      }
    }
  }

  /** Priorities do not repeat exactly when no two branches carry the same number. */
  lemma {:induction false} PrioritiesIff(on: seq<OnBranch>)
    ensures NoRepeats(Priorities(on)) <==> forall i: nat, j: nat :: !Clash(on, i, j)
    decreases |on|
  {
    hide NoRepeats;
    if on == [] {
      assert NoRepeats<real>([]) by { Empty(); }
    } else {
      PrioritiesIff(on[1..]);
      forall i: nat, j: nat
        ensures Clash(on[1..], i, j) <==> Clash(on, i + 1, j + 1)
      {
      }
      if on[0].priority.Some? && on[0].priority.value.JNum? {
        var p := on[0].priority.value.n;
        NoRepeatsCons(p, Priorities(on[1..]));
        PriorityIn(on[1..], p);
        if j :| 0 <= j < |on[1..]| && on[1..][j].priority == Some(JNum(p)) { assert Clash(on, 0, j + 1); }
        if j: nat :| Clash(on, 0, j) { assert on[1..][j - 1].priority == Some(JNum(p)); }
      } else {
        assert [] + Priorities(on[1..]) == Priorities(on[1..]);
      }
      if i: nat, j: nat :| Clash(on, i, j) && i > 0 { assert Clash(on[1..], i - 1, j - 1); }
      if i: nat, j: nat :| Clash(on[1..], i, j) { assert Clash(on, i + 1, j + 1); }
    }
  }

  lemma Empty()
    ensures NoRepeats<real>([])
  {
  }

  // ----- rules 8 and 9: conditions -----

  /** The node has this condition, to be read in this context: of a branch, of its loop, of a tier, which may refer to
      the entry nodes up to its own, or of an empty result. */
  ghost predicate HasCondition(s: Scenario, id: Id, text: string, ctx: Context)
    requires id in s.nodes
  {
    var n := s.nodes[id];
    || (ctx == NodeContext(s, id, false, {}) && exists i :: 0 <= i < |n.on| && n.on[i].when == Some(JStr(text)))
    || (ctx == NodeContext(s, id, true, {}) && n.loop.Some? && n.loop.value.until == Some(JStr(text)))
    || (exists i :: TierCondition(s, id, n.fallback, i, text, ctx))
    || (ctx == NodeContext(s, id, false, {}) && EmptyResultAllowed(text) in n.criteria)
  }

  ghost predicate TierCondition(s: Scenario, id: Id, chain: seq<Tier>, i: int, text: string, ctx: Context) {
    && 0 <= i < |chain| && IsText(chain[i].tier) && IsText(chain[i].entry) && chain[i].advanceWhen == Some(JStr(text))
    && ctx == NodeContext(s, id, false, EntryNodes(chain[..i + 1]))
  }

  /** The condition does not compile, for such a reason: rule 9 is for unknown node fields, rule 8 for the rest. */
  ghost predicate Complains(text: string, ctx: Context, id: Id, x: Issue) {
    var c := CompileCondition(text, ctx);
    && c.Refused? && x.node == Some(id)
    && (|| (x.rule == 9 && UnknownNodeField in c.diags)
        || (x.rule == 8 && exists r :: r in c.diags && r != UnknownNodeField))
  }

  lemma ComplaintIssues(text: string, ctx: Context, id: Id, x: Issue)
    ensures x in CompiledIssues(CompileCondition(text, ctx), id) <==> Complains(text, ctx, id, x)
  {
    hide CompileCondition;
    var c := CompileCondition(text, ctx);
    if c.Refused? {
      var r := DiagnosticIssues(c.diags, id);
      if x in r {
        var i :| 0 <= i < |r| && r[i] == x;
        assert c.diags[i] in c.diags;
      }
      if k :| 0 <= k < |c.diags| && c.diags[k] == UnknownNodeField { assert r[k] == Issue(9, Some(id)); }
      if k :| 0 <= k < |c.diags| && c.diags[k] != UnknownNodeField { assert r[k] == Issue(8, Some(id)); }
    }
  }

  lemma {:induction false} BranchIssues(on: seq<OnBranch>, id: Id, ctx: Context, x: Issue)
    ensures x in CompileBranches(on, id, ctx).1 <==>
            exists text :: (exists i :: 0 <= i < |on| && on[i].when == Some(JStr(text))) && Complains(text, ctx, id, x)
    decreases |on|
  {
    hide CompileCondition, CompiledIssues, Complains;
    if on != [] {
      var init, b := on[..|on| - 1], on[|on| - 1];
      BranchIssues(init, id, ctx, x);
      forall text
        ensures (exists i :: 0 <= i < |on| && on[i].when == Some(JStr(text))) <==>
                (exists i :: 0 <= i < |init| && init[i].when == Some(JStr(text))) || b.when == Some(JStr(text))
      {
        if i :| 0 <= i < |init| && init[i].when == Some(JStr(text)) { assert on[i].when == Some(JStr(text)); }
        if b.when == Some(JStr(text)) { assert on[|on| - 1].when == Some(JStr(text)); }
      }
      if IsText(b.when) {
        ComplaintIssues(b.when.value.s, ctx, id, x);
      }
    }
  }

  lemma {:induction false} WitnessConditionIssues(criteria: seq<Criterion>, id: Id, ctx: Context, x: Issue)
    ensures x in CompileWitnesses(criteria, id, ctx).1 <==>
            exists text :: EmptyResultAllowed(text) in criteria && Complains(text, ctx, id, x)
    decreases |criteria|
  {
    hide CompileCondition, CompiledIssues, Complains;
    if criteria != [] {
      var init, c := criteria[..|criteria| - 1], criteria[|criteria| - 1];
      assert criteria == init + [c];
      WitnessConditionIssues(init, id, ctx, x);
      if c.EmptyResultAllowed? {
        ComplaintIssues(c.condition, ctx, id, x);
      }
    }
  }

  lemma {:induction false} TierIssues(s: Scenario, chain: seq<Tier>, id: Id, x: Issue)
    ensures x in CompileTiers(s, chain, id).1 <==>
            exists i, text, ctx :: TierCondition(s, id, chain, i, text, ctx) && Complains(text, ctx, id, x)
    decreases |chain|
  {
    hide CompileCondition, CompiledIssues, Complains, NodeContext, TierCondition;
    if chain == [] {
      forall i, text, ctx
        ensures !TierCondition(s, id, chain, i, text, ctx)
      {
        TierAt(s, id, chain, i, text, ctx);
      }
    } else {
      var init, t := chain[..|chain| - 1], chain[|chain| - 1];
      TierIssues(s, init, id, x);
      forall i, text, ctx
        ensures TierCondition(s, id, chain, i, text, ctx) <==>
                if i == |init| then LastCondition(s, id, chain, text, ctx) else TierCondition(s, id, init, i, text, ctx)
      {
        TierSnoc(s, id, chain, i, text, ctx);
      }
      if IsText(t.tier) && IsText(t.entry) && IsText(t.advanceWhen) {
        var text, ctx := t.advanceWhen.value.s, NodeContext(s, id, false, EntryNodes(chain));
        ComplaintIssues(text, ctx, id, x);
        assert TierCondition(s, id, chain, |init|, text, ctx);
      }
      if i, text, ctx :| TierCondition(s, id, init, i, text, ctx) && Complains(text, ctx, id, x) {
        TierAt(s, id, init, i, text, ctx);
        assert TierCondition(s, id, chain, i, text, ctx);
      }
    }
  }

  lemma TierAt(s: Scenario, id: Id, chain: seq<Tier>, i: int, text: string, ctx: Context)
    ensures TierCondition(s, id, chain, i, text, ctx) ==> 0 <= i < |chain|
  {
  }

  ghost predicate LastCondition(s: Scenario, id: Id, chain: seq<Tier>, text: string, ctx: Context)
    requires chain != []
  {
    var t := chain[|chain| - 1];
    && IsText(t.tier) && IsText(t.entry) && t.advanceWhen == Some(JStr(text))
    && ctx == NodeContext(s, id, false, EntryNodes(chain))
  }

  lemma TierSnoc(s: Scenario, id: Id, chain: seq<Tier>, i: int, text: string, ctx: Context)
    requires chain != []
    ensures TierCondition(s, id, chain, i, text, ctx) <==>
            if i == |chain| - 1 then LastCondition(s, id, chain, text, ctx)
            else TierCondition(s, id, chain[..|chain| - 1], i, text, ctx)
  {
    hide NodeContext, EntryNodes;
    if i == |chain| - 1 {
      assert chain[..i + 1] == chain;
    } else if 0 <= i < |chain| - 1 {
      assert chain[..|chain| - 1][..i + 1] == chain[..i + 1];
    }
  }

  /** A node is reported for its conditions exactly when one of them does not compile for such a reason. */
  lemma ConditionsIff(s: Scenario, id: Id, x: Issue)
    requires id in s.nodes
    ensures x in CompileNode(s, id).1 <==>
            exists text, ctx :: HasCondition(s, id, text, ctx) && Complains(text, ctx, id, x)
  {
    hide CompileCondition, CompiledIssues, Complains, NodeContext, TierCondition, CompileBranches, CompileTiers,
        CompileWitnesses;
    var n := s.nodes[id];
    var plain, inner := NodeContext(s, id, false, {}), NodeContext(s, id, true, {});
    BranchIssues(n.on, id, plain, x);
    TierIssues(s, n.fallback, id, x);
    WitnessConditionIssues(n.criteria, id, plain, x);
    if n.loop.Some? && IsText(n.loop.value.until) {
      ComplaintIssues(n.loop.value.until.value.s, inner, id, x);
    }
    if x in CompileNode(s, id).1 {
      if x in CompileBranches(n.on, id, plain).1 {
        var text :| (exists i :: 0 <= i < |n.on| && n.on[i].when == Some(JStr(text))) && Complains(text, plain, id, x);
        assert HasCondition(s, id, text, plain);
      } else if x in CompileTiers(s, n.fallback, id).1 {
        var i, text, ctx :| TierCondition(s, id, n.fallback, i, text, ctx) && Complains(text, ctx, id, x);
        assert HasCondition(s, id, text, ctx);
      } else if x in CompileWitnesses(n.criteria, id, plain).1 {
        var text :| EmptyResultAllowed(text) in n.criteria && Complains(text, plain, id, x);
        assert HasCondition(s, id, text, plain);
      } else {
        assert HasCondition(s, id, n.loop.value.until.value.s, inner);
      }
    }
  }

  // ----- rule 13: decisions -----

  /** All four decisions must be covered. */
  lemma CompleteIff(whens: seq<Node>, tasks: set<Id>, task: Id)
    ensures Complete(whens, tasks, task) <==>
            && Covers(whens, tasks, task, "approve") && Covers(whens, tasks, task, "reject")
            && Covers(whens, tasks, task, "correct") && Covers(whens, tasks, task, "retry")
  {
    hide Covers;
    assert DECISIONS[0] == "approve" && DECISIONS[1] == "reject";
    assert DECISIONS[2] == "correct" && DECISIONS[3] == "retry";
  }

  /** The tasks whose decisions a condition refers to are exactly those whose decision variable it mentions anywhere. */
  lemma {:induction false} DecisionRefsIff(n: Node, tasks: set<Id>, task: Id)
    ensures task in DecisionRefs(n, tasks) <==> task in tasks && Mentions(n, ["node", task, "decision"])
    decreases n, 1
  {
    hide DecisionVariable;
    VariableIff(n, tasks, task);
    match n
    case Unary(e, _) => DecisionRefsIff(e, tasks, task);
    case Binary(_, l, r, _) => DecisionRefsIff(l, tasks, task); DecisionRefsIff(r, tasks, task);
    case Compare(_, l, r, _) => DecisionRefsIff(l, tasks, task); DecisionRefsIff(r, tasks, task);
    case Logical(_, l, r, _) => DecisionRefsIff(l, tasks, task); DecisionRefsIff(r, tasks, task);
    case Call(_, args, _) => DecisionRefsAllIff(args, tasks, task);
    case _ =>
  }

  lemma VariableIff(n: Node, tasks: set<Id>, task: Id)
    ensures DecisionVariable(n, tasks) == Some(task) <==>
            n.Variable? && n.path == ["node", task, "decision"] && task in tasks
    ensures !n.Variable? ==> DecisionVariable(n, tasks).None?
  {
  }

  lemma {:induction false} DecisionRefsAllIff(args: seq<Node>, tasks: set<Id>, task: Id)
    ensures task in DecisionRefsAll(args, tasks) <==>
            task in tasks && exists i :: 0 <= i < |args| && Mentions(args[i], ["node", task, "decision"])
    decreases args, 0
  {
    var path := ["node", task, "decision"];
    if args != [] {
      DecisionRefsIff(args[0], tasks, task);
      DecisionRefsAllIff(args[1..], tasks, task);
      if i :| 0 <= i < |args| && Mentions(args[i], path) && i > 0 { assert Mentions(args[1..][i - 1], path); }
      if i :| 0 <= i < |args[1..]| && Mentions(args[1..][i], path) { assert Mentions(args[i + 1], path); }
    }
  }

  // ----- human tasks and their forms -----

  /** A node declares a human task exactly when it goes on by calling that handler. */
  lemma HumanTaskIff(s: Scenario, id: Id)
    ensures id in HumanTasks(s) <==>
            && id in s.nodes && s.nodes[id].next.Some? && s.nodes[id].next.value.JObj?
            && "handler" in s.nodes[id].next.value.fields
            && s.nodes[id].next.value.fields["handler"] == JStr("@human_task")
  {
  }

  /** A form field of a supported kind under this key, for values of this type. */
  predicate FormField(j: Json, key: string, t: Type) {
    && j.JObj? && "key" in j.fields && "type" in j.fields && j.fields["key"] == JStr(key)
    && match j.fields["type"]
       case JStr(kind) =>
         || (t == {StringT} && (kind == "text" || kind == "textarea" || kind == "date" || kind == "select"))
         || (t == {NumberT} && kind == "number")
         || (t == {BooleanT} && kind == "boolean")
       case _ => false
  }

  /** Field `i` is the last supported one under its key. */
  ghost predicate LastField(fields: seq<Json>, i: nat, key: string, t: Type) {
    && i < |fields| && FormField(fields[i], key, t)
    && forall j, u :: i < j < |fields| ==> !FormField(fields[j], key, u)
  }

  lemma FieldTypes(j: Json, key: string, t: Type)
    ensures FormField(j, key, t) <==>
            && j.JObj? && Field(j.fields, "key") == Some(JStr(key))
            && match Field(j.fields, "type") case Some(JStr(kind)) => FormFieldType(kind) == Some(t) case _ => false
  {
  }

  lemma FieldRead(fields: seq<Json>, key: string)
    requires fields != []
    ensures var j, before := fields[|fields| - 1], FormFields(fields[..|fields| - 1]);
            if exists t :: FormField(j, key, t) then
              key in FormFields(fields) && FormField(j, key, FormFields(fields)[key])
            else
              && (key in FormFields(fields) <==> key in before)
              && (key in before ==> FormFields(fields)[key] == before[key])
  {
    hide FormField, FormFieldType;
    var j := fields[|fields| - 1];
    forall t
      ensures FormField(j, key, t) <==>
              && j.JObj? && Field(j.fields, "key") == Some(JStr(key))
              && match Field(j.fields, "type") case Some(JStr(kind)) => FormFieldType(kind) == Some(t) case _ => false
    {
      FieldTypes(j, key, t);
    }
  }

  lemma {:induction false} FormFieldsIff(fields: seq<Json>, key: string, t: Type)
    ensures key in FormFields(fields) && FormFields(fields)[key] == t <==> exists i: nat :: LastField(fields, i, key, t)
    decreases |fields|
  {
    hide FormFields, FormField;
    if fields == [] {
      NoFields();
    } else {
      var init, j := fields[..|fields| - 1], fields[|fields| - 1];
      FormFieldsIff(init, key, t);
      FieldRead(fields, key);
      if u :| FormField(j, key, u) {
        OneType(j, key, u, FormFields(fields)[key]);
        if t == u { assert LastField(fields, |init|, key, t); }
        if i: nat :| LastField(fields, i, key, t) {
          assert i == |init|;
          OneType(j, key, u, t);
        }
      } else {
        if i: nat :| LastField(init, i, key, t) {
          assert LastField(fields, i, key, t);
        }
        if i: nat :| LastField(fields, i, key, t) {
          assert LastField(init, i, key, t);
        }
      }
    }
  }

  lemma OneType(j: Json, key: string, t: Type, u: Type)
    requires FormField(j, key, t) && FormField(j, key, u)
    ensures t == u
  {
  }

  lemma NoFields()
    ensures FormFields([]) == map[]
  {
  }

  /** The form a handler call declares for its result. */
  predicate DeclaresForm(call: map<string, Json>, fields: seq<Json>) {
    && "input" in call && call["input"].JObj?
    && "result_schema" in call["input"].fields && call["input"].fields["result_schema"].JObj?
    && var schema := call["input"].fields["result_schema"].fields;
       "version" in schema && schema["version"] == JStr("business_form_v1")
       && "fields" in schema && schema["fields"] == JArr(fields)
  }

  /** The corrections a condition may refer to, and their types, are those of the last supported fields of the form. */
  lemma CorrectionsIff(call: map<string, Json>, key: string, t: Type)
    ensures key in CorrectionFields(call) && CorrectionFields(call)[key] == t <==>
            exists fields, i: nat :: DeclaresForm(call, fields) && LastField(fields, i, key, t)
  {
    hide FormFields, LastField;
    forall fields | DeclaresForm(call, fields)
      ensures CorrectionFields(call) == FormFields(fields)
      ensures key in FormFields(fields) && FormFields(fields)[key] == t <==>
              exists i: nat :: LastField(fields, i, key, t)
    {
      FormFieldsIff(fields, key, t);
    }
    if key in CorrectionFields(call) {
      var fields := call["input"].fields["result_schema"].fields["fields"].items;
      assert DeclaresForm(call, fields);
    }
  }
}
