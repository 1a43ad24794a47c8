/** Scenarios and their static validation (codegen/static-validation.ts).
    Fields the source types `unknown` are optional JSON values. */
module Scenarios {
  import opened IrelSyntax
  import opened Json
  import opened Graphs
  import opened IrelTypes

  datatype OnBranch = OnBranch(when: Option<Json>, target: Option<Json>, priority: Option<Json>)
  datatype Loop = Loop(body: Option<Json>, exit: Option<Json>, until: Option<Json>, maxIterations: Option<Json>)
  datatype Tier = Tier(tier: Option<Json>, entry: Option<Json>, advanceWhen: Option<Json>)
  datatype Criterion = ValueMatch(path: string) | EmptyResultAllowed(condition: string) | OtherCriterion
  datatype SideEffect = SideEffect(kind: string, key: Option<string>)

  /** An action: its name, its signed command if it is a shell action, and its other fields. */
  datatype Action = Action(name: string, cmdRef: string, fields: map<string, Json>)

  datatype IRNode = IRNode(
    next: Option<Json>,
    on: seq<OnBranch>,
    loop: Option<Loop>,
    fallback: seq<Tier>,
    terminal: Option<string>,
    criteria: seq<Criterion>,
    what: seq<Action>,
    sideEffect: Option<SideEffect>)

  /** `order` lists the node ids in the order the object's entries come out. */
  datatype Scenario = Scenario(start: Id, order: seq<Id>, nodes: map<Id, IRNode>, params: Option<map<string, Json>>) {
    ghost predicate Valid() {
      forall id :: id in order <==> id in nodes
    }
  }

  /** A report line: the rule number and the node it is about. */
  datatype Issue = Issue(rule: nat, node: Option<Id>)

  // ----- targets and the flow graph -----

  datatype Target = ToNode(id: Id) | ToEndNoData | Malformed

  const END_NO_DATA := "@end_no_data"
  const RETURNING: set<string> := {"@challenge", "@human_task"}

  function ReadTarget(value: Option<Json>): Target {
    match value
    case Some(JStr(s)) => if s == END_NO_DATA then ToEndNoData else if s in RETURNING then Malformed else ToNode(s)
    case Some(JObj(call)) =>
      (match (Field(call, "handler"), Field(call, "return_node"))
       case (Some(JStr(handler)), Some(JStr(back))) => if handler in RETURNING then ToNode(back) else Malformed
       case _ => Malformed)
    case _ => Malformed
  }

  function ReadNodeTarget(value: Option<Json>): Target {
    match value
    case Some(JStr(s)) => ToNode(s)
    case _ => Malformed
  }

  function TargetsOf(n: IRNode): seq<Target> {
    (if n.next.Some? then [ReadTarget(n.next)] else [])
    + seq(|n.on|, i requires 0 <= i < |n.on| => ReadTarget(n.on[i].target))
    + seq(|n.fallback|, i requires 0 <= i < |n.fallback| => ReadNodeTarget(n.fallback[i].entry))
    + (if n.loop.Some? then [ReadNodeTarget(n.loop.value.body), ReadNodeTarget(n.loop.value.exit)] else [])
  }

  function EdgesIn(targets: seq<Target>): (r: seq<Id>)
    ensures forall id :: id in r <==> ToNode(id) in targets
  {
    if targets == [] then []
    else (if targets[0].ToNode? then [targets[0].id] else []) + EdgesIn(targets[1..])
  }

  function BuildGraph(s: Scenario): Graph {
    Graph(s.order, map id | id in s.nodes :: EdgesIn(TargetsOf(s.nodes[id])))
  }

  function LoopNodes(s: Scenario): set<Id> {
    set id | id in s.nodes && s.nodes[id].loop.Some?
  }

  // ----- human tasks -----

  function FormFieldType(kind: string): Option<Type> {
    if kind == "text" || kind == "textarea" || kind == "date" || kind == "select" then Some({StringT})
    else if kind == "number" then Some({NumberT})
    else if kind == "boolean" then Some({BooleanT})
    else None
  }

  /** `correctionFieldsOf`: later fields with the same key win. */
  function FormFields(fields: seq<Json>): (r: map<string, Type>)
    ensures forall k :: k in r ==> r[k] != {}
  {
    if fields == [] then map[]
    else
      var before := FormFields(fields[..|fields| - 1]);
      match fields[|fields| - 1]
      case JObj(f) =>
        (match (Field(f, "key"), Field(f, "type"))
         case (Some(JStr(key)), Some(JStr(kind))) =>
           if FormFieldType(kind).Some? then before[key := FormFieldType(kind).value] else before
         case _ => before)
      case _ => before
  }

  function CorrectionFields(call: map<string, Json>): (r: map<string, Type>)
    ensures forall k :: k in r ==> r[k] != {}
  {
    match Field(call, "input")
    case Some(JObj(input)) =>
      (match Field(input, "result_schema")
       case Some(JObj(schema)) =>
         (match (Field(schema, "version"), Field(schema, "fields"))
          case (Some(version), Some(JArr(fields))) =>
            if version == JStr("business_form_v1") then FormFields(fields) else map[]
          case _ => map[])
       case _ => map[])
    case _ => map[]
  }

  predicate DeclaresHumanTask(n: IRNode) {
    n.next.Some? && n.next.value.JObj? && Field(n.next.value.fields, "handler") == Some(JStr("@human_task"))
  }

  function HumanTasks(s: Scenario): map<Id, map<string, Type>> {
    map id | id in s.nodes && DeclaresHumanTask(s.nodes[id]) :: CorrectionFields(s.nodes[id].next.value.fields)
  }

  // ----- per-node rules -----

  /** The marked positions. */
  function Marked(flags: seq<bool>): set<nat> {
    set i: nat | i < |flags| && flags[i]
  }

  /** The same issue once for every marked position. */
  function PerMark(flags: seq<bool>, issue: Issue): (r: seq<Issue>)
    ensures |r| == |Marked(flags)| && forall x :: x in r ==> x == issue
    ensures r == [] <==> forall i :: 0 <= i < |flags| ==> !flags[i]
    decreases |flags|
  {
    if flags == [] then []
    else
      var front, last := flags[..|flags| - 1], |flags| - 1;
      assert Marked(flags) == Marked(front) + if flags[last] then {last} else {};
      PerMark(front, issue) + if flags[last] then [issue] else []
  }

  predicate Dangling(t: Target, nodes: set<Id>) {
    t == Malformed || (t.ToNode? && t.id !in nodes)
  }

  function TargetIssues(targets: seq<Target>, nodes: set<Id>, id: Id): (r: seq<Issue>)
    ensures |r| == |set i: nat | i < |targets| && Dangling(targets[i], nodes)|
    ensures forall x :: x in r ==> x == Issue(1, Some(id))
    ensures r == [] <==> Malformed !in targets && forall t :: ToNode(t) in targets ==> t in nodes
  {
    var flags := seq(|targets|, i requires 0 <= i < |targets| => Dangling(targets[i], nodes));
    assert Marked(flags) == set i: nat | i < |targets| && Dangling(targets[i], nodes);
    assert forall i :: 0 <= i < |targets| ==> flags[i] == Dangling(targets[i], nodes);
    assert (forall i :: 0 <= i < |targets| ==> !Dangling(targets[i], nodes))
      <==> forall t :: t in targets ==> !Dangling(t, nodes);
    assert forall t :: ToNode(t) in targets && t !in nodes ==> Dangling(ToNode(t), nodes);
    PerMark(flags, Issue(1, Some(id)))
  }

  /** A handler call is supported in `next` only. */
  function HandlerBranchIssues(on: seq<OnBranch>, id: Id): (r: seq<Issue>)
    ensures |r| == |set i: nat | i < |on| && CallsHandler(on[i])|
    ensures forall x :: x in r ==> x == Issue(1, Some(id))
    ensures r == [] <==> forall i :: 0 <= i < |on| ==> !CallsHandler(on[i])
  {
    var flags := seq(|on|, i requires 0 <= i < |on| => CallsHandler(on[i]));
    assert Marked(flags) == set i: nat | i < |on| && CallsHandler(on[i]);
    assert forall i :: 0 <= i < |on| ==> flags[i] == CallsHandler(on[i]);
    PerMark(flags, Issue(1, Some(id)))
  }

  predicate CallsHandler(b: OnBranch) { b.target.Some? && b.target.value.JObj? }

  /** The numeric priorities, in order. */
  function Priorities(on: seq<OnBranch>): seq<real> {
    if on == [] then []
    else (match on[0].priority case Some(JNum(p)) => [p] case _ => []) + Priorities(on[1..])
  }

  /** `validateOnPriorities`: one issue per priority seen before. */
  method PriorityIssues(on: seq<OnBranch>, id: Id) returns (r: seq<Issue>)
    ensures r == [] <==> NoRepeats(Priorities(on))
    ensures forall x :: x in r ==> x == Issue(6, Some(id))
  {
    r := [];
    var seen: set<real> := {};
    ghost var done: seq<real> := [];
    assert on[0..] == on;
    assert done + Priorities(on) == Priorities(on);
    for i := 0 to |on|
      invariant done + Priorities(on[i..]) == Priorities(on)
      invariant forall p :: p in seen <==> p in done
      invariant r == [] <==> NoRepeats(done)
      invariant forall x :: x in r ==> x == Issue(6, Some(id))
    {
      assert on[i..][1..] == on[i + 1..];
      match on[i].priority {
        case Some(JNum(p)) =>
          NoRepeatsSnoc(done, p);
          if p in seen { r := r + [Issue(6, Some(id))]; }
          seen := seen + {p};
          assert done + ([p] + Priorities(on[i + 1..])) == (done + [p]) + Priorities(on[i + 1..]);
          done := done + [p];
        case _ =>
          assert [] + Priorities(on[i + 1..]) == Priorities(on[i + 1..]);
      }
    }
    assert on[|on|..] == [];
    assert done + [] == done;
  }

  lemma NoRepeatsSnoc(xs: seq<real>, x: real)
    ensures NoRepeats(xs + [x]) <==> NoRepeats(xs) && x !in xs
  {
    var ys := xs + [x];
    if NoRepeats(ys) {
      assert forall i :: 0 <= i < |xs| ==> ys[i] == xs[i];
      assert ys[|xs|] == x;
    }
  }

  predicate HasWitness(n: IRNode) {
    exists i :: 0 <= i < |n.criteria| && n.criteria[i].EmptyResultAllowed?
  }

  function WitnessIssues(n: IRNode, id: Id): seq<Issue> {
    if (ToEndNoData in TargetsOf(n) || n.terminal == Some("success_empty")) && !HasWitness(n)
    then [Issue(7, Some(id))]
    else []
  }

  function TierRank(name: string): int {
    if name == "T0" then 0 else if name == "T1" then 1 else if name == "T2" then 2 else if name == "T3" then 3 else -1
  }

  /** Tiers in strictly rising order, entries without a tier name skipped. */
  predicate TiersRise(chain: seq<Tier>, above: int)
    decreases |chain|
  {
    chain == []
    || match chain[0].tier
       case Some(JStr(name)) => TierRank(name) > above && TiersRise(chain[1..], TierRank(name))
       case _ => TiersRise(chain[1..], above)
  }

  function ChainIssues(n: IRNode, id: Id): seq<Issue> {
    if TiersRise(n.fallback, -1) then [] else [Issue(11, Some(id))]
  }

  /** The tiers with a name and an entry node. */
  predicate IsEntry(t: Tier) {
    t.tier.Some? && t.tier.value.JStr? && t.entry.Some? && t.entry.value.JStr?
  }

  function EffectOf(s: Scenario, id: Id): Option<SideEffect> {
    if id in s.nodes then s.nodes[id].sideEffect else None
  }

  predicate Mutates(s: Scenario, t: Tier) {
    IsEntry(t) && EffectOf(s, t.entry.value.s).Some? && EffectOf(s, t.entry.value.s).value.kind != "read_only"
  }

  predicate Keyed(s: Scenario, t: Tier) {
    IsEntry(t) ==>
      EffectOf(s, t.entry.value.s).Some? && EffectOf(s, t.entry.value.s).value.key.Some?
          && EffectOf(s, t.entry.value.s).value.key.value != ""
  }

  predicate ChainMutates(s: Scenario, chain: seq<Tier>) {
    exists i :: 0 <= i < |chain| && Mutates(s, chain[i])
  }

  /** Once one tier changes something, every tier needs an idempotency key. */
  function FallbackIssues(s: Scenario, n: IRNode, id: Id): (r: seq<Issue>)
    ensures ChainMutates(s, n.fallback) ==> |r| == |set i: nat | i < |n.fallback| && !Keyed(s, n.fallback[i])|
    ensures forall x :: x in r ==> x == Issue(12, Some(id))
    ensures r == [] <==> (ChainMutates(s, n.fallback) ==> forall i :: 0 <= i < |n.fallback| ==> Keyed(s, n.fallback[i]))
  {
    if !ChainMutates(s, n.fallback) then []
    else
      var flags := seq(|n.fallback|, i requires 0 <= i < |n.fallback| => !Keyed(s, n.fallback[i]));
      assert Marked(flags) == set i: nat | i < |n.fallback| && !Keyed(s, n.fallback[i]);
      assert forall i :: 0 <= i < |n.fallback| ==> flags[i] == (!Keyed(s, n.fallback[i]));
      PerMark(flags, Issue(12, Some(id)))
  }

  /** Dot-separated identifiers. */
  predicate IsDotPath(s: string)
    decreases |s|
  {
    var k := DotIndex(s);
    && 0 < k && IsIdentStart(s[0]) && (forall i :: 0 <= i < k ==> IsIdentPart(s[i]))
    && (k < |s| ==> IsDotPath(s[k + 1..]))
  }

  predicate ValuePathOk(s: string) {
    IsDotPath(s) && (s[..DotIndex(s)] == "extracted" || s[..DotIndex(s)] == "node")
  }

  predicate BadPath(c: Criterion) { c.ValueMatch? && !ValuePathOk(c.path) }

  function PathIssues(criteria: seq<Criterion>, id: Id): (r: seq<Issue>)
    ensures |r| == |set i: nat | i < |criteria| && BadPath(criteria[i])|
    ensures forall x :: x in r ==> x == Issue(10, Some(id))
    ensures r == [] <==> forall i :: 0 <= i < |criteria| && criteria[i].ValueMatch? ==> ValuePathOk(criteria[i].path)
  {
    var flags := seq(|criteria|, i requires 0 <= i < |criteria| => BadPath(criteria[i]));
    assert Marked(flags) == set i: nat | i < |criteria| && BadPath(criteria[i]);
    assert forall i :: 0 <= i < |criteria| ==> flags[i] == BadPath(criteria[i]);
    PerMark(flags, Issue(10, Some(id)))
  }

  predicate Forbidden(a: Action) { a.name == "file" || a.name == "shell" }

  function ActionIssues(what: seq<Action>, id: Id): (r: seq<Issue>)
    ensures |r| == |set i: nat | i < |what| && Forbidden(what[i])|
    ensures forall x :: x in r ==> x == Issue(8, Some(id))
    ensures r == [] <==> forall i :: 0 <= i < |what| ==> what[i].name != "file" && what[i].name != "shell"
  {
    var flags := seq(|what|, i requires 0 <= i < |what| => Forbidden(what[i]));
    assert Marked(flags) == set i: nat | i < |what| && Forbidden(what[i]);
    assert forall i :: 0 <= i < |what| ==> flags[i] == Forbidden(what[i]);
    PerMark(flags, Issue(8, Some(id)))
  }

  predicate Unsigned(a: Action, signed: Option<set<string>>) {
    a.name == "shell" && (signed.None? || a.cmdRef !in signed.value)
  }

  /** Every shell action needs a registered command; without a registry every one is refused. */
  function CommandIssues(what: seq<Action>, signed: Option<set<string>>, id: Id): (r: seq<Issue>)
    ensures |r| == |set i: nat | i < |what| && Unsigned(what[i], signed)|
    ensures forall x :: x in r ==> x == Issue(8, Some(id))
    ensures r == [] <==> forall i :: 0 <= i < |what| ==> !Unsigned(what[i], signed)
  {
    var flags := seq(|what|, i requires 0 <= i < |what| => Unsigned(what[i], signed));
    assert Marked(flags) == set i: nat | i < |what| && Unsigned(what[i], signed);
    assert forall i :: 0 <= i < |what| ==> flags[i] == Unsigned(what[i], signed);
    PerMark(flags, Issue(8, Some(id)))
  }

  const MAX_LOOP_ITERATIONS: real := 10000.0

  predicate IsText(v: Option<Json>) { v.Some? && v.value.JStr? }

  predicate IsIterationCount(v: Option<Json>) {
    v.Some? && v.value.JNum? && v.value.n == v.value.n.Floor as real && 1.0 <= v.value.n <= MAX_LOOP_ITERATIONS
  }

  function LoopIssues(n: IRNode, id: Id): seq<Issue> {
    if n.loop.None? then []
    else
      (if IsText(n.loop.value.body) && IsText(n.loop.value.exit) then [] else [Issue(4, Some(id))])
      + (if IsIterationCount(n.loop.value.maxIterations) then [] else [Issue(4, Some(id))])
  }
}
