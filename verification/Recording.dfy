/** Browser recordings and their translation to a draft scenario
    (control-plane/minimal-handlers.ts `draftIrFromRecording`, `recordingActionFromEvent`,
    `appendBrowserRecordingEvents`, `completeBrowserRecording`). */
module Recording {
  import opened IrelSyntax
  import opened Decimals
  import opened Json
  import opened Graphs
  import opened IrelTypes
  import opened Scenarios
  import opened ScenarioCompile
  import opened Tarjan
  import opened ScenarioTheorems

  datatype EventKind = Navigate | Click | Input | Select | Submit | Wait

  datatype Event = Event(
    number: nat,
    kind: EventKind,
    selector: Option<string>,
    elementKey: Option<string>,
    caption: Option<string>,
    url: Option<string>,
    preview: Option<string>)

  // ----- names -----

  /** `padStart(2, "0")`. */
  function Pad2(s: string): string {
    if |s| == 0 then "00" else if |s| == 1 then "0" + s else s
  }

  lemma PadValue(s: string)
    ensures DigitsValue(Pad2(s)) == DigitsValue(s)
  {
    if |s| == 1 {
      var p := "0" + s;
      assert p[..1] == "0" && "0"[..0] == [];
      assert DigitsValue("0") == 0;
      assert s[..0] == [];
    } else if |s| == 0 {
      assert "00"[..1] == "0" && "0"[..0] == [];
      assert DigitsValue("0") == 0;
    }
  }

  const DONE: Id := "done"

  /** The id of the k-th step, counted from 1. */
  function StepId(k: nat): Id {
    "step_" + Pad2(Decimal(k))
  }

  lemma StepIdDistinct(j: nat, k: nat)
    ensures StepId(j) == StepId(k) <==> j == k
    ensures StepId(j) != DONE
  {
    if StepId(j) == StepId(k) {
      assert StepId(j)[5..] == Pad2(Decimal(j)) && StepId(k)[5..] == Pad2(Decimal(k));
      PadValue(Decimal(j));
      PadValue(Decimal(k));
      DecimalValue(j);
      DecimalValue(k);
    }
    assert StepId(j)[0] == 's' && DONE[0] == 'd';
  }

  /** All node ids of a draft with `n` events, in visiting order. */
  function Ids(n: nat): (r: seq<Id>)
    ensures |r| == n + 1
  {
    seq(n, i requires 0 <= i < n => StepId(i + 1)) + [DONE]
  }

  lemma IdsDistinct(n: nat, i: nat, j: nat)
    requires i <= n && j <= n
    ensures Ids(n)[i] == Ids(n)[j] <==> i == j
  {
    StepIdDistinct(i + 1, j + 1);
    StepIdDistinct(j + 1, i + 1);
  }

  // ----- nodes -----

  function OrEmpty(o: Option<string>): Json { JStr(if o.Some? then o.value else "") }

  /** The parameter name of an event that declares one. */
  function ParameterName(e: Event): string {
    if e.kind == Input then "input_" + Decimal(e.number)
    else if e.number == 1 then "entry_url" else "url_" + Decimal(e.number)
  }

  /** An instruction with its arguments. */
  function Instruct(name: string, instruction: string, args: map<string, Json>): Action {
    Action(name, "", map["instruction" := JStr(instruction), "args" := JObj(args)])
  }

  /** The action an event is replayed by. */
  function ActionOf(e: Event): Action {
    match e.kind
    case Navigate => Action("navigate", "", map["url_ref" := JStr(ParameterName(e))])
    case Input =>
      Instruct(
        "act", Caption(e) + " input",
        map["fill_selector" := OrEmpty(e.selector), "value_ref" := JStr(ParameterName(e))])
    case Select =>
      Instruct(
        "act", Caption(e) + " select",
        map["select_selector" := OrEmpty(e.selector), "select_value" := OrEmpty(e.preview)])
    case Wait => Instruct("observe", Caption(e) + " wait", map["selector" := OrEmpty(e.selector)])
    case _ => Instruct("act", Caption(e) + " click", map["click_selector" := OrEmpty(e.selector)])
  }

  /** The node of the i-th event: one action, and `next` to the following id. */
  function StepNode(events: seq<Event>, i: nat): IRNode
    requires i < |events|
  {
    var e := events[i];
    IRNode(
      Some(JStr(Ids(|events|)[i + 1])), [], None, [], None, [], [ActionOf(e)],
      if e.kind == Submit then Some(SideEffect("submit", Some("recorded_submit_" + Decimal(e.number)))) else None)
  }

  const DONE_NODE: IRNode := IRNode(None, [], None, [], Some("success"), [], [], None)

  // ----- declared parameters -----

  function KindName(kind: EventKind): string {
    match kind
    case Navigate => "navigate" case Click => "click" case Input => "input"
    case Select => "select" case Submit => "submit" case Wait => "wait"
  }

  function Caption(e: Event): string {
    if e.caption.Some? then e.caption.value
    else if e.elementKey.Some? then e.elementKey.value
    else if e.selector.Some? then e.selector.value
    else if e.url.Some? then e.url.value
    else KindName(e.kind)
  }

  /** The parameter an event declares: its name and schema. */
  function Declares(e: Event): Option<(string, Json)> {
    match e.kind
    case Navigate =>
      var url := if e.url.Some? then e.url.value else "https://example.invalid/";
      Some((ParameterName(e), JObj(map["type" := JStr("string"), "format" := JStr("uri"), "default" := JStr(url)])))
    case Input =>
      Some((ParameterName(e), JObj(map["type" := JStr("string"), "description" := JStr(Caption(e) + " input")])))
    case _ => None
  }

  lemma DeclaresInjective(a: Event, b: Event)
    requires Declares(a).Some? && Declares(b).Some? && Declares(a).value.0 == Declares(b).value.0
    ensures a.number == b.number
  {
    var x, y := Declares(a).value.0, Declares(b).value.0;
    assert x[0] == y[0];
    if a.kind == Input {
      assert x[6..] == Decimal(a.number) && y[6..] == Decimal(b.number);
    } else if a.number != 1 && b.number != 1 {
      assert x[4..] == Decimal(a.number) && y[4..] == Decimal(b.number);
    }
    DecimalValue(a.number);
    DecimalValue(b.number);
  }

  /** The parameter names declared so far, in order, and the property schemas. */
  function Required(events: seq<Event>): seq<string> {
    if events == [] then []
    else
      Required(events[..|events| - 1])
      + if Declares(events[|events| - 1]).Some? then [Declares(events[|events| - 1]).value.0] else []
  }

  function PropertiesOf(events: seq<Event>): (r: map<string, Json>)
    ensures forall k :: k in r <==> k in Required(events)
    ensures forall k :: k in r ==> r[k].JObj? && Field(r[k].fields, "type") == Some(JStr("string"))
  {
    if events == [] then map[]
    else
      var before := PropertiesOf(events[..|events| - 1]);
      match Declares(events[|events| - 1])
      case None => before
      case Some((name, schema)) => before[name := schema]
  }

  /** Strictly rising event numbers. */
  predicate Numbered(events: seq<Event>) {
    forall i, j :: 0 <= i < j < |events| ==> events[i].number < events[j].number
  }

  lemma {:induction false} RequiredFrom(events: seq<Event>, name: string) returns (i: nat)
    requires name in Required(events)
    ensures i < |events| && Declares(events[i]).Some? && Declares(events[i]).value.0 == name
    decreases |events|
  {
    var last := |events| - 1;
    if Declares(events[last]).Some? && Declares(events[last]).value.0 == name {
      i := last;
    } else {
      i := RequiredFrom(events[..last], name);
    }
  }

  /** With distinct event numbers no parameter is required twice. */
  lemma {:induction false} RequiredOnce(events: seq<Event>, i: nat, j: nat)
    requires Numbered(events) && i < j < |Required(events)|
    ensures Required(events)[i] != Required(events)[j]
    decreases |events|
  {
    hide Declares;
    var last := |events| - 1;
    var front := Required(events[..last]);
    if j < |front| {
      RequiredOnce(events[..last], i, j);
    } else if front[i] == Required(events)[j] {
      var k := RequiredFrom(events[..last], front[i]);
      DeclaresInjective(events[k], events[last]);
      assert false;
    }
  }

  // ----- the draft -----

  /** The schema built from the collected properties. */
  function SchemaFrom(properties: map<string, Json>, required: seq<string>): Option<map<string, Json>> {
    if properties == map[] then None
    else Some(map["type" := JStr("object"), "properties" := JObj(properties),
                  "required" := JArr(seq(|required|, i requires 0 <= i < |required| => JStr(required[i])))])
  }

  function ParamsSchema(events: seq<Event>): Option<map<string, Json>> {
    SchemaFrom(PropertiesOf(events), Required(events))
  }

  /** What the draft of an event list is: a chain of step nodes ending at `done`. */
  ghost predicate IsDraft(s: Scenario, events: seq<Event>) {
    var ids := Ids(|events|);
    && s.start == ids[0] && s.order == ids
    && (forall id :: id in s.nodes <==> id in ids)
    && (forall i :: 0 <= i < |events| ==> ids[i] in s.nodes && s.nodes[ids[i]] == StepNode(events, i))
    && s.nodes[DONE] == DONE_NODE
    && s.params == ParamsSchema(events)
  }

  /** The first `k` step nodes are in place, and nothing else. */
  ghost predicate StepsSoFar(nodes: map<Id, IRNode>, events: seq<Event>, k: nat)
    requires k <= |events|
  {
    var ids := Ids(|events|);
    && (forall id :: id in nodes <==> id in ids[..k])
    && (forall i :: 0 <= i < k ==> ids[i] in nodes && nodes[ids[i]] == StepNode(events, i))
  }

  lemma AddStep(nodes: map<Id, IRNode>, events: seq<Event>, k: nat)
    requires k < |events| && StepsSoFar(nodes, events, k)
    ensures StepsSoFar(nodes[Ids(|events|)[k] := StepNode(events, k)], events, k + 1)
  {
    hide Ids, StepNode;
    var ids := Ids(|events|);
    forall i | 0 <= i < k
      ensures ids[i] != ids[k]
    {
      IdsDistinct(|events|, i, k);
    }
    assert ids[..k + 1] == ids[..k] + [ids[k]];
  }

  lemma AddDone(nodes: map<Id, IRNode>, events: seq<Event>, s: Scenario)
    requires StepsSoFar(nodes, events, |events|)
    requires s == Scenario(Ids(|events|)[0], Ids(|events|), nodes[DONE := DONE_NODE], ParamsSchema(events))
    ensures IsDraft(s, events)
  {
    hide Ids, StepNode, ParamsSchema;
    var ids := Ids(|events|);
    IdsEnds(|events|);
    forall i | 0 <= i < |events|
      ensures ids[i] != DONE
    {
      IdsDistinct(|events|, i, |events|);
    }
    assert ids == ids[..|events|] + [DONE];
  }

  method DraftIrFromRecording(events: seq<Event>) returns (s: Scenario)
    ensures IsDraft(s, events)
  {
    hide StepsSoFar, IsDraft, PropertiesOf, Required, Declares, Decimal, StepId;
    var nodes: map<Id, IRNode> := map[];
    var order: seq<Id> := [];
    var properties: map<string, Json> := map[];
    var required: seq<string> := [];
    NothingDeclared();
    assert events[..0] == [];
    assert StepsSoFar(nodes, events, 0) by { NoStepsYet(events); }
    for index := 0 to |events|
      invariant StepsSoFar(nodes, events, index) && order == Ids(|events|)[..index]
      invariant properties == PropertiesOf(events[..index]) && required == Required(events[..index])
    {
      var event := events[index];
      var nodeId := StepId(index + 1);
      var next := if index == |events| - 1 then DONE else StepId(index + 2);
      var action;
      action, properties, required := RecordingAction(event, properties, required, events[..index]);
      assert events[..index + 1] == events[..index] + [event];
      var effect := if event.kind == Submit
          then Some(SideEffect("submit", Some("recorded_submit_" + Decimal(event.number)))) else None;
      var node := IRNode(Some(JStr(next)), [], None, [], None, [], [action], effect);
      assert nodeId == Ids(|events|)[index] && node == StepNode(events, index);
      AddStep(nodes, events, index);
      nodes := nodes[nodeId := node];
      order := order + [nodeId];
    }
    assert events[..|events|] == events;
    order := order + [DONE];
    IdsEnds(|events|);
    assert order == Ids(|events|);
    var start := if events == [] then DONE else StepId(1);
    s := Scenario(start, order, nodes[DONE := DONE_NODE], SchemaFrom(properties, required));
    AddDone(nodes, events, s);
  }

  lemma NoStepsYet(events: seq<Event>)
    ensures StepsSoFar(map[], events, 0)
  {
  }

  lemma NothingDeclared()
    ensures PropertiesOf([]) == map[] && Required([]) == []
  {
  }

  /** `recordingActionFromEvent`: adds the event's parameter to the collected ones. */
  method RecordingAction(e: Event, properties: map<string, Json>, required: seq<string>, ghost before: seq<Event>)
    returns (action: Action, properties': map<string, Json>, required': seq<string>)
    requires properties == PropertiesOf(before) && required == Required(before)
    ensures action == ActionOf(e)
    ensures properties' == PropertiesOf(before + [e]) && required' == Required(before + [e])
  {
    hide Decimal;
    assert (before + [e])[..|before|] == before;
    properties', required' := properties, required;
    var caption := Caption(e);
    if e.kind == Navigate {
      var keyName := if e.number == 1 then "entry_url" else "url_" + Decimal(e.number);
      var url := if e.url.Some? then e.url.value else "https://example.invalid/";
      var schema := JObj(map["type" := JStr("string"), "format" := JStr("uri"), "default" := JStr(url)]);
      properties' := properties[keyName := schema];
      required' := required + [keyName];
      return Action("navigate", "", map["url_ref" := JStr(keyName)]), properties', required';
    }
    if e.kind == Input {
      var keyName := "input_" + Decimal(e.number);
      var schema := JObj(map["type" := JStr("string"), "description" := JStr(caption + " input")]);
      properties' := properties[keyName := schema];
      required' := required + [keyName];
      action := Instruct(
        "act", caption + " input", map["fill_selector" := OrEmpty(e.selector), "value_ref" := JStr(keyName)]);
      return;
    }
    if e.kind == Select {
      action := Instruct(
        "act", caption + " select",
        map["select_selector" := OrEmpty(e.selector), "select_value" := OrEmpty(e.preview)]);
      return;
    }
    if e.kind == Wait {
      action := Instruct("observe", caption + " wait", map["selector" := OrEmpty(e.selector)]);
      return;
    }
    action := Instruct("act", caption + " click", map["click_selector" := OrEmpty(e.selector)]);
  }

  // ----- chains -----

  /** The edges among `ids` are exactly those from each id to the next. */
  ghost predicate Chain(g: Graph, ids: seq<Id>) {
    && (forall i, j :: 0 <= i < j < |ids| ==> ids[i] != ids[j])
    && (forall i, v :: 0 <= i < |ids| ==> (Edge(g, ids[i], v) <==> i + 1 < |ids| && v == ids[i + 1]))
  }

  /** Along a chain, what is reached stands no earlier. */
  lemma {:induction false} ChainForward(g: Graph, ids: seq<Id>, i: nat, v: Id, n: nat) returns (j: nat)
    requires Chain(g, ids) && i < |ids| && ReachesIn(g, ids[i], v, n)
    ensures i <= j < |ids| && v == ids[j]
    decreases n
  {
    hide Edge;
    if n == 0 {
      j := i;
    } else {
      var w :| Edge(g, ids[i], w) && ReachesIn(g, w, v, n - 1);
      j := ChainForward(g, ids, i + 1, v, n - 1);
    }
  }

  lemma ChainAcyclic(g: Graph, ids: seq<Id>, i: nat)
    requires Chain(g, ids) && i < |ids|
    ensures !Cyclic(g, ids[i])
  {
    hide Edge;
    if Cyclic(g, ids[i]) {
      var w :| Edge(g, ids[i], w) && Reaches(g, w, ids[i]);
      var n: nat :| ReachesIn(g, w, ids[i], n);
      var j := ChainForward(g, ids, i + 1, ids[i], n);
      assert false;
    }
  }

  lemma {:induction false} ChainReaches(g: Graph, ids: seq<Id>, i: nat)
    requires Chain(g, ids) && i < |ids|
    ensures Reaches(g, ids[0], ids[i])
    decreases i
  {
    hide Edge, Reaches;
    if i == 0 {
      ReachesRefl(g, ids[0]);
    } else {
      ChainReaches(g, ids, i - 1);
      ReachesEdge(g, ids[i - 1], ids[i]);
      ReachesTrans(g, ids[0], ids[i - 1], ids[i]);
    }
  }

  lemma ChainStep(g: Graph, ids: seq<Id>, i: nat)
    requires Chain(g, ids) && i < |ids|
    ensures i + 1 < |ids| ==> Edge(g, ids[i], ids[i + 1])
  {
  }

  lemma {:induction false} ChainWalk(g: Graph, ids: seq<Id>, w: seq<Id>, i: nat)
    requires Chain(g, ids) && ids != [] && i < |w| && w[0] == ids[0] && IsWalk(g, w)
    ensures i < |ids| && w[i] == ids[i]
    decreases i
  {
    hide Edge;
    if i > 0 {
      ChainWalk(g, ids, w, i - 1);
      assert Edge(g, ids[i - 1], w[i]);
    }
  }

  // ----- the draft passes the validator -----

  lemma IdIsNode(n: nat, i: nat)
    requires i <= n
    ensures ReadTarget(Some(JStr(Ids(n)[i]))) == ToNode(Ids(n)[i])
  {
    var id := Ids(n)[i];
    if i < n { assert id[0] == 's'; } else { assert id[0] == 'd'; }
    assert END_NO_DATA[0] == '@' && "@challenge"[0] == '@' && "@human_task"[0] == '@';
  }

  lemma PlainTargets(n: IRNode)
    requires n.on == [] && n.fallback == [] && n.loop.None?
    ensures TargetsOf(n) == if n.next.Some? then [ReadTarget(n.next)] else []
  {
  }

  /** The node at position `i` of the chain. */
  lemma DraftNode(s: Scenario, events: seq<Event>, i: nat)
    requires IsDraft(s, events) && i <= |events|
    ensures var ids := Ids(|events|);
            && ids[i] in s.nodes
            && s.nodes[ids[i]] == (if i < |events| then StepNode(events, i) else DONE_NODE)
            && TargetsOf(s.nodes[ids[i]]) == (if i < |events| then [ToNode(ids[i + 1])] else [])
  {
    hide Ids, TargetsOf, ReadTarget, Decimal;
    IdsEnds(|events|);
    if i < |events| {
      IdIsNode(|events|, i + 1);
      PlainTargets(StepNode(events, i));
    } else {
      PlainTargets(DONE_NODE);
    }
  }

  lemma IdsEnds(n: nat)
    ensures Ids(n)[n] == DONE
  {
  }

  lemma DraftIsChain(s: Scenario, events: seq<Event>)
    requires IsDraft(s, events)
    ensures s.Valid() && Chain(BuildGraph(s), Ids(|events|)) && s.start == Ids(|events|)[0]
  {
    hide Ids, TargetsOf, StepNode, BuildGraph;
    var g, ids := BuildGraph(s), Ids(|events|);
    assert s.Valid();
    GraphValid(s);
    forall i, j | 0 <= i < j < |ids|
      ensures ids[i] != ids[j]
    {
      IdsDistinct(|events|, i, j);
    }
    forall i, v | 0 <= i < |ids|
      ensures Edge(g, ids[i], v) <==> i + 1 < |ids| && v == ids[i + 1]
    {
      DraftNode(s, events, i);
    }
  }

  lemma PlainNodeCompiles(s: Scenario, id: Id)
    requires id in s.nodes
    requires var n := s.nodes[id]; n.on == [] && n.loop.None? && n.fallback == [] && n.criteria == []
    ensures CompileNode(s, id) == (CompiledNode([], None, [], []), [])
  {
    var ctx := NodeContext(s, id, false, {});
    assert CompileBranches([], id, ctx) == ([], []);
    assert CompileTiers(s, [], id) == ([], []);
    assert CompileWitnesses([], id, ctx) == ([], []);
    var none: seq<Issue> := [];
    assert none + none + none + none == none;
    assert CompileNode(s, id).1 == none + none + none + none;
  }

  lemma PlainAction(e: Event)
    ensures ActionOf(e).name != "file" && ActionOf(e).name != "shell"
  {
    var name := ActionOf(e).name;
    assert name == "navigate" || name == "observe" || name == "act";
    assert |"file"| == 4 && |"shell"| == 5 && |"act"| == 3 && |"observe"| == 7 && |"navigate"| == 8;
  }

  /** A node with a plain `next`, or the terminal node, has nothing the node rules could object to. */
  lemma DraftNodeClean(s: Scenario, events: seq<Event>, i: nat)
    requires IsDraft(s, events) && i <= |events|
    ensures var id := Ids(|events|)[i]; id in s.nodes && NodeAccepted(s, id) && NodeQuiet(s, id)
  {
    hide Ids, BuildGraph, TargetsOf, CompileNode, IsDraft, Decimal;
    var id := Ids(|events|)[i];
    DraftNode(s, events, i);
    if i < |events| { DraftNode(s, events, i + 1); }
    PlainNodeCompiles(s, id);
    if i < |events| {
      PlainAction(events[i]);
    }
  }

  lemma DraftParams(events: seq<Event>)
    ensures ParamsSchema(events).Some? ==> CanBeObject(ParamsSchema(events).value)
  {
  }

  /** The report written without running the validator is the one it would give: no errors, no warnings. */
  lemma DraftPassesValidation(s: Scenario, events: seq<Event>)
    requires IsDraft(s, events)
    ensures s.Valid() && Accepted(s) && Quiet(s)
  {
    hide NodeAccepted, NodeQuiet, BuildGraph, Ids, Reaches, StepNode, Chain, ParamsSchema, CanBeObject, Terminal,
        Cyclic;
    var ids := Ids(|events|);
    DraftIsChain(s, events);
    DraftParams(events);
    forall id | id in s.nodes
      ensures NodeAccepted(s, id) && NodeQuiet(s, id) && Reaches(BuildGraph(s), s.start, id)
              && !Cyclic(BuildGraph(s), id)
    {
      var i :| 0 <= i < |ids| && ids[i] == id;
      DraftNodeClean(s, events, i);
      ChainReaches(BuildGraph(s), ids, i);
      ChainAcyclic(BuildGraph(s), ids, i);
    }
    DraftTerminal(s, events);
  }

  lemma DraftTerminal(s: Scenario, events: seq<Event>)
    requires IsDraft(s, events)
    ensures DONE in s.nodes && Terminal(s, DONE)
  {
    DraftNode(s, events, |events|);
    IdsEnds(|events|);
  }

  /** The draft replays the recording: the only walks from the start visit the events in order. */
  lemma DraftWalk(s: Scenario, events: seq<Event>, w: seq<Id>, i: nat)
    requires IsDraft(s, events) && i < |w| && w[0] == s.start && IsWalk(BuildGraph(s), w)
    ensures i <= |events| && w[i] == Ids(|events|)[i]
  {
    hide BuildGraph, Ids, IsDraft;
    DraftIsChain(s, events);
    ChainWalk(BuildGraph(s), Ids(|events|), w, i);
  }

  /** ... and a walk that cannot go on has visited all of them and stands at `done`. */
  lemma DraftWalkEnds(s: Scenario, events: seq<Event>, w: seq<Id>)
    requires IsDraft(s, events) && w != [] && w[0] == s.start && IsWalk(BuildGraph(s), w)
    requires Successors(BuildGraph(s), w[|w| - 1]) == []
    ensures w == Ids(|events|) && w[|w| - 1] == DONE
  {
    hide BuildGraph, Ids, IsDraft, Chain;
    DraftIsChain(s, events);
    var ids := Ids(|events|);
    forall i | 0 <= i < |w|
      ensures i <= |events| && w[i] == ids[i]
    {
      DraftWalk(s, events, w, i);
    }
    ChainStep(BuildGraph(s), ids, |w| - 1);
    IdsEnds(|events|);
  }

  /** Every parameter a step reads is declared: its schema is among the properties and its name is required. */
  lemma RefsDeclared(events: seq<Event>, i: nat)
    requires i < |events| && (events[i].kind == Navigate || events[i].kind == Input)
    ensures ParameterName(events[i]) in Required(events) && ParameterName(events[i]) in PropertiesOf(events)
    ensures events[i].kind == Navigate ==> ActionOf(events[i]).fields["url_ref"] == JStr(ParameterName(events[i]))
    ensures events[i].kind == Input ==>
              ActionOf(events[i]).fields["args"].fields["value_ref"] == JStr(ParameterName(events[i]))
  {
    DeclaredRequired(events, i);
  }

  lemma {:induction false} DeclaredRequired(events: seq<Event>, i: nat)
    requires i < |events| && Declares(events[i]).Some?
    ensures Declares(events[i]).value.0 in Required(events)
    decreases |events|
  {
    hide Declares;
    if i < |events| - 1 {
      DeclaredRequired(events[..|events| - 1], i);
    }
  }
}
