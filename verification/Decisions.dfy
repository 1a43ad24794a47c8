/** Rule V13 (codegen/static-validation.ts `validateDecisionBranchCompleteness`): the branches of a node
    that test the decision of a human task must cover all four decision values. */
module Decisions {
  import opened IrelSyntax
  import opened Json
  import opened Graphs
  import opened IrelEval

  const DECISIONS: seq<string> := ["approve", "reject", "correct", "retry"]

  predicate IsLiteralTrue(n: Node) {
    n.Literal? && n.ty == BooleanT && n.value == Bool(true)
  }

  /** The human task whose decision the node reads, if it is such a variable. */
  function DecisionVariable(n: Node, tasks: set<Id>): Option<Id> {
    if n.Variable? && |n.path| == 3 && n.path[0] == "node" && n.path[2] == "decision" && n.path[1] in tasks
    then Some(n.path[1]) else None
  }

  function StringLiteral(n: Node): Option<string> {
    if n.Literal? && n.ty == StringT && n.value.Str? then Some(n.value.s) else None
  }

  /** `node.<task>.decision == "literal"`, either way round. */
  function BareEquality(n: Node, tasks: set<Id>): Option<(Id, string)> {
    if !n.Compare? || n.rel != Eq then None
    else if DecisionVariable(n.left, tasks).Some? && StringLiteral(n.right).Some?
    then Some((DecisionVariable(n.left, tasks).value, StringLiteral(n.right).value))
    else if DecisionVariable(n.right, tasks).Some? && StringLiteral(n.left).Some?
    then Some((DecisionVariable(n.right, tasks).value, StringLiteral(n.left).value))
    else None
  }

  /** The tasks whose decisions occur anywhere in the tree, in walking order. */
  function DecisionRefs(n: Node, tasks: set<Id>): seq<Id>
    decreases n, 0
  {
    (if DecisionVariable(n, tasks).Some? then [DecisionVariable(n, tasks).value] else [])
    + match n
      case Unary(e, _) => DecisionRefs(e, tasks)
      case Binary(_, l, r, _) => DecisionRefs(l, tasks) + DecisionRefs(r, tasks)
      case Compare(_, l, r, _) => DecisionRefs(l, tasks) + DecisionRefs(r, tasks)
      case Logical(_, l, r, _) => DecisionRefs(l, tasks) + DecisionRefs(r, tasks)
      case Call(_, args, _) => DecisionRefsAll(args, tasks)
      case _ => []
  }

  function DecisionRefsAll(args: seq<Node>, tasks: set<Id>): seq<Id>
    decreases args, 0
  {
    if args == [] then [] else DecisionRefs(args[0], tasks) + DecisionRefsAll(args[1..], tasks)
  }

  // ----- what the rule looks at -----

  predicate CatchAll(whens: seq<Node>) {
    exists i :: 0 <= i < |whens| && IsLiteralTrue(whens[i])
  }

  /** Some branch is the plain equality of the task's decision with `value`. */
  predicate Covers(whens: seq<Node>, tasks: set<Id>, task: Id, value: string) {
    exists i :: 0 <= i < |whens| && BareEquality(whens[i], tasks) == Some((task, value))
  }

  /** A branch that is a plain equality on this task. */
  predicate Tests(n: Node, tasks: set<Id>, task: Id) {
    BareEquality(n, tasks).Some? && BareEquality(n, tasks).value.0 == task
  }

  /** A branch that refers to the task's decision in any other way. */
  predicate Muddles(n: Node, tasks: set<Id>, task: Id) {
    !IsLiteralTrue(n) && BareEquality(n, tasks).None? && task in DecisionRefs(n, tasks)
  }

  predicate Tested(whens: seq<Node>, tasks: set<Id>, task: Id) {
    exists i :: 0 <= i < |whens| && Tests(whens[i], tasks, task)
  }

  predicate Muddled(whens: seq<Node>, tasks: set<Id>, task: Id) {
    exists i :: 0 <= i < |whens| && Muddles(whens[i], tasks, task)
  }

  predicate Complete(whens: seq<Node>, tasks: set<Id>, task: Id) {
    forall k :: 0 <= k < |DECISIONS| ==> Covers(whens, tasks, task, DECISIONS[k])
  }

  predicate Warned(whens: seq<Node>, tasks: set<Id>, task: Id) {
    !CatchAll(whens) && Tested(whens, tasks, task) && !Muddled(whens, tasks, task) && !Complete(whens, tasks, task)
  }

  /** Adding to a set that keeps the order of insertion. */
  function Add(ids: seq<Id>, id: Id): (r: seq<Id>)
    ensures NoRepeats(ids) ==> NoRepeats(r)
    ensures forall x :: x in r <==> x in ids || x == id
  {
    if id in ids then ids else ids + [id]
  }

  method AddAll(ids: seq<Id>, more: seq<Id>) returns (r: seq<Id>)
    requires NoRepeats(ids)
    ensures NoRepeats(r) && forall x :: x in r <==> x in ids || x in more
  {
    r := ids;
    for k := 0 to |more|
      invariant NoRepeats(r) && forall x :: x in r <==> x in ids || x in more[..k]
    {
      assert more[..k + 1] == more[..k] + [more[k]];
      r := Add(r, more[k]);
    }
    assert more[..|more|] == more;
  }

  /** The rule as the source runs it: one warning per incompletely tested task. */
  method WarnedTasks(whens: seq<Node>, tasks: set<Id>) returns (warned: seq<Id>)
    ensures NoRepeats(warned)
    ensures forall task :: task in warned <==> Warned(whens, tasks, task)
  {
    hide CatchAll, Covers, Tested, Muddled, DecisionRefs, Warned;
    NothingYet(whens[..0], tasks);
    var covered: map<Id, set<string>> := map[];
    var impure: set<Id> := {};
    var referenced: seq<Id> := [];
    var hasCatchAll := false;
    for i := 0 to |whens|
      invariant hasCatchAll <==> CatchAll(whens[..i])
      invariant forall t :: t in covered <==> Tested(whens[..i], tasks, t)
      invariant forall t, v :: t in covered ==> (v in covered[t] <==> Covers(whens[..i], tasks, t, v))
      invariant forall t :: t in impure <==> Muddled(whens[..i], tasks, t)
      invariant NoRepeats(referenced) && forall t :: t in referenced <==> t in covered || t in impure
    {
      var w := whens[i];
      assert whens[..i + 1] == whens[..i] + [w];
      ghost var before := whens[..i];
      Extend(before, w, tasks);
      CoversTested(before, tasks);
      if IsLiteralTrue(w) {
        hasCatchAll := true;
        continue;
      }
      var equality := BareEquality(w, tasks);
      if equality.Some? {
        var (task, literal) := equality.value;
        var literals := if task in covered then covered[task] else {};
        covered := covered[task := literals + {literal}];
        referenced := Add(referenced, task);
        continue;
      }
      var refs := DecisionRefs(w, tasks);
      impure := impure + (set t | t in refs);
      referenced := AddAll(referenced, refs);
    }
    assert whens[..|whens|] == whens;
    if hasCatchAll {
      CaughtAll(whens, tasks);
      return [];
    }
    warned := Incomplete(whens, tasks, covered, impure, referenced);
  }

  lemma NothingYet(whens: seq<Node>, tasks: set<Id>)
    requires whens == []
    ensures !CatchAll(whens) && forall t :: !Tested(whens, tasks, t) && !Muddled(whens, tasks, t)
  {
  }

  lemma CoversTested(whens: seq<Node>, tasks: set<Id>)
    ensures forall t, v :: Covers(whens, tasks, t, v) ==> Tested(whens, tasks, t)
  {
    hide BareEquality;
    forall t, v | Covers(whens, tasks, t, v)
      ensures Tested(whens, tasks, t)
    {
      var i :| 0 <= i < |whens| && BareEquality(whens[i], tasks) == Some((t, v));
      assert Tests(whens[i], tasks, t);
    }
  }

  lemma CaughtAll(whens: seq<Node>, tasks: set<Id>)
    requires CatchAll(whens)
    ensures forall t :: !Warned(whens, tasks, t)
  {
  }

  /** How one more branch changes what is covered, tested and muddled. */
  lemma Extend(whens: seq<Node>, w: Node, tasks: set<Id>)
    ensures CatchAll(whens + [w]) <==> CatchAll(whens) || IsLiteralTrue(w)
    ensures forall t :: Tested(whens + [w], tasks, t) <==> Tested(whens, tasks, t) || Tests(w, tasks, t)
    ensures forall t, v ::
              Covers(whens + [w], tasks, t, v) <==> Covers(whens, tasks, t, v) || BareEquality(w, tasks) == Some((t, v))
    ensures forall t :: Muddled(whens + [w], tasks, t) <==> Muddled(whens, tasks, t) || Muddles(w, tasks, t)
  {
    hide BareEquality, IsLiteralTrue, Tests, Muddles;
    var all := whens + [w];
    assert all[|whens|] == w;
    assert forall i :: 0 <= i < |whens| ==> all[i] == whens[i];
  }

  method Incomplete(whens: seq<Node>, tasks: set<Id>, covered: map<Id, set<string>>, impure: set<Id>,
      referenced: seq<Id>)
    returns (warned: seq<Id>)
    requires !CatchAll(whens)
    requires forall t :: t in covered <==> Tested(whens, tasks, t)
    requires forall t, v :: t in covered ==> (v in covered[t] <==> Covers(whens, tasks, t, v))
    requires forall t :: t in impure <==> Muddled(whens, tasks, t)
    requires NoRepeats(referenced) && forall t :: t in referenced <==> t in covered || t in impure
    ensures NoRepeats(warned)
    ensures forall task :: task in warned <==> Warned(whens, tasks, task)
  {
    hide Covers, Tested, Muddled, CatchAll;
    warned := [];
    for i := 0 to |referenced|
      invariant NoRepeats(warned) && forall t :: t in warned <==> t in referenced[..i] && Warned(whens, tasks, t)
    {
      var task := referenced[i];
      assert referenced[..i + 1] == referenced[..i] + [task] && task !in referenced[..i];
      if task !in impure {
        var literals := covered[task];
        if exists k :: 0 <= k < |DECISIONS| && DECISIONS[k] !in literals {
          warned := warned + [task];
        }
      }
    }
    assert referenced[..|referenced|] == referenced;
  }

  // ----- agreement with the evaluator -----

  /** The scope carries the decision `value` of the task. */
  predicate Carries(scope: Scope, task: Id, value: string) {
    Resolve(["node", task, "decision"], scope) == Ok(Str(value))
  }

  lemma EqualityDecides(n: Node, tasks: set<Id>, task: Id, literal: string, scope: Scope, dates: Dates, value: string)
    requires BareEquality(n, tasks) == Some((task, literal)) && Carries(scope, task, value)
    ensures Eval(n, scope, dates) == Ok(Bool(value == literal))
  {
    hide Resolve;
    var v := if DecisionVariable(n.left, tasks).Some? && StringLiteral(n.right).Some? then n.left else n.right;
    assert v.path == ["node", task, "decision"];
  }

  /** A literal true, or a plain equality on this task. */
  predicate Plain(n: Node, tasks: set<Id>, task: Id) {
    IsLiteralTrue(n) || Tests(n, tasks, task)
  }

  predicate AllPlain(whens: seq<Node>, tasks: set<Id>, task: Id) {
    forall i :: 0 <= i < |whens| ==> Plain(whens[i], tasks, task)
  }

  /** Some literal-true branch or plain equality on this task fires. */
  ghost predicate Fires(whens: seq<Node>, tasks: set<Id>, task: Id, scope: Scope, dates: Dates) {
    exists i :: 0 <= i < |whens| && Plain(whens[i], tasks, task) && Eval(whens[i], scope, dates) == Ok(Bool(true))
  }

  /** Some branch fires, of whatever form. */
  ghost predicate AnyFires(whens: seq<Node>, scope: Scope, dates: Dates) {
    exists i :: 0 <= i < |whens| && Eval(whens[i], scope, dates) == Ok(Bool(true))
  }

  /** A decision value is answered when some branch fires in every scope that carries it. */
  ghost predicate Answered(whens: seq<Node>, task: Id, value: string) {
    forall scope: Scope, dates: Dates :: Carries(scope, task, value) ==> AnyFires(whens, scope, dates)
  }

  /** It is handled when even a literal-true branch or plain equality on the task does. */
  ghost predicate Handled(whens: seq<Node>, tasks: set<Id>, task: Id, value: string) {
    forall scope: Scope, dates: Dates :: Carries(scope, task, value) ==> Fires(whens, tasks, task, scope, dates)
  }

  lemma HandledIff(whens: seq<Node>, tasks: set<Id>, task: Id, value: string)
    ensures Handled(whens, tasks, task, value) <==> CatchAll(whens) || Covers(whens, tasks, task, value)
  {
    hide BareEquality, Eval, Resolve;
    if CatchAll(whens) {
      var i :| 0 <= i < |whens| && IsLiteralTrue(whens[i]);
      forall scope: Scope, dates: Dates | Carries(scope, task, value)
        ensures Fires(whens, tasks, task, scope, dates)
      {
        LiteralTrueFires(whens[i], scope, dates);
      }
    } else if Covers(whens, tasks, task, value) {
      var i :| 0 <= i < |whens| && BareEquality(whens[i], tasks) == Some((task, value));
      assert Tests(whens[i], tasks, task);
      forall scope: Scope, dates: Dates | Carries(scope, task, value)
        ensures Fires(whens, tasks, task, scope, dates)
      {
        EqualityDecides(whens[i], tasks, task, value, scope, dates, value);
      }
    } else {
      Unhandled(whens, tasks, task, value);
    }
  }

  lemma LiteralTrueFires(n: Node, scope: Scope, dates: Dates)
    requires IsLiteralTrue(n)
    ensures Eval(n, scope, dates) == Ok(Bool(true))
  {
  }

  /** The scope with nothing but the task's decision. */
  function OnlyDecision(task: Id, value: string): Scope {
    map["node" := JObj(map[task := JObj(map["decision" := JStr(value)])])]
  }

  lemma OnlyDecisionCarries(task: Id, value: string)
    ensures Carries(OnlyDecision(task, value), task, value)
  {
    var scope := OnlyDecision(task, value);
    var node := scope["node"];
    assert ReadPath(node, [task]) == Some(JObj(map["decision" := JStr(value)])) by {
      assert [task][1..] == [];
      assert ReadPath(node.fields[task], []) == Some(node.fields[task]);
    }
    var output := node.fields[task];
    assert ["node", task, "decision"][2..] == ["decision"];
    assert ["decision"][1..] == [];
    assert ReadPath(output, ["decision"]) == Some(JStr(value)) by {
      assert ReadPath(output.fields["decision"], []) == Some(JStr(value));
    }
  }

  lemma Unhandled(whens: seq<Node>, tasks: set<Id>, task: Id, value: string)
    requires !CatchAll(whens) && !Covers(whens, tasks, task, value)
    ensures !Handled(whens, tasks, task, value)
  {
    hide BareEquality, Eval, Resolve, OnlyDecision;
    var scope, dates: Dates := OnlyDecision(task, value), s => None;
    OnlyDecisionCarries(task, value);
    forall i | 0 <= i < |whens| && Tests(whens[i], tasks, task)
      ensures Eval(whens[i], scope, dates) == Ok(Bool(false))
    {
      var literal := BareEquality(whens[i], tasks).value.1;
      EqualityDecides(whens[i], tasks, task, literal, scope, dates, value);
    }
    assert !Fires(whens, tasks, task, scope, dates);
  }

  lemma HandledAnswered(whens: seq<Node>, tasks: set<Id>, task: Id, value: string)
    ensures Handled(whens, tasks, task, value) ==> Answered(whens, task, value)
    ensures AllPlain(whens, tasks, task) && Answered(whens, task, value) ==> Handled(whens, tasks, task, value)
  {
    hide Eval, Resolve, Plain;
    forall scope: Scope, dates: Dates
      ensures Fires(whens, tasks, task, scope, dates) ==> AnyFires(whens, scope, dates)
      ensures AllPlain(whens, tasks, task) && AnyFires(whens, scope, dates) ==> Fires(whens, tasks, task, scope, dates)
    {
    }
  }

  /** No warning, no gap: each decision value fires some branch in every scope that carries it. */
  lemma UnwarnedAnswered(whens: seq<Node>, tasks: set<Id>, task: Id, value: string)
    requires Tested(whens, tasks, task) && !Muddled(whens, tasks, task) && !Warned(whens, tasks, task)
    requires value in DECISIONS
    ensures Answered(whens, task, value)
  {
    hide Handled, Answered, Tested, Muddled, Warned, AllPlain;
    CoverageAgrees(whens, tasks, task);
    var k :| 0 <= k < |DECISIONS| && DECISIONS[k] == value;
    HandledAnswered(whens, tasks, task, value);
  }

  /** Where every branch is a literal true or a plain equality on the task, the rule is exact: it stays silent exactly
      when each decision value fires some branch. */
  lemma CoverageExact(whens: seq<Node>, tasks: set<Id>, task: Id)
    requires Tested(whens, tasks, task) && AllPlain(whens, tasks, task)
    ensures !Warned(whens, tasks, task)
            <==> forall k :: 0 <= k < |DECISIONS| ==> Answered(whens, task, DECISIONS[k])
  {
    hide Handled, Answered, Covers, CatchAll, Tested, AllPlain, Warned;
    PlainNotMuddled(whens, tasks, task);
    CoverageAgrees(whens, tasks, task);
    forall k | 0 <= k < |DECISIONS|
      ensures Handled(whens, tasks, task, DECISIONS[k]) <==> Answered(whens, task, DECISIONS[k])
    {
      HandledAnswered(whens, tasks, task, DECISIONS[k]);
    }
  }

  lemma PlainNotMuddled(whens: seq<Node>, tasks: set<Id>, task: Id)
    requires AllPlain(whens, tasks, task)
    ensures !Muddled(whens, tasks, task)
  {
    hide DecisionRefs;
  }

  /** Outside that shape a warning can be unfounded: beside one equality, a branch that is always true without being
      the literal `true` answers every decision, and the rule warns all the same. */
  lemma UnfoundedWarning()
    ensures var one := Literal(IntT, Num(1.0), false);
            var approve := Compare(Eq, Variable(["node", "t", "decision"], false),
                Literal(StringT, Str("approve"), false), false);
            var whens := [approve, Compare(Eq, one, one, false)];
            Warned(whens, {"t"}, "t") && forall value :: Answered(whens, "t", value)
  {
    var one := Literal(IntT, Num(1.0), false);
    var approve := Compare(Eq, Variable(["node", "t", "decision"], false), Literal(StringT, Str("approve"), false),
        false);
    var same := Compare(Eq, one, one, false);
    var whens := [approve, same];
    assert BareEquality(approve, {"t"}) == Some(("t", "approve"));
    assert BareEquality(same, {"t"}) == None && DecisionRefs(one, {"t"}) == [] && DecisionRefs(same, {"t"}) == [];
    assert Tests(whens[0], {"t"}, "t");
    assert DECISIONS[1] == "reject" && !Covers(whens, {"t"}, "t", DECISIONS[1]);
    forall scope: Scope, dates: Dates
      ensures AnyFires(whens, scope, dates)
    {
      assert Eval(whens[1], scope, dates) == Ok(Bool(true));
    }
  }

  /** The branches that do not test the task's decision. */
  function Others(whens: seq<Node>, tasks: set<Id>, task: Id): (r: seq<Node>)
    ensures forall n :: n in r <==> n in whens && !Tests(n, tasks, task)
  {
    if whens == [] then []
    else (if Tests(whens[0], tasks, task) then [] else [whens[0]]) + Others(whens[1..], tasks, task)
  }

  /** What decides whether a warning is unfounded: a decision value without an equality of its own is answered exactly
      when the branches that do not test the decision answer it by themselves. */
  lemma OthersDecide(whens: seq<Node>, tasks: set<Id>, task: Id, value: string)
    requires !Covers(whens, tasks, task, value)
    ensures Answered(whens, task, value) <==> Answered(Others(whens, tasks, task), task, value)
  {
    hide BareEquality, Eval, Resolve, Others;
    OthersAre(whens, tasks, task);
    forall scope: Scope, dates: Dates | Carries(scope, task, value)
      ensures AnyFires(whens, scope, dates) <==> AnyFires(Others(whens, tasks, task), scope, dates)
    {
      OthersFire(whens, tasks, task, value, scope, dates);
    }
  }

  lemma OthersAre(whens: seq<Node>, tasks: set<Id>, task: Id)
    ensures forall n :: n in Others(whens, tasks, task) <==> n in whens && !Tests(n, tasks, task)
  {
  }

  lemma OthersFire(whens: seq<Node>, tasks: set<Id>, task: Id, value: string, scope: Scope, dates: Dates)
    requires !Covers(whens, tasks, task, value) && Carries(scope, task, value)
    ensures AnyFires(whens, scope, dates) <==> AnyFires(Others(whens, tasks, task), scope, dates)
  {
    hide BareEquality, Eval, Resolve, Others;
    OthersAre(whens, tasks, task);
    var others := Others(whens, tasks, task);
    if i :| 0 <= i < |whens| && Eval(whens[i], scope, dates) == Ok(Bool(true)) {
      if Tests(whens[i], tasks, task) {
        EqualityDecides(whens[i], tasks, task, BareEquality(whens[i], tasks).value.1, scope, dates, value);
      }
      assert whens[i] in others;
      var j :| 0 <= j < |others| && others[j] == whens[i];
    }
    if j :| 0 <= j < |others| && Eval(others[j], scope, dates) == Ok(Bool(true)) {
      assert others[j] in whens;
      var i :| 0 <= i < |whens| && whens[i] == others[j];
    }
  }

  /** Where a task's decision is tested by plain equalities only, the rule stays silent exactly when every
      decision value is handled. */
  lemma CoverageAgrees(whens: seq<Node>, tasks: set<Id>, task: Id)
    requires Tested(whens, tasks, task) && !Muddled(whens, tasks, task)
    ensures !Warned(whens, tasks, task)
            <==> forall k :: 0 <= k < |DECISIONS| ==> Handled(whens, tasks, task, DECISIONS[k])
  {
    hide Handled, Covers, CatchAll, Tested, Muddled;
    forall k | 0 <= k < |DECISIONS|
      ensures Handled(whens, tasks, task, DECISIONS[k]) <==> CatchAll(whens) || Covers(whens, tasks, task, DECISIONS[k])
    {
      HandledIff(whens, tasks, task, DECISIONS[k]);
    }
  }

  /** Behind a warning is a decision value for which every equality on the task is false. */
  lemma WarningIsReal(whens: seq<Node>, tasks: set<Id>, task: Id) returns (value: string)
    requires Warned(whens, tasks, task)
    ensures value in DECISIONS
    ensures forall scope: Scope, dates: Dates, i ::
              Carries(scope, task, value) && 0 <= i < |whens| && Tests(whens[i], tasks, task) ==>
                Eval(whens[i], scope, dates) == Ok(Bool(false))
  {
    hide BareEquality, Eval, Resolve;
    var k :| 0 <= k < |DECISIONS| && !Covers(whens, tasks, task, DECISIONS[k]);
    value := DECISIONS[k];
    forall scope: Scope, dates: Dates, i
      | Carries(scope, task, value) && 0 <= i < |whens| && Tests(whens[i], tasks, task)
      ensures Eval(whens[i], scope, dates) == Ok(Bool(false))
    {
      var literal := BareEquality(whens[i], tasks).value.1;
      EqualityDecides(whens[i], tasks, task, literal, scope, dates, value);
    }
  }
}
