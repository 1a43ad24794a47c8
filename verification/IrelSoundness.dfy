/** Type soundness of IREL: what the checker accepts, the evaluator computes. */
module IrelSoundness {
  import opened IrelSyntax
  import opened IrelTypes
  import opened IrelEval
  import Json

  /** `v` is of a kind named in `t`. Numbers have one kind: `int` and `number` are not told apart at run time. */
  predicate HasKind(v: Value, t: Type) {
    match v
    case Num(_) => IntT in t || NumberT in t
    case Str(_) => StringT in t
    case Bool(_) => BooleanT in t
    case Null => NullT in t
  }

  /** Literals carry a value of their own type, as the parser builds them. */
  ghost predicate Honest(n: Node) {
    match n
    case Literal(ty, v, _) => HasKind(v, {ty})
    case Variable(_, _) => true
    case Call(_, args, _) => forall i :: 0 <= i < |args| ==> Honest(args[i])
    case Unary(e, _) => Honest(e)
    case Binary(_, l, r, _) => Honest(l) && Honest(r)
    case Compare(_, l, r, _) => Honest(l) && Honest(r)
    case Logical(_, l, r, _) => Honest(l) && Honest(r)
  }

  /** The expression mentions the variable `path`. */
  ghost predicate Mentions(n: Node, path: seq<string>) {
    match n
    case Literal(_, _, _) => false
    case Variable(p, _) => p == path
    case Call(_, args, _) => exists i :: 0 <= i < |args| && Mentions(args[i], path)
    case Unary(e, _) => Mentions(e, path)
    case Binary(_, l, r, _) => Mentions(l, path) || Mentions(r, path)
    case Compare(_, l, r, _) => Mentions(l, path) || Mentions(r, path)
    case Logical(_, l, r, _) => Mentions(l, path) || Mentions(r, path)
  }

  /** The scope supplies the variable at the kind the context declares for it. */
  ghost predicate Supplied(path: seq<string>, ctx: Context, scope: Scope) {
    var c := ResolveVariable(path, ctx);
    c.ty.Some? ==> Resolve(path, scope).Ok? && HasKind(Resolve(path, scope).v, c.ty.value)
  }

  ghost predicate Supplies(scope: Scope, ctx: Context, n: Node) {
    forall path :: Mentions(n, path) ==> Supplied(path, ctx, scope)
  }

  /** The expression compares dates somewhere. */
  ghost predicate UsesDates(n: Node) {
    match n
    case Literal(_, _, _) => false
    case Variable(_, _) => false
    case Call(name, args, _) =>
      name == "date_before" || name == "date_after" || exists i :: 0 <= i < |args| && UsesDates(args[i])
    case Unary(e, _) => UsesDates(e)
    case Binary(_, l, r, _) => UsesDates(l) || UsesDates(r)
    case Compare(_, l, r, _) => UsesDates(l) || UsesDates(r)
    case Logical(_, l, r, _) => UsesDates(l) || UsesDates(r)
  }

  /** A value of a kind in `t`, or a malformed date where dates are compared. */
  ghost predicate Good(r: Outcome, t: Type, n: Node) {
    match r
    case Ok(v) => HasKind(v, t)
    case Err(cause) => cause == BadDate && UsesDates(n)
  }

  lemma SuppliesPart(scope: Scope, ctx: Context, n: Node, part: Node)
    requires Supplies(scope, ctx, n)
    requires forall path :: Mentions(part, path) ==> Mentions(n, path)
    ensures Supplies(scope, ctx, part)
  {
  }

  lemma AssignableKind(v: Value, actual: Type, expected: Type)
    requires HasKind(v, actual) && IsAssignable(actual, expected)
    ensures HasKind(v, expected)
  {
    if expected <= NUMERIC && IsNumeric(actual) {
      var a :| a in expected;
    }
  }

  lemma PairKinds(n: Node, l: Type, r: Type, a: Value, b: Value, scope: Scope, dates: Dates)
    requires n.Binary? || n.Compare? || n.Logical?
    requires PairType(n, l, r).Some? && HasKind(a, l) && HasKind(b, r)
    requires Eval(n.left, scope, dates) == Ok(a) && Eval(n.right, scope, dates) == Ok(b)
    ensures Eval(n, scope, dates).Ok? && HasKind(Eval(n, scope, dates).v, PairType(n, l, r).value)
  {
  }

  /** An accepted expression evaluates to a value of its type in every scope that supplies its variables;
      only a malformed date can stop it. */
  lemma {:induction false} TypeSoundness(n: Node, ctx: Context, scope: Scope, dates: Dates)
    requires Honest(n) && TypeCheck(n, ctx).ty.Some? && Supplies(scope, ctx, n)
    ensures Good(Eval(n, scope, dates), TypeCheck(n, ctx).ty.value, n)
    decreases n
  {
    match n
    case Literal(ty, v, _) =>
    case Variable(path, _) =>
      assert Mentions(n, path);
      assert Supplied(path, ctx, scope);
    case Unary(e, _) =>
      SuppliesPart(scope, ctx, n, e);
      TypeSoundness(e, ctx, scope, dates);
    case Binary(_, l, r, _) => PairSound(n, ctx, scope, dates);
    case Compare(_, l, r, _) => PairSound(n, ctx, scope, dates);
    case Logical(_, l, r, _) => PairSound(n, ctx, scope, dates);
    case Call(name, args, _) => CallSound(n, ctx, scope, dates);
  }

  lemma {:induction false} PairSound(n: Node, ctx: Context, scope: Scope, dates: Dates)
    requires n.Binary? || n.Compare? || n.Logical?
    requires Honest(n) && TypeCheck(n, ctx).ty.Some? && Supplies(scope, ctx, n)
    ensures Good(Eval(n, scope, dates), TypeCheck(n, ctx).ty.value, n)
    decreases n, 0
  {
    SuppliesPart(scope, ctx, n, n.left);
    SuppliesPart(scope, ctx, n, n.right);
    TypeSoundness(n.left, ctx, scope, dates);
    TypeSoundness(n.right, ctx, scope, dates);
    var l, r := Eval(n.left, scope, dates), Eval(n.right, scope, dates);
    if l.Ok? && r.Ok? {
      PairKinds(n, TypeCheck(n.left, ctx).ty.value, TypeCheck(n.right, ctx).ty.value, l.v, r.v, scope, dates);
    }
  }

  lemma {:induction false} ArgType(args: seq<Node>, ctx: Context, i: nat)
    requires i < |args|
    ensures CheckArgs(args, ctx).0[i] == if TypeCheck(args[i], ctx).ty.Some? then TypeCheck(args[i], ctx).ty.value
            else {}
    decreases i
  {
    hide TypeCheck;
    if i > 0 {
      ArgType(args[1..], ctx, i - 1);
    }
  }

  /** The arguments of an accepted call are accepted at the types its signature sees. */
  lemma ArgsAccepted(n: Node, ctx: Context, i: nat)
    requires n.Call? && TypeCheck(n, ctx).ty.Some? && i < |n.args|
    ensures TypeCheck(n.args[i], ctx).ty == Some(CheckArgs(n.args, ctx).0[i])
    ensures CheckSignature(n.name, CheckArgs(n.args, ctx).0).ty == TypeCheck(n, ctx).ty
  {
    ArgType(n.args, ctx, i);
    assert CheckArgs(n.args, ctx).0[i] in CheckArgs(n.args, ctx).0;
  }

  lemma {:induction false} ArgSound(n: Node, ctx: Context, scope: Scope, dates: Dates, i: nat)
    requires n.Call? && i < |n.args|
    requires Honest(n) && TypeCheck(n, ctx).ty.Some? && Supplies(scope, ctx, n)
    ensures TypeCheck(n.args[i], ctx).ty == Some(CheckArgs(n.args, ctx).0[i])
    ensures Good(Eval(n.args[i], scope, dates), CheckArgs(n.args, ctx).0[i], n)
    decreases n, 0
  {
    ArgsAccepted(n, ctx, i);
    SuppliesPart(scope, ctx, n, n.args[i]);
    TypeSoundness(n.args[i], ctx, scope, dates);
  }

  lemma SignatureArity(name: string, types: seq<Type>)
    requires CheckSignature(name, types).ty.Some?
    ensures Arity(name).Some? && |types| == Arity(name).value
  {
  }

  lemma {:induction false} CallSound(n: Node, ctx: Context, scope: Scope, dates: Dates)
    requires n.Call?
    requires Honest(n) && TypeCheck(n, ctx).ty.Some? && Supplies(scope, ctx, n)
    ensures Good(Eval(n, scope, dates), TypeCheck(n, ctx).ty.value, n)
    decreases n, 1
  {
    hide TypeCheck, Honest, CheckArgs;
    var types := CheckArgs(n.args, ctx).0;
    CallSignature(n, ctx);
    SignatureArity(n.name, types);
    ArgSound(n, ctx, scope, dates, 0);
    if |n.args| == 2 {
      ArgSound(n, ctx, scope, dates, 1);
    }
    CallKinds(n, types, scope, dates);
  }

  lemma CallSignature(n: Node, ctx: Context)
    requires n.Call? && TypeCheck(n, ctx).ty.Some?
    ensures CheckSignature(n.name, CheckArgs(n.args, ctx).0).ty == TypeCheck(n, ctx).ty
  {
  }

  /** The built-in functions deliver the kind their signature promises. */
  lemma CallKinds(n: Node, types: seq<Type>, scope: Scope, dates: Dates)
    requires n.Call? && |types| == |n.args| && CheckSignature(n.name, types).ty.Some?
    requires forall i :: 0 <= i < |types| ==> Good(Eval(n.args[i], scope, dates), types[i], n)
    ensures Good(Eval(n, scope, dates), CheckSignature(n.name, types).ty.value, n)
  {
    hide UsesDates, Contains, Millis;
    SignatureArity(n.name, types);
    var a := Eval(n.args[0], scope, dates);
    assert Good(a, types[0], n);
    if n.name == "coalesce" {
      var b := Eval(n.args[1], scope, dates);
      assert Good(b, types[1], n);
      if a == Ok(Null) && b.Ok? && types[0] - {NullT} != {} {
        AssignableKind(b.v, types[1], types[0] - {NullT});
      }
    } else if n.name == "date_before" || n.name == "date_after" {
      DateKinds(n, types, scope, dates);
    } else if |n.args| == 2 {
      assert Good(Eval(n.args[1], scope, dates), types[1], n);
      StringKind(a, types[0]);
      StringKind(Eval(n.args[1], scope, dates), types[1]);
    } else if n.name == "len" {
      StringKind(a, types[0]);
    }
  }

  lemma StringKind(r: Outcome, t: Type)
    requires IsAssignable(t, {StringT}) && (r.Ok? ==> HasKind(r.v, t))
    ensures r.Ok? ==> r.v.Str?
  {
    if r.Ok? { AssignableKind(r.v, t, {StringT}); }
  }

  lemma DateKinds(n: Node, types: seq<Type>, scope: Scope, dates: Dates)
    requires n.Call? && (n.name == "date_before" || n.name == "date_after")
    requires |types| == |n.args| && CheckSignature(n.name, types).ty.Some?
    requires forall i :: 0 <= i < |types| ==> Good(Eval(n.args[i], scope, dates), types[i], n)
    ensures Good(Eval(n, scope, dates), {BooleanT}, n) && CheckSignature(n.name, types).ty.value == {BooleanT}
  {
    hide Millis;
    var a, b := Eval(n.args[0], scope, dates), Eval(n.args[1], scope, dates);
    assert Good(a, types[0], n) && Good(b, types[1], n);
    StringKind(a, types[0]);
    StringKind(b, types[1]);
    assert UsesDates(n);
  }

  // ----- success needs every strict variable -----

  /** Mentioned outside the fallback of every enclosing coalesce. */
  ghost predicate StrictlyMentions(n: Node, path: seq<string>) {
    match n
    case Literal(_, _, _) => false
    case Variable(p, _) => p == path
    case Call(name, args, _) =>
      exists i :: 0 <= i < |args| && (name == "coalesce" ==> i == 0) && StrictlyMentions(args[i], path)
    case Unary(e, _) => StrictlyMentions(e, path)
    case Binary(_, l, r, _) => StrictlyMentions(l, path) || StrictlyMentions(r, path)
    case Compare(_, l, r, _) => StrictlyMentions(l, path) || StrictlyMentions(r, path)
    case Logical(_, l, r, _) => StrictlyMentions(l, path) || StrictlyMentions(r, path)
  }

  /** No silent default: a value is computed only if every strict variable is present in the scope. */
  lemma {:induction false} SuccessResolves(n: Node, path: seq<string>, scope: Scope, dates: Dates)
    requires Eval(n, scope, dates).Ok? && StrictlyMentions(n, path)
    ensures Resolve(path, scope).Ok?
    decreases n
  {
    hide Resolve, Contains, Millis;
    match n
    case Variable(_, _) =>
    case Unary(e, _) => SuccessResolves(e, path, scope, dates);
    case Binary(_, l, r, _) => SuccessResolves(if StrictlyMentions(l, path) then l else r, path, scope, dates);
    case Compare(_, l, r, _) => SuccessResolves(if StrictlyMentions(l, path) then l else r, path, scope, dates);
    case Logical(_, l, r, _) => SuccessResolves(if StrictlyMentions(l, path) then l else r, path, scope, dates);
    case Call(name, args, _) =>
      var i :| 0 <= i < |args| && (name == "coalesce" ==> i == 0) && StrictlyMentions(args[i], path);
      assert Eval(args[i], scope, dates).Ok?;
      SuccessResolves(args[i], path, scope, dates);
  }

  // ----- every refusal is explained, except through an empty declared type -----

  lemma {:induction false} AcceptedClean(n: Node, ctx: Context)
    requires TypeCheck(n, ctx).ty.Some?
    ensures TypeCheck(n, ctx).diags == []
    decreases n, 0
  {
    match n
    case Literal(_, _, _) =>
    case Variable(path, _) => VariableClean(path, ctx);
    case Unary(e, _) => AcceptedClean(e, ctx);
    case Binary(_, l, r, _) =>
      AcceptedClean(l, ctx);
      AcceptedClean(r, ctx);
    case Compare(_, l, r, _) =>
      AcceptedClean(l, ctx);
      AcceptedClean(r, ctx);
    case Logical(_, l, r, _) =>
      AcceptedClean(l, ctx);
      AcceptedClean(r, ctx);
    case Call(name, args, _) => ArgsClean(args, ctx);
  }

  lemma {:induction false} ArgsClean(args: seq<Node>, ctx: Context)
    requires {} !in CheckArgs(args, ctx).0
    ensures CheckArgs(args, ctx).1 == []
    decreases args, 0
  {
    if args != [] {
      ArgType(args, ctx, 0);
      assert CheckArgs(args, ctx).0[0] in CheckArgs(args, ctx).0;
      AcceptedClean(args[0], ctx);
      assert CheckArgs(args, ctx).0[1..] == CheckArgs(args[1..], ctx).0;
      ArgsClean(args[1..], ctx);
    }
  }

  lemma {:induction false} PropertyClean(path: seq<string>, schema: map<string, Json.Json>)
    requires path != []
    ensures var c := ResolveProperty(path, schema); (c.ty.Some? ==> c.diags == []) && (c.ty.None? ==> c.diags != [])
    decreases |path|
  {
    if |path| > 1 {
      match Field(Properties(schema), path[0])
      case Some(JObj(child)) => PropertyClean(path[1..], child);
      case _ =>
    }
  }

  lemma VariableClean(path: seq<string>, ctx: Context)
    ensures var c := ResolveVariable(path, ctx); (c.ty.Some? ==> c.diags == []) && (c.ty.None? ==> c.diags != [])
  {
    if path != [] && path[0] == "params" && |path| > 1 && ctx.params.Some? {
      PropertyClean(path[1..], ctx.params.value);
    }
  }

  /** No variable of the context is declared with an empty type (`enum: []` or `type: []`). */
  ghost predicate NoEmptyTypes(ctx: Context) {
    forall path :: ResolveVariable(path, ctx).ty != Some({})
  }

  /** No variable of the expression is declared with an empty type. */
  ghost predicate NoEmptyIn(n: Node, ctx: Context) {
    forall path :: Mentions(n, path) ==> ResolveVariable(path, ctx).ty != Some({})
  }

  lemma NoEmptyPart(n: Node, part: Node, ctx: Context)
    requires NoEmptyIn(n, ctx) && forall path :: Mentions(part, path) ==> Mentions(n, path)
    ensures NoEmptyIn(part, ctx)
  {
    hide ResolveVariable, Mentions;
  }

  lemma {:induction false} NonEmptyType(n: Node, ctx: Context)
    requires NoEmptyIn(n, ctx) && TypeCheck(n, ctx).ty.Some?
    ensures TypeCheck(n, ctx).ty.value != {}
    decreases n
  {
    match n
    case Variable(path, _) => assert Mentions(n, path);
    case Call(name, args, _) =>
      var types := CheckArgs(args, ctx).0;
      if name == "coalesce" { assert types[1] in types; }
    case _ =>
  }

  /** An expression that mentions no variable of empty type and is refused carries a diagnostic. */
  lemma {:induction false} RefusalDiagnosed(n: Node, ctx: Context)
    requires NoEmptyIn(n, ctx) && TypeCheck(n, ctx).ty.None?
    ensures TypeCheck(n, ctx).diags != []
    decreases n, 1
  {
    match n
    case Variable(path, _) => VariableClean(path, ctx);
    case Unary(e, _) =>
      if TypeCheck(e, ctx).ty.None? {
        NoEmptyPart(n, e, ctx);
        RefusalDiagnosed(e, ctx);
      }
    case Binary(_, l, r, _) => PairDiagnosed(n, ctx);
    case Compare(_, l, r, _) => PairDiagnosed(n, ctx);
    case Logical(_, l, r, _) => PairDiagnosed(n, ctx);
    case Call(name, args, _) =>
      var types := CheckArgs(args, ctx).0;
      if {} in types {
        var i :| 0 <= i < |types| && types[i] == {};
        NoEmptyArgs(n, ctx);
        ArgsDiagnosed(args, ctx, i);
      } else {
        assert CheckSignature(name, types).diags != [];
      }
  }

  lemma {:induction false} PairDiagnosed(n: Node, ctx: Context)
    requires n.Binary? || n.Compare? || n.Logical?
    requires NoEmptyIn(n, ctx) && TypeCheck(n, ctx).ty.None?
    ensures TypeCheck(n, ctx).diags != []
    decreases n, 0
  {
    NoEmptyPart(n, n.left, ctx);
    NoEmptyPart(n, n.right, ctx);
    if TypeCheck(n.left, ctx).ty.None? {
      RefusalDiagnosed(n.left, ctx);
    } else if TypeCheck(n.right, ctx).ty.None? {
      RefusalDiagnosed(n.right, ctx);
    }
  }

  lemma NoEmptyArgs(n: Node, ctx: Context)
    requires n.Call? && NoEmptyIn(n, ctx)
    ensures forall k :: 0 <= k < |n.args| ==> NoEmptyIn(n.args[k], ctx)
  {
    forall k | 0 <= k < |n.args|
      ensures NoEmptyIn(n.args[k], ctx)
    {
      NoEmptyPart(n, n.args[k], ctx);
    }
  }

  lemma {:induction false} ArgsDiagnosed(args: seq<Node>, ctx: Context, i: nat)
    requires i < |args| && CheckArgs(args, ctx).0[i] == {}
    requires forall k :: 0 <= k < |args| ==> NoEmptyIn(args[k], ctx)
    ensures CheckArgs(args, ctx).1 != []
    decreases args, 0
  {
    ArgType(args, ctx, i);
    if i == 0 {
      if TypeCheck(args[0], ctx).ty.Some? {
        NonEmptyType(args[0], ctx);
      } else {
        RefusalDiagnosed(args[0], ctx);
      }
    } else {
      ArgsDiagnosed(args[1..], ctx, i - 1);
    }
  }

  /** The silent refusal: a call whose argument has an empty declared type. */
  lemma SilentRefusal(path: seq<string>, ctx: Context)
    requires ResolveVariable(path, ctx).ty == Some({})
    ensures var n := Call("is_null", [Variable(path, false)], false); TypeCheck(n, ctx) == Checked(None, [])
  {
    var arg := Variable(path, false);
    var n := Call("is_null", [arg], false);
    VariableClean(path, ctx);
    ArgType([arg], ctx, 0);
    assert CheckArgs([arg], ctx).0 == [{}];
    assert CheckArgs([arg][1..], ctx) == ([], []);
  }

  /** Exactly the contexts without an empty declared type explain every refusal. */
  lemma RefusalsExplainedIff(ctx: Context)
    ensures NoEmptyTypes(ctx) <==> forall n :: TypeCheck(n, ctx).ty.None? ==> TypeCheck(n, ctx).diags != []
  {
    hide TypeCheck, ResolveVariable;
    if NoEmptyTypes(ctx) {
      forall n | TypeCheck(n, ctx).ty.None?
        ensures TypeCheck(n, ctx).diags != []
      {
        assert NoEmptyIn(n, ctx);
        RefusalDiagnosed(n, ctx);
      }
    } else {
      var path :| ResolveVariable(path, ctx).ty == Some({});
      SilentRefusal(path, ctx);
    }
  }
}
