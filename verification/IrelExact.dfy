/** The operator rules of the type checker are exact: an operator is refused on operand types only if some values of
    those types make the evaluator fail, or, for equality, if nothing but null and numbers could ever be equal. */
module IrelExact {
  import opened IrelSyntax
  import opened Json
  import opened Graphs
  import opened IrelTypes
  import opened IrelEval
  import opened IrelSoundness
  import opened IrelScopes

  /** A value of every type. */
  function Sample(a: Atom): Value {
    match a
    case IntT => Num(0.0)
    case NumberT => Num(0.5)
    case StringT => Str("")
    case BooleanT => Bool(true)
    case NullT => Null
  }

  lemma SampleKind(a: Atom, t: Type)
    requires a in t
    ensures HasKind(Sample(a), t)
  {
  }

  /** What the evaluator makes of an operator and two values. */
  function Combine(n: Node, a: Value, b: Value): Outcome
    requires n.Binary? || n.Compare? || n.Logical?
  {
    if n.Binary? then Arith(n.arith, Ok(a), Ok(b))
    else if n.Logical? then Logic(n.logic, Ok(a), Ok(b))
    else Relate(n.rel, Ok(a), Ok(b))
  }

  lemma CombineIsEval(n: Node, scope: Scope, dates: Dates)
    requires n.Binary? || n.Compare? || n.Logical?
    requires Eval(n.left, scope, dates).Ok? && Eval(n.right, scope, dates).Ok?
    ensures Eval(n, scope, dates) == Combine(n, Eval(n.left, scope, dates).v, Eval(n.right, scope, dates).v)
  {
  }

  /** Every pair of values of these types goes together. */
  ghost predicate AlwaysWorks(n: Node, l: Type, r: Type)
    requires n.Binary? || n.Compare? || n.Logical?
  {
    forall a, b :: HasKind(a, l) && HasKind(b, r) ==> Combine(n, a, b).Ok?
  }

  /** Sums, comparisons by order and connectives are accepted exactly on types whose values always go together. */
  lemma OperatorExact(n: Node, l: Type, r: Type)
    requires n.Binary? || n.Logical? || (n.Compare? && n.rel != Eq && n.rel != Ne)
    requires l != {} && r != {}
    ensures PairType(n, l, r).Some? <==> AlwaysWorks(n, l, r)
  {
    if PairType(n, l, r).None? {
      var good: Type := if n.Logical? then {BooleanT} else NUMERIC;
      if !(l <= good) {
        var x :| x in l && x !in good;
        var y :| y in r;
        SampleKind(x, l);
        SampleKind(y, r);
        assert Combine(n, Sample(x), Sample(y)).Err?;
      } else {
        assert !(r <= good) by { SubsetFull(n, l, r); }
        var x :| x in l;
        var y :| y in r && y !in good;
        SampleKind(x, l);
        SampleKind(y, r);
        assert Combine(n, Sample(x), Sample(y)).Err?;
      }
    }
  }

  lemma SubsetFull(n: Node, l: Type, r: Type)
    requires n.Binary? || n.Logical? || (n.Compare? && n.rel != Eq && n.rel != Ne)
    requires l != {} && r != {} && PairType(n, l, r).None?
    requires l <= if n.Logical? then {BooleanT} else NUMERIC
    ensures !(r <= if n.Logical? then {BooleanT} else NUMERIC)
  {
    OnlyMember(l, BooleanT);
    OnlyMember(r, BooleanT);
  }

  lemma OnlyMember(t: Type, a: Atom)
    ensures t != {} && t <= {a} ==> t == {a}
  {
    assert t <= {a} && a !in t ==> t == {};
  }

  /** Negation is accepted exactly on the boolean type. */
  lemma NegationExact(e: Node, ctx: Context)
    requires TypeCheck(e, ctx).ty.Some? && TypeCheck(e, ctx).ty.value != {}
    ensures TypeCheck(Unary(e, false), ctx).ty.Some?
            <==> forall v :: HasKind(v, TypeCheck(e, ctx).ty.value) ==> v.Bool?
  {
    var t := TypeCheck(e, ctx).ty.value;
    if t != {BooleanT} {
      var x :| x in t && x != BooleanT;
      SampleKind(x, t);
      assert !Sample(x).Bool?;
    }
  }

  /** Equality is refused only where equal values could be nothing but null or numbers; and where it is accepted and
      neither side is null for certain, some values other than null are equal. */
  lemma EqualityExact(l: Type, r: Type)
    requires l != {} && r != {}
    ensures !CanCompare(l, r) ==> forall v :: HasKind(v, l) && HasKind(v, r) ==> v == Null || v.Num?
    ensures CanCompare(l, r) && l != {NullT} && r != {NullT} ==> exists v :: v != Null && HasKind(v, l) && HasKind(v, r)
  {
    if CanCompare(l, r) && l != {NullT} && r != {NullT} {
      if IsNumeric(l) && IsNumeric(r) {
        var x, y :| x in l && y in r;
        assert HasKind(Num(0.0), l) && HasKind(Num(0.0), r);
      } else {
        var a :| a in l && a != NullT && a in r;
        SampleKind(a, l);
        SampleKind(a, r);
      }
    }
  }

  // ----- whole numbers stay whole -----

  /** The value has exactly one of the types: whole numbers are told apart here. */
  predicate Exactly(v: Value, a: Atom) {
    match a
    case IntT => v.Num? && v.n == v.n.Floor as real
    case NumberT => v.Num? && v.n != v.n.Floor as real
    case StringT => v.Str?
    case BooleanT => v.Bool?
    case NullT => v == Null
  }

  predicate Within(v: Value, t: Type) {
    (exists a :: a in t && Exactly(v, a)) || (NumberT in t && v.Num?)
  }

  lemma WholeSums(x: real, y: real)
    requires x == x.Floor as real && y == y.Floor as real
    ensures x + y == (x + y).Floor as real && x - y == (x - y).Floor as real
  {
    var i, j := x.Floor, y.Floor;
    assert x + y == (i + j) as real && x - y == (i - j) as real;
    assert ((i + j) as real).Floor == i + j && ((i - j) as real).Floor == i - j;
  }

  /** The type of a sum is exact: it holds every sum of values of the operand types, and each of its atoms is
      attained. */
  lemma SumTypeExact(op: ArithOp, l: Type, r: Type)
    requires IsNumeric(l) && IsNumeric(r)
    ensures var n := Binary(op, Literal(NullT, Null, false), Literal(NullT, Null, false), false);
            var t := PairType(n, l, r);
            && t.Some?
            && (forall a, b :: Within(a, l) && Within(b, r) ==>
                  Combine(n, a, b).Ok? && Within(Combine(n, a, b).v, t.value))
            && (forall x :: x in t.value ==>
                  exists a, b :: Within(a, l) && Within(b, r) && Exactly(Combine(n, a, b).v, x))
  {
    var n := Binary(op, Literal(NullT, Null, false), Literal(NullT, Null, false), false);
    var t := PairType(n, l, r).value;
    forall a, b | Within(a, l) && Within(b, r)
      ensures Combine(n, a, b).Ok? && Within(Combine(n, a, b).v, t)
    {
      if NumberT !in t {
        WholeSums(a.n, b.n);
        assert Exactly(Combine(n, a, b).v, IntT);
      }
    }
    var x, y :| x in l && y in r;
    if NumberT in t {
      var a, b := if NumberT in l then Num(0.5) else Num(0.0), if NumberT in l then Num(0.0) else Num(0.5);
      Halves();
      assert NumberT !in l ==> l == {IntT};
      assert Exactly(Num(0.0), IntT);
      assert Within(a, l) && Within(b, r) && Exactly(Combine(n, a, b).v, NumberT);
    } else {
      assert l == {IntT} && r == {IntT};
      Halves();
      assert Exactly(Num(0.0), IntT) && Within(Num(0.0), l) && Within(Num(0.0), r);
      assert Exactly(Combine(n, Num(0.0), Num(0.0)).v, IntT);
    }
  }

  lemma Halves()
    ensures (0.0).Floor == 0 && (0.5).Floor == 0 && (-0.5).Floor == -1
  {
  }

  // ----- calls -----

  function Given(vs: seq<Value>): seq<Node> {
    seq(|vs|, i requires 0 <= i < |vs| => Literal(NullT, vs[i], false))
  }

  predicate AllKinds(vs: seq<Value>, types: seq<Type>) {
    |vs| == |types| && forall i :: 0 <= i < |vs| ==> HasKind(vs[i], types[i])
  }

  /** Every choice of argument values of these types evaluates, unreadable dates excepted. */
  ghost predicate CallWorks(name: string, types: seq<Type>) {
    forall vs, dates: Dates :: AllKinds(vs, types) ==>
      var o := Eval(Call(name, Given(vs), false), map[], dates); o.Ok? || o == Err(BadDate)
  }

  /** A choice of values with a given one at a given place. */
  ghost function Samples(types: seq<Type>, i: nat, v: Value): seq<Value>
    requires i < |types| && forall k :: 0 <= k < |types| ==> types[k] != {}
  {
    seq(|types|, k requires 0 <= k < |types| => if k == i then v else (var x :| x in types[k]; Sample(x)))
  }

  lemma SamplesKinds(types: seq<Type>, i: nat, v: Value)
    requires i < |types| && HasKind(v, types[i]) && forall k :: 0 <= k < |types| ==> types[k] != {}
    ensures AllKinds(Samples(types, i, v), types)
    ensures forall k :: 0 <= k < |types| && k != i && Samples(types, i, v)[k].Str? ==>
              Samples(types, i, v)[k] == Str("")
  {
    var vs := Samples(types, i, v);
    forall k | 0 <= k < |vs|
      ensures HasKind(vs[k], types[k]) && (k != i && vs[k].Str? ==> vs[k] == Str(""))
    {
      if k != i {
        var x :| x in types[k] && vs[k] == Sample(x);
        SampleKind(x, types[k]);
      }
    }
  }

  lemma GivenEval(vs: seq<Value>, i: nat, dates: Dates)
    requires i < |vs|
    ensures Eval(Given(vs)[i], map[], dates) == Ok(vs[i])
  {
  }

  /** A call is accepted exactly where it has the right number of arguments and every choice of values of their types
      evaluates, `coalesce` apart. */
  lemma SignatureExact(name: string, types: seq<Type>)
    requires name != "coalesce" && forall k :: 0 <= k < |types| ==> types[k] != {}
    ensures CheckSignature(name, types).ty.Some? <==> Arity(name) == Some(|types|) && CallWorks(name, types)
  {
    hide Eval;
    if CheckSignature(name, types).ty.Some? {
      forall vs, dates: Dates | AllKinds(vs, types)
        ensures var o := Eval(Call(name, Given(vs), false), map[], dates); o.Ok? || o == Err(BadDate)
      {
        AcceptedCallWorks(name, types, vs, dates);
      }
    } else if Arity(name) == Some(|types|) {
      RefusedCallFails(name, types);
    }
  }

  lemma AcceptedCallWorks(name: string, types: seq<Type>, vs: seq<Value>, dates: Dates)
    requires name != "coalesce" && CheckSignature(name, types).ty.Some? && AllKinds(vs, types)
    ensures Arity(name) == Some(|types|)
    ensures var o := Eval(Call(name, Given(vs), false), map[], dates); o.Ok? || o == Err(BadDate)
  {
    hide Resolve, Millis, Contains;
    GivenEval(vs, 0, dates);
    StringOnly(types[0], vs[0]);
    if |vs| == 2 {
      GivenEval(vs, 1, dates);
      StringOnly(types[1], vs[1]);
    }
  }

  lemma StringOnly(t: Type, v: Value)
    ensures IsAssignable(t, {StringT}) && HasKind(v, t) ==> v.Str?
  {
  }

  lemma NotString(t: Type) returns (v: Value)
    requires t != {} && !IsAssignable(t, {StringT})
    ensures HasKind(v, t) && !v.Str?
  {
    var x :| x in t && x != StringT;
    SampleKind(x, t);
    v := Sample(x);
  }

  lemma EmptyDate(dates: Dates)
    requires dates("") == Some(0)
    ensures Millis("", dates) == Some(0)
  {
  }

  lemma RefusedCallFails(name: string, types: seq<Type>)
    requires name != "coalesce" && CheckSignature(name, types).ty.None? && Arity(name) == Some(|types|)
    requires forall k :: 0 <= k < |types| ==> types[k] != {}
    ensures !CallWorks(name, types)
  {
    hide Resolve, Millis, Contains;
    var i :| 0 <= i < |types| && !IsAssignable(types[i], {StringT});
    var v := NotString(types[i]);
    var vs := Samples(types, i, v);
    SamplesKinds(types, i, v);
    assert vs[i] == v;
    var dates: Dates := s => Some(0);
    GivenEval(vs, 0, dates);
    if |vs| == 2 {
      GivenEval(vs, 1, dates);
    }
    EmptyDate(dates);
    assert Eval(Call(name, Given(vs), false), map[], dates) == Err(WrongKind);
  }

  /** The result type of an accepted call is attained. */
  lemma ResultAttained(name: string, types: seq<Type>, x: Atom) returns (vs: seq<Value>, dates: Dates)
    requires name != "coalesce" && CheckSignature(name, types).ty.Some? && x in CheckSignature(name, types).ty.value
    requires forall k :: 0 <= k < |types| ==> types[k] != {}
    ensures AllKinds(vs, types)
    ensures var o := Eval(Call(name, Given(vs), false), map[], dates); o.Ok? && Exactly(o.v, x)
  {
    hide Resolve, Millis, Contains;
    dates := s => Some(0);
    EmptyDate(dates);
    var a :| a in types[0];
    SampleKind(a, types[0]);
    vs := Samples(types, 0, Sample(a));
    SamplesKinds(types, 0, Sample(a));
    GivenEval(vs, 0, dates);
    StringOnly(types[0], vs[0]);
    if |vs| == 2 {
      GivenEval(vs, 1, dates);
      StringOnly(types[1], vs[1]);
    }
    Halves();
  }

  /** `coalesce` is accepted only where its first argument can be null and every fallback fits what the first can be
      otherwise; it is accepted there if the fallback has no further types; its type then leaves out null, unless the
      fallback brings it in. */
  lemma CoalesceExact(first: Type, second: Type)
    requires first != {} && second != {}
    ensures var c := CheckCoalesce([first, second]); var other := first - {NullT};
            && (c.ty.Some? ==>
                  HasKind(Null, first) && (other != {} ==> forall v :: HasKind(v, second) ==> HasKind(v, other)))
            && (HasKind(Null, first) && (other == {} || second <= other) ==> c.ty.Some?)
            && (c.ty.Some? ==> c.ty == Some(if other != {} then other else second))
            && (c.ty.Some? && NullT !in second ==> NullT !in c.ty.value)
  {
  }

  // ----- a documented condition -----

  const MAX_PAGES: map<string, Json> := map[
    "type" := JStr("object"), "properties" := JObj(map["max_pages" := JObj(map["type" := JStr("integer")])])]

  function Var(names: seq<string>): Node { Variable(names, false) }

  /** `flags.no_next_page || flags.cursor_reached || loop.page_count >= params.max_pages` */
  function UntilLastPage(): Node {
    Logical(
      Or,
      Logical(Or, Var(["flags", "no_next_page"]), Var(["flags", "cursor_reached"]), false),
      Compare(Ge, Var(["loop", "page_count"]), Var(["params", "max_pages"]), false),
      false)
  }

  /** It is of boolean type in a loop whose scenario declares an integer `max_pages`, and of none outside a loop. */
  lemma UntilChecked(ctx: Context)
    requires ctx.params == Some(MAX_PAGES)
    ensures TypeCheck(UntilLastPage(), ctx).ty == if ctx.allowLoop then Some({BooleanT}) else None
  {
    assert ["params", "max_pages"][1..] == ["max_pages"];
    assert InferType(map["type" := JStr("integer")]) == Some({IntT});
    assert ResolveProperty(["max_pages"], MAX_PAGES) == Accept({IntT});
    assert ResolveVariable(["params", "max_pages"], ctx) == Accept({IntT});
    assert TypeCheck(Var(["params", "max_pages"]), ctx) == Accept({IntT});
    assert TypeCheck(Var(["flags", "no_next_page"]), ctx) == Accept({BooleanT});
    assert TypeCheck(Var(["flags", "cursor_reached"]), ctx) == Accept({BooleanT});
  }

  // ----- the closed vocabulary -----

  /** The names that expressions may use under each root, as the language document lists them. */
  lemma Vocabulary(ctx: Context, id: string, name: string)
    ensures ResolveVariable(["flags", name], ctx).ty.Some? <==>
              || name == "no_next_page" || name == "cursor_reached" || name == "login_required" || name == "blocked"
              || name == "not_found" || name == "no_review_message_visible" || name == "reviews_visible"
    ensures ResolveVariable(["loop", name], ctx).ty.Some? <==>
            ctx.allowLoop && (name == "iteration" || name == "page_count")
    ensures ResolveVariable(["cursor", name], ctx).ty.Some? <==> name == "last_review_id"
    ensures id in ctx.nodeIds && id in ctx.priors ==>
              (ResolveVariable(["node", id, name], ctx).ty.Some? <==>
                 || name == "row_count" || name == "status" || name == "extracted_ref" || name == "tier"
                 || name == "http_status" || name == "http_ok" || (name == "decision" && id in ctx.humanTasks))
  {
  }
}
