/** Compiling an IREL condition (codegen/irel-compile.ts `compileIrelExpression`): parse, then type check
    against `boolean`. The checker methods are the executable form of the typing functions. */
module IrelCompile {
  import opened IrelSyntax
  import opened IrelPrinter
  import opened IrelTypes
  import opened IrelEval
  import opened IrelSoundness
  import IrelLexer
  import IrelParser
  import opened Graphs
  import opened Reachability

  datatype Compiled = Compiled(ast: Node) | Refused(diags: seq<Reason>)

  /** A condition: the expression must be of type boolean. */
  ghost function CompileCondition(text: string, ctx: Context): Compiled {
    match ParseText(text)
    case None => Refused([ParseError])
    case Some(ast) =>
      var c := TypeCheckExpression(ast, ctx, Some(BooleanT));
      if c.ty.Some? then Compiled(ast) else Refused(c.diags)
  }

  method CheckVariable(path: seq<string>, ctx: Context) returns (c: Checked)
    requires ctx.graph.Valid()
    ensures c == ResolveVariable(path, ctx)
  {
    if path == [] { return Refuse(UnknownVariable); }
    if path[0] == "node" {
      c := CheckNode(path, ctx);
    } else if path[0] == "params" {
      if |path| == 1 || ctx.params.None? { return Refuse(UnknownVariable); }
      if !CanBeObject(ctx.params.value) { return Refuse(ParamsSchemaInvalid); }
      c := ResolvePropertyLoop(path[1..], ctx.params.value);
    } else if path[0] == "flags" {
      c := if |path| == 2 && path[1] in FLAGS then Accept({BooleanT}) else Refuse(UnknownFlag);
    } else if path[0] == "loop" {
      c := if !ctx.allowLoop then Refuse(LoopScopeViolation)
           else if |path| == 2 && (path[1] == "iteration" || path[1] == "page_count") then Accept({IntT})
           else Refuse(UnknownVariable);
    } else if path[0] == "cursor" {
      c := if |path| == 2 && path[1] == "last_review_id" then Accept({StringT, NullT}) else Refuse(UnknownVariable);
    } else {
      c := Refuse(UnknownVariable);
    }
  }

  method CheckNode(path: seq<string>, ctx: Context) returns (c: Checked)
    requires ctx.graph.Valid()
    ensures c == ResolveNode(path, ctx)
  {
    if |path| < 3 { return Refuse(UnknownVariable); }
    var fieldType := NodeFieldType(path, ctx);
    if fieldType.None? { return Refuse(UnknownNodeField); }
    if path[1] !in ctx.nodeIds { return Refuse(UnknownVariable); }
    if path[1] !in ctx.priors {
      var prior := false;
      if path[1] != ctx.current {
        prior := IsAncestor(path[1], ctx.current, ctx.graph);
      }
      if !prior { return Refuse(ForwardRef); }
    }
    return Accept(fieldType.value);
  }

  method Check(n: Node, ctx: Context) returns (c: Checked)
    requires ctx.graph.Valid()
    ensures c == TypeCheck(n, ctx)
    decreases n, 0
  {
    match n
    case Literal(ty, _, _) => c := Accept({ty});
    case Variable(path, _) => c := CheckVariable(path, ctx);
    case Unary(e, _) =>
      c := Check(e, ctx);
      if c.ty.Some? {
        c := if c.ty.value != {BooleanT} then Checked(None, c.diags + [TypeError])
            else Checked(Some({BooleanT}), c.diags);
      }
    case Binary(_, l, r, _) =>
      var a := Check(l, ctx);
      var b := Check(r, ctx);
      c := CheckPair(n, a, b);
    case Compare(_, l, r, _) =>
      var a := Check(l, ctx);
      var b := Check(r, ctx);
      c := CheckPair(n, a, b);
    case Logical(_, l, r, _) =>
      var a := Check(l, ctx);
      var b := Check(r, ctx);
      c := CheckPair(n, a, b);
    case Call(name, args, _) =>
      var types, diags := CheckAll(args, ctx);
      if {} in types {
        c := Checked(None, diags);
      } else {
        var s := CheckSignature(name, types);
        c := Checked(s.ty, diags + s.diags);
      }
  }

  method CheckAll(args: seq<Node>, ctx: Context) returns (types: seq<Type>, diags: seq<Reason>)
    requires ctx.graph.Valid()
    ensures (types, diags) == CheckArgs(args, ctx)
    decreases args, 0
  {
    if args == [] { return [], []; }
    var first := Check(args[0], ctx);
    types, diags := CheckAll(args[1..], ctx);
    types := [if first.ty.Some? then first.ty.value else {}] + types;
    diags := first.diags + diags;
  }

  method Compile(text: string, ctx: Context) returns (r: Compiled)
    requires ctx.graph.Valid()
    ensures r == CompileCondition(text, ctx)
  {
    hide ParseText, TypeCheck;
    var ast := ParseExpression(text);
    if ast.None? { return Refused([ParseError]); }
    var c := Check(ast.value, ctx);
    if c.ty.None? { return Refused(c.diags); }
    var diags := if c.ty.value != {BooleanT} then c.diags + [TypeError] else c.diags;
    return if diags == [] then Compiled(ast.value) else Refused(diags);
  }

  // ----- what compiling guarantees -----

  /** Trees the parser builds have honest literals. */
  lemma {:induction false} FitsHonest(n: Node, level: nat)
    requires Fits(n, level)
    ensures Honest(n)
    decreases n
  {
    match n
    case Literal(_, _, _) =>
    case Variable(_, _) =>
    case Call(_, args, _) =>
      forall i | 0 <= i < |args| ensures Honest(args[i]) { FitsHonest(args[i], OR); }
    case Unary(e, _) => FitsHonest(e, ADDITIVE);
    case Binary(_, l, r, _) =>
      FitsHonest(l, ADDITIVE);
      FitsHonest(r, PRIMARY);
    case Compare(_, l, r, _) =>
      FitsHonest(l, ADDITIVE);
      FitsHonest(r, ADDITIVE);
    case Logical(op, l, r, _) =>
      FitsHonest(l, if op == And then AND else if IrelParser.IsUngroupedLogical(l, Or) then OR else NOT);
      FitsHonest(r, NOT);
  }

  /** A boolean, or a malformed date in an expression that compares dates. */
  ghost predicate Decides(ast: Node, scope: Scope, dates: Dates) {
    match Eval(ast, scope, dates)
    case Ok(v) => v.Bool?
    case Err(cause) => cause == BadDate && UsesDates(ast)
  }

  /** A compiled condition is a parse of its text and decides in every scope that supplies its variables. */
  lemma CompiledDecides(text: string, ctx: Context, scope: Scope, dates: Dates)
    requires CompileCondition(text, ctx).Compiled?
    requires Supplies(scope, ctx, CompileCondition(text, ctx).ast)
    ensures ParseText(text) == Some(CompileCondition(text, ctx).ast)
    ensures Decides(CompileCondition(text, ctx).ast, scope, dates)
  {
    hide Fits, TypeCheck, Honest, Eval;
    var ast := CompileCondition(text, ctx).ast;
    ParseSound(text);
    FitsHonest(ast, OR);
    TypeSoundness(ast, ctx, scope, dates);
  }

  /** A variable that can be written in a text. */
  predicate Writable(path: seq<string>) {
    path != [] && forall i :: 0 <= i < |path| ==> IsIdent(path[i])
  }

  /** No variable that can be written is declared with an empty type. */
  ghost predicate NoEmptyWritable(ctx: Context) {
    forall path :: Writable(path) ==> ResolveVariable(path, ctx).ty != Some({})
  }

  /** Parsed trees mention only variables that can be written. */
  lemma {:induction false} FitsWritable(n: Node, level: nat, path: seq<string>)
    requires Fits(n, level) && Mentions(n, path)
    ensures Writable(path)
    decreases n
  {
    match n
    case Variable(_, _) =>
    case Call(_, args, _) =>
      var i :| 0 <= i < |args| && Mentions(args[i], path);
      FitsWritable(args[i], OR, path);
    case Unary(e, _) => FitsWritable(e, ADDITIVE, path);
    case Binary(_, l, r, _) =>
      if Mentions(l, path) { FitsWritable(l, ADDITIVE, path); } else { FitsWritable(r, PRIMARY, path); }
    case Compare(_, l, r, _) => FitsWritable(if Mentions(l, path) then l else r, ADDITIVE, path);
    case Logical(op, l, r, _) =>
      if Mentions(l, path) {
        FitsWritable(l, if op == And then AND else if IrelParser.IsUngroupedLogical(l, Or) then OR else NOT, path);
      } else {
        FitsWritable(r, NOT, path);
      }
  }

  /** Where no writable variable has an empty type a condition is compiled or refused with a reason, never dropped. */
  lemma NeverDropped(text: string, ctx: Context)
    requires NoEmptyWritable(ctx)
    ensures CompileCondition(text, ctx) != Refused([])
  {
    hide IrelLexer.Lex, IrelParser.Parse, TypeCheck, ResolveVariable, Fits, Mentions, Writable;
    if ParseText(text).Some? {
      var ast := ParseText(text).value;
      if TypeCheck(ast, ctx).ty.None? {
        ParseSound(text);
        forall path | Mentions(ast, path)
          ensures ResolveVariable(path, ctx).ty != Some({})
        {
          FitsWritable(ast, OR, path);
        }
        RefusalDiagnosed(ast, ctx);
      }
    }
  }

  /** ... and a writable variable of empty type drops a condition: it compiles to nothing and reports nothing. */
  lemma SomeDropped(path: seq<string>, ctx: Context) returns (text: string)
    requires Writable(path) && ResolveVariable(path, ctx).ty == Some({})
    ensures CompileCondition(text, ctx) == Refused([])
  {
    hide ParseText, TypeCheck, ResolveVariable, Print;
    var arg := Variable(path, false);
    var n := Call("is_null", [arg], false);
    assert Fits(arg, OR);
    assert Fits(n, OR);
    TextRoundTrip(n);
    SilentRefusal(path, ctx);
    text := IrelLexer.Render(Print(n));
  }

  /** Exactly the contexts without a writable variable of empty type drop no condition text. */
  lemma DroppedIff(ctx: Context)
    ensures NoEmptyWritable(ctx) <==> forall text :: CompileCondition(text, ctx) != Refused([])
  {
    hide CompileCondition, ResolveVariable, Writable;
    if NoEmptyWritable(ctx) {
      forall text
        ensures CompileCondition(text, ctx) != Refused([])
      {
        NeverDropped(text, ctx);
      }
    } else {
      var path :| Writable(path) && ResolveVariable(path, ctx).ty == Some({});
      var text := SomeDropped(path, ctx);
    }
  }
}
