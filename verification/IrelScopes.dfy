/** Types against values: what a parameter schema admits, what a runtime scope holds, and that the inferred types are
    the kinds of those values, no more and no fewer. Nothing here is defined through the type inference. */
module IrelScopes {
  import opened IrelSyntax
  import opened Json
  import opened IrelTypes
  import opened IrelEval
  import opened IrelSoundness
  import opened IrelCompile
  import Reachability

  // ----- what a schema admits -----

  predicate Whole(j: Json) { j.JNum? && j.n == j.n.Floor as real }

  /** The JSON Schema type names. */
  predicate OfTypeName(j: Json, name: string) {
    || (name == "integer" && Whole(j)) || (name == "number" && j.JNum?) || (name == "string" && j.JStr?)
    || (name == "boolean" && j.JBool?) || (name == "null" && j.JNull?)
    || (name == "object" && j.JObj?) || (name == "array" && j.JArr?)
  }

  /** The value meets the `const`, `enum` and `type` keywords of the schema. */
  predicate Conforms(j: Json, schema: map<string, Json>) {
    && ("const" in schema ==> j == schema["const"])
    && ("enum" in schema && schema["enum"].JArr? ==> j in schema["enum"].items)
    && ("type" in schema && schema["type"].JStr? ==> OfTypeName(j, schema["type"].s))
    && ("type" in schema && schema["type"].JArr? ==>
         exists i :: 0 <= i < |schema["type"].items| && schema["type"].items[i].JStr?
           && OfTypeName(j, schema["type"].items[i].s))
  }

  predicate Scalar(j: Json) { !j.JArr? && !j.JObj? }

  /** A scalar of exactly this type. */
  predicate IsOf(j: Json, a: Atom) {
    match a
    case IntT => Whole(j)
    case NumberT => j.JNum? && !Whole(j)
    case StringT => j.JStr?
    case BooleanT => j.JBool?
    case NullT => j.JNull?
  }

  /** A scalar as a runtime value. */
  function ValueOf(j: Json): Value
    requires Scalar(j)
  {
    match j
    case JNull => Null
    case JBool(b) => Bool(b)
    case JNum(n) => Num(n)
    case JStr(s) => Str(s)
  }

  lemma ScalarsAreValues(j: Json)
    ensures Scalar(j) ==> ScalarOf(Some(j)) == Ok(ValueOf(j))
    ensures !Scalar(j) ==> ScalarOf(Some(j)).Err?
  {
  }

  // ----- the inferred type is sound -----

  lemma {:induction false} AtomsInclude(items: seq<Json>, f: Json -> Option<Atom>, i: nat)
    requires AtomsOf(items, f).Some? && i < |items|
    ensures f(items[i]).Some? && f(items[i]).value in AtomsOf(items, f).value
    decreases |items|
  {
    if i > 0 {
      AtomsInclude(items[1..], f, i - 1);
    }
  }

  lemma {:induction false} AtomsFrom(items: seq<Json>, f: Json -> Option<Atom>, a: Atom) returns (i: nat)
    requires AtomsOf(items, f).Some? && a in AtomsOf(items, f).value
    ensures i < |items| && f(items[i]) == Some(a)
    decreases |items|
  {
    if f(items[0]) == Some(a) {
      i := 0;
    } else {
      i := AtomsFrom(items[1..], f, a);
      i := i + 1;
    }
  }

  lemma LiteralIsOf(j: Json)
    ensures LiteralType(j).Some? <==> Scalar(j)
    ensures Scalar(j) ==> forall a :: LiteralType(j) == Some(a) <==> IsOf(j, a)
  {
  }

  /** A type name stands for the values it names. */
  lemma NameIsType(name: string, j: Json)
    requires SchemaTypeAtom(name).Some? && OfTypeName(j, name)
    ensures Scalar(j) && HasKind(ValueOf(j), {SchemaTypeAtom(name).value})
  {
  }

  /** Every value that conforms to a schema with an inferred type is a scalar of a kind in that type. */
  lemma InferenceSound(j: Json, schema: map<string, Json>)
    requires InferType(schema).Some? && Conforms(j, schema)
    ensures Scalar(j) && HasKind(ValueOf(j), InferType(schema).value)
  {
    hide OfTypeName;
    var fixed, choices, named := Field(schema, "const"), Field(schema, "enum"), Field(schema, "type");
    LiteralIsOf(j);
    if fixed.Some? && LiteralType(fixed.value).Some? {
      KindOfLiteral(j);
    } else if choices.Some? && choices.value.JArr? {
      var i :| 0 <= i < |choices.value.items| && choices.value.items[i] == j;
      AtomsInclude(choices.value.items, LiteralType, i);
      KindOfLiteral(j);
      KindGrows(ValueOf(j), LiteralType(j).value, InferType(schema).value);
    } else if named.value.JStr? {
      NameIsType(named.value.s, j);
    } else {
      var names := named.value.items;
      var i :| 0 <= i < |names| && names[i].JStr? && OfTypeName(j, names[i].s);
      AtomsInclude(names, TypeNameAtom, i);
      NameIsType(names[i].s, j);
      KindGrows(ValueOf(j), SchemaTypeAtom(names[i].s).value, InferType(schema).value);
    }
  }

  lemma KindOfLiteral(j: Json)
    requires Scalar(j)
    ensures LiteralType(j).Some? && HasKind(ValueOf(j), {LiteralType(j).value})
  {
  }

  lemma KindGrows(v: Value, a: Atom, t: Type)
    requires HasKind(v, {a}) && a in t
    ensures HasKind(v, t)
  {
  }

  // ----- and tight -----

  /** Only the keyword that decides the type is present. */
  predicate OneKeyword(schema: map<string, Json>) {
    schema.Keys == {"const"} || schema.Keys == {"enum"} || schema.Keys == {"type"}
  }

  function Example(a: Atom): Json {
    match a
    case IntT => JNum(0.0)
    case NumberT => JNum(0.5)
    case StringT => JStr("")
    case BooleanT => JBool(true)
    case NullT => JNull
  }

  lemma ExampleIsOf(a: Atom, name: string)
    requires SchemaTypeAtom(name) == Some(a)
    ensures OfTypeName(Example(a), name) && IsOf(Example(a), a)
  {
    assert (0.0).Floor == 0 && (0.5).Floor == 0;
  }

  /** Every inferred atom is the type of some conforming value. */
  lemma InferenceTight(schema: map<string, Json>, a: Atom) returns (j: Json)
    requires OneKeyword(schema) && InferType(schema).Some? && a in InferType(schema).value
    ensures Conforms(j, schema) && IsOf(j, a)
  {
    if schema.Keys == {"const"} {
      j := schema["const"];
      LiteralIsOf(j);
    } else if schema.Keys == {"enum"} {
      var i := AtomsFrom(schema["enum"].items, LiteralType, a);
      j := schema["enum"].items[i];
      LiteralIsOf(j);
    } else {
      j := Example(a);
      if schema["type"].JStr? {
        ExampleIsOf(a, schema["type"].s);
      } else {
        var i := AtomsFrom(schema["type"].items, TypeNameAtom, a);
        ExampleIsOf(a, schema["type"].items[i].s);
      }
    }
  }

  /** A type name without an inferred type admits no scalar. */
  lemma NoTypeNoScalar(name: string, j: Json)
    requires InferType(map["type" := JStr(name)]).None? && Conforms(j, map["type" := JStr(name)])
    ensures !Scalar(j)
  {
  }

  /** The schema cut down to one keyword. */
  function Only(schema: map<string, Json>, keyword: string): map<string, Json>
    requires keyword in schema
  {
    map[keyword := schema[keyword]]
  }

  /** `const` decides before `enum`, and `enum` before `type`; a keyword that does not have its own form does not
      count. */
  lemma KeywordOrder(schema: map<string, Json>)
    ensures "const" in schema && Scalar(schema["const"]) ==> InferType(schema) == InferType(Only(schema, "const"))
    ensures ("const" !in schema || !Scalar(schema["const"])) && "enum" in schema && schema["enum"].JArr? ==>
              InferType(schema) == InferType(Only(schema, "enum"))
    ensures ("const" !in schema || !Scalar(schema["const"])) && ("enum" !in schema || !schema["enum"].JArr?) ==>
              InferType(schema) == if "type" in schema then InferType(Only(schema, "type")) else None
  {
    if "const" in schema {
      LiteralIsOf(schema["const"]);
    }
  }

  /** A schema that names one type, or none, may have properties exactly when an object meets its type. */
  lemma ObjectIff(schema: map<string, Json>, o: map<string, Json>)
    requires "type" in schema ==> schema["type"].JStr?
    ensures CanBeObject(schema) <==> Conforms(JObj(o), if "type" in schema then Only(schema, "type") else map[])
  {
  }

  // ----- parameters along a path -----

  /** The schema of the property a path leads to. */
  function SchemaAt(schema: map<string, Json>, path: seq<string>): Option<map<string, Json>>
    decreases |path|
  {
    if path == [] then Some(schema)
    else if "properties" in schema && schema["properties"].JObj? && path[0] in schema["properties"].fields
         && schema["properties"].fields[path[0]].JObj?
    then SchemaAt(schema["properties"].fields[path[0]].fields, path[1..])
    else None
  }

  lemma {:induction false} PropertyHasSchema(path: seq<string>, schema: map<string, Json>)
    requires path != [] && ResolveProperty(path, schema).ty.Some?
    ensures SchemaAt(schema, path).Some? && InferType(SchemaAt(schema, path).value) == ResolveProperty(path, schema).ty
    decreases |path|
  {
    var child := Properties(schema)[path[0]].fields;
    if |path| == 1 {
      assert path[1..] == [];
      assert SchemaAt(child, path[1..]) == Some(child);
    } else {
      PropertyHasSchema(path[1..], child);
    }
  }

  // ----- what a scope holds -----

  /** What is stored under a path, whatever it is. */
  function Raw(scope: Scope, path: seq<string>): Option<Json> {
    if path == [] || path[0] !in scope then None else ReadPath(scope[path[0]], path[1..])
  }

  /** A stored value, if there is one, meets a test. */
  predicate Holds(scope: Scope, path: seq<string>, test: Json -> bool) {
    Raw(scope, path).Some? ==> test(Raw(scope, path).value)
  }

  predicate TextOrNull(j: Json) { j.JStr? || j.JNull? }

  /** The outputs of a node: counts and codes are whole numbers, the rest texts, and one truth value. */
  predicate NodeOutputs(scope: Scope, id: string) {
    && Holds(scope, ["node", id, "row_count"], Whole)
    && Holds(scope, ["node", id, "http_status"], Whole)
    && Holds(scope, ["node", id, "http_ok"], (j: Json) => j.JBool?)
    && Holds(scope, ["node", id, "status"], (j: Json) => j.JStr?)
    && Holds(scope, ["node", id, "extracted_ref"], (j: Json) => j.JStr?)
    && Holds(scope, ["node", id, "tier"], (j: Json) => j.JStr?)
    && Holds(scope, ["node", id, "decision"], (j: Json) => j.JStr?)
  }

  /** The scope an interpreter keeps: parameters conform to their schema, node outputs have their forms, flags are truth
      values, loop counters whole numbers, the cursor a text or null, and corrections fit their form fields. */
  ghost predicate WellShaped(scope: Scope, ctx: Context) {
    && (ctx.params.Some? ==> forall path :: SchemaAt(ctx.params.value, path).Some? ==>
          Holds(scope, ["params"] + path, (j: Json) => Conforms(j, SchemaAt(ctx.params.value, path).value)))
    && (forall id :: NodeOutputs(scope, id))
    && (forall flag :: Holds(scope, ["flags", flag], (j: Json) => j.JBool?))
    && (forall counter :: Holds(scope, ["loop", counter], Whole))
    && Holds(scope, ["cursor", "last_review_id"], TextOrNull)
    && (forall id, key :: id in ctx.humanTasks && key in ctx.humanTasks[id] ==>
          Holds(scope, ["node", id, "correction", key],
            (j: Json) => Scalar(j) && HasKind(ValueOf(j), ctx.humanTasks[id][key])))
  }

  lemma {:induction false} ReadJoined(root: Json, a: seq<string>, b: seq<string>)
    ensures ReadPath(root, a + b) == match ReadPath(root, a) case None => None case Some(j) => ReadPath(j, b)
    decreases |a|
  {
    if a == [] {
      assert a + b == b;
    } else {
      assert (a + b)[0] == a[0] && (a + b)[1..] == a[1..] + b;
      if root.JObj? && a[0] in root.fields {
        ReadJoined(root.fields[a[0]], a[1..], b);
      }
    }
  }

  /** The variables an expression can read at run time. */
  predicate Named(path: seq<string>) {
    && |path| >= 2
    && (path[0] == "params" || path[0] == "cursor" || path[0] == "flags" || path[0] == "loop"
        || (path[0] == "node" && (|path| == 3 || |path| == 4)))
  }

  /** Resolving reads exactly what is stored under the path of a variable, if that is a scalar. */
  lemma ResolveReads(path: seq<string>, scope: Scope)
    ensures Resolve(path, scope) ==
            if Named(path) && Raw(scope, path).Some? && Scalar(Raw(scope, path).value)
            then Ok(ValueOf(Raw(scope, path).value)) else Err(Missing)
  {
    if Raw(scope, path).Some? {
      ScalarsAreValues(Raw(scope, path).value);
    }
    if Named(path) && path[0] == "node" && "node" in scope {
      assert path[1..] == [path[1]] + path[2..];
      ReadJoined(scope["node"], [path[1]], path[2..]);
      ReadInside(ReadPath(scope["node"], [path[1]]), path[2..]);
    }
  }

  /** Nothing is stored inside what is not an object. */
  lemma ReadInside(j: Option<Json>, path: seq<string>)
    requires path != []
    ensures j.Some? && !j.value.JObj? ==> ReadPath(j.value, path).None?
  {
  }

  // ----- well-shaped scopes supply what the types promise -----

  lemma ParamSupplied(path: seq<string>, ctx: Context, scope: Scope)
    requires WellShaped(scope, ctx) && path != [] && path[0] == "params"
    requires ResolveVariable(path, ctx).ty.Some? && Raw(scope, path).Some?
    ensures Supplied(path, ctx, scope)
  {
    hide Resolve, ReadPath, Conforms, InferType, ResolveProperty, SchemaAt;
    var schema, rest := ctx.params.value, path[1..];
    PropertyHasSchema(rest, schema);
    assert ["params"] + rest == path;
    assert Holds(scope, ["params"] + rest, (j: Json) => Conforms(j, SchemaAt(schema, rest).value));
    InferenceSound(Raw(scope, path).value, SchemaAt(schema, rest).value);
    ResolveReads(path, scope);
  }

  lemma OtherSupplied(path: seq<string>, ctx: Context, scope: Scope)
    requires WellShaped(scope, ctx) && path != [] && path[0] != "params" && path[0] != "node"
    requires ResolveVariable(path, ctx).ty.Some? && Raw(scope, path).Some?
    ensures Supplied(path, ctx, scope)
  {
    hide Resolve, ReadPath;
    assert path == [path[0], path[1]];
    assert Holds(scope, ["flags", path[1]], (j: Json) => j.JBool?);
    assert Holds(scope, ["loop", path[1]], Whole);
    ResolveReads(path, scope);
  }

  lemma NodeSupplied(path: seq<string>, ctx: Context, scope: Scope)
    requires WellShaped(scope, ctx) && path != [] && path[0] == "node"
    requires ResolveVariable(path, ctx).ty.Some? && Raw(scope, path).Some?
    ensures Supplied(path, ctx, scope)
  {
    hide Resolve, ReadPath, Reachability.ReachesPlus;
    assert NodeOutputs(scope, path[1]);
    if |path| == 3 {
      assert path == ["node", path[1], path[2]];
    } else {
      assert path == ["node", path[1], path[2], path[3]];
    }
    ResolveReads(path, scope);
  }

  /** Everything the expression reads is there. */
  ghost predicate Present(n: Node, ctx: Context, scope: Scope) {
    forall path :: Mentions(n, path) && ResolveVariable(path, ctx).ty.Some? ==> Raw(scope, path).Some?
  }

  /** A well-shaped scope in which everything is there supplies every variable at the kind it was checked with. */
  lemma ShapedSupplies(n: Node, ctx: Context, scope: Scope)
    requires WellShaped(scope, ctx) && Present(n, ctx, scope)
    ensures Supplies(scope, ctx, n)
  {
    hide WellShaped, ResolveVariable, Resolve, Raw, Mentions;
    forall path | Mentions(n, path)
      ensures Supplied(path, ctx, scope)
    {
      if ResolveVariable(path, ctx).ty.Some? {
        NonEmptyPath(path, ctx);
        if path[0] == "params" {
          ParamSupplied(path, ctx, scope);
        } else if path[0] == "node" {
          NodeSupplied(path, ctx, scope);
        } else {
          OtherSupplied(path, ctx, scope);
        }
      }
    }
  }

  lemma NonEmptyPath(path: seq<string>, ctx: Context)
    requires ResolveVariable(path, ctx).ty.Some?
    ensures path != []
  {
  }

  /** A compiled condition decides in every well-shaped scope that has what it reads. */
  lemma CompiledDecidesShaped(text: string, ctx: Context, scope: Scope, dates: Dates)
    requires CompileCondition(text, ctx).Compiled? && WellShaped(scope, ctx)
    requires Present(CompileCondition(text, ctx).ast, ctx, scope)
    ensures Decides(CompileCondition(text, ctx).ast, scope, dates)
  {
    hide CompileCondition, WellShaped, Present, Supplies, Decides;
    ShapedSupplies(CompileCondition(text, ctx).ast, ctx, scope);
    CompiledDecides(text, ctx, scope, dates);
  }
}
