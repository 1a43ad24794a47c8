/** The IREL type checker (codegen/irel-compile.ts `typeCheck`, `typeCheckCall`, `resolveVariable` and helpers).
    A type is a set of atoms; a check delivers a type or none, and the diagnostics it pushed. */
module IrelTypes {
  import opened IrelSyntax
  import opened Json
  import opened Graphs
  import opened Reachability

  type Type = set<Atom>

  /** The `reason` of a diagnostic; it determines the source's error code. */
  datatype Reason =
    | UnknownVariable | UnknownFlag | UnknownNodeField | UnknownFunction
    | TypeError | ForwardRef | LoopScopeViolation | ParamsSchemaInvalid | ParseError

  datatype Context = Context(
    current: Id,
    nodeIds: set<Id>,
    graph: Graph,
    params: Option<map<string, Json>>,
    priors: set<Id>,
    allowLoop: bool,
    humanTasks: map<Id, map<string, Type>>)

  datatype Checked = Checked(ty: Option<Type>, diags: seq<Reason>)

  function Accept(t: Type): Checked { Checked(Some(t), []) }

  function Refuse(r: Reason): Checked { Checked(None, [r]) }

  // ----- type sets -----

  const NUMERIC: Type := {IntT, NumberT}

  predicate IsNumeric(t: Type) { t != {} && t <= NUMERIC }

  predicate CanCompare(l: Type, r: Type) {
    l == {NullT} || r == {NullT} || (IsNumeric(l) && IsNumeric(r)) || (exists a :: a in l && a != NullT && a in r)
  }

  predicate IsAssignable(actual: Type, expected: Type) {
    && expected != {} && actual != {}
    && ((expected <= NUMERIC && IsNumeric(actual)) || actual <= expected)
  }

  // ----- parameter types from JSON schema -----

  function LiteralType(v: Json): Option<Atom> {
    match v
    case JNull => Some(NullT)
    case JStr(_) => Some(StringT)
    case JBool(_) => Some(BooleanT)
    case JNum(n) => Some(if n == n.Floor as real then IntT else NumberT)
    case _ => None
  }

  function SchemaTypeAtom(name: string): Option<Atom> {
    if name == "integer" then Some(IntT) else if name == "number" then Some(NumberT)
    else if name == "string" then Some(StringT) else if name == "boolean" then Some(BooleanT)
    else if name == "null" then Some(NullT) else None
  }

  function TypeNameAtom(v: Json): Option<Atom> {
    if v.JStr? then SchemaTypeAtom(v.s) else None
  }

  /** The atoms of a list of entries; none as soon as one entry has none. */
  function AtomsOf(items: seq<Json>, f: Json -> Option<Atom>): Option<Type> {
    if items == [] then Some({})
    else if f(items[0]).None? then None
    else
      match AtomsOf(items[1..], f)
      case None => None
      case Some(t) => Some({f(items[0]).value} + t)
  }

  function Field(schema: map<string, Json>, name: string): Option<Json> {
    if name in schema then Some(schema[name]) else None
  }

  /** `inferPrimitiveSchemaType`: `const` first, then `enum`, then `type`. */
  function InferType(schema: map<string, Json>): Option<Type> {
    var fixed := Field(schema, "const");
    if fixed.Some? && LiteralType(fixed.value).Some? then Some({LiteralType(fixed.value).value})
    else
      var choices := Field(schema, "enum");
      if choices.Some? && choices.value.JArr? then AtomsOf(choices.value.items, LiteralType)
      else
        match Field(schema, "type")
        case Some(JStr(name)) => (match SchemaTypeAtom(name) case None => None case Some(a) => Some({a}))
        case Some(JArr(names)) => AtomsOf(names, TypeNameAtom)
        case _ => None
  }

  predicate CanBeObject(schema: map<string, Json>) {
    var t := Field(schema, "type");
    t.None? || t.value == JStr("object")
  }

  function Properties(schema: map<string, Json>): map<string, Json> {
    match Field(schema, "properties")
    case Some(JObj(fields)) => fields
    case _ => map[]
  }

  /** Walks the declared properties along a non-empty path. */
  function ResolveProperty(path: seq<string>, schema: map<string, Json>): Checked
    requires path != []
    decreases |path|
  {
    match Field(Properties(schema), path[0])
    case Some(JObj(child)) =>
      if |path| == 1 then
        (match InferType(child) case None => Refuse(ParamsSchemaInvalid) case Some(t) => Accept(t))
      else if !CanBeObject(child) then Refuse(ParamsSchemaInvalid)
      else ResolveProperty(path[1..], child)
    case _ => Refuse(UnknownVariable)
  }

  function ResolveParam(path: seq<string>, params: Option<map<string, Json>>): Checked {
    if path == [] || params.None? then Refuse(UnknownVariable)
    else if !CanBeObject(params.value) then Refuse(ParamsSchemaInvalid)
    else ResolveProperty(path, params.value)
  }

  /** The loop form of the property walk. */
  method ResolvePropertyLoop(path: seq<string>, paramsSchema: map<string, Json>) returns (r: Checked)
    requires path != []
    ensures r == ResolveProperty(path, paramsSchema)
  {
    var schema := paramsSchema;
    var index := 0;
    assert path[0..] == path;
    while index < |path|
      invariant 0 <= index < |path|
      invariant ResolveProperty(path[index..], schema) == ResolveProperty(path, paramsSchema)
    {
      var child := Field(Properties(schema), path[index]);
      if child.None? || !child.value.JObj? {
        return Refuse(UnknownVariable);
      }
      if index == |path| - 1 {
        var inferred := InferType(child.value.fields);
        return if inferred.None? then Refuse(ParamsSchemaInvalid) else Accept(inferred.value);
      }
      if !CanBeObject(child.value.fields) {
        return Refuse(ParamsSchemaInvalid);
      }
      assert path[index..][1..] == path[index + 1..];
      schema := child.value.fields;
      index := index + 1;
    }
  }

  // ----- variables -----

  const FLAGS: set<string> := {
    "no_next_page", "cursor_reached", "login_required", "blocked", "not_found",
    "no_review_message_visible", "reviews_visible"
  }

  /** The output fields every node has, with their types. */
  const NODE_FIELDS: map<string, Atom> := map[
    "row_count" := IntT, "status" := StringT, "extracted_ref" := StringT, "tier" := StringT,
    "http_status" := IntT, "http_ok" := BooleanT
  ]

  /** The type of `node.<id>.<field>...`; none where the source reports an unknown node field. */
  function NodeFieldType(path: seq<string>, ctx: Context): Option<Type>
    requires |path| >= 3
  {
    var id, field := path[1], path[2];
    if field in NODE_FIELDS then
      if |path| == 3 then Some({NODE_FIELDS[field]}) else None
    else if field == "decision" then
      if id in ctx.humanTasks && |path| == 3 then Some({StringT}) else None
    else if field == "correction" then
      if id in ctx.humanTasks && |path| == 4 && path[3] in ctx.humanTasks[id]
      then Some(ctx.humanTasks[id][path[3]]) else None
    else None
  }

  ghost function ResolveNode(path: seq<string>, ctx: Context): Checked {
    if |path| < 3 then Refuse(UnknownVariable)
    else
      match NodeFieldType(path, ctx)
      case None => Refuse(UnknownNodeField)
      case Some(t) =>
        if path[1] !in ctx.nodeIds then Refuse(UnknownVariable)
        else if path[1] !in ctx.priors && (path[1] == ctx.current || !ReachesPlus(ctx.graph, path[1], ctx.current))
        then Refuse(ForwardRef)
        else Accept(t)
  }

  ghost function ResolveVariable(path: seq<string>, ctx: Context): Checked {
    if path == [] then Refuse(UnknownVariable)
    else if path[0] == "flags" then
      if |path| == 2 && path[1] in FLAGS then Accept({BooleanT}) else Refuse(UnknownFlag)
    else if path[0] == "loop" then
      if !ctx.allowLoop then Refuse(LoopScopeViolation)
      else if |path| == 2 && (path[1] == "iteration" || path[1] == "page_count") then Accept({IntT})
      else Refuse(UnknownVariable)
    else if path[0] == "cursor" then
      if |path| == 2 && path[1] == "last_review_id" then Accept({StringT, NullT}) else Refuse(UnknownVariable)
    else if path[0] == "node" then ResolveNode(path, ctx)
    else if path[0] == "params" then ResolveParam(path[1..], ctx.params)
    else Refuse(UnknownVariable)
  }

  // ----- expressions -----

  function CheckCoalesce(types: seq<Type>): Checked {
    if |types| != 2 then Refuse(TypeError)
    else if NullT !in types[0] then Refuse(TypeError)
    else
      var rest := types[0] - {NullT};
      if rest != {} && !IsAssignable(types[1], rest) then Refuse(TypeError)
      else Accept(if rest != {} then rest else types[1])
  }

  function ExpectStrings(types: seq<Type>, count: nat, result: Atom): Checked {
    if |types| != count || (exists i :: 0 <= i < |types| && !IsAssignable(types[i], {StringT})) then Refuse(TypeError)
    else Accept({result})
  }

  predicate IsStringPair(name: string) {
    name == "date_before" || name == "date_after" || name == "starts_with" || name == "contains"
  }

  /** The signature rules, once all argument types are known and non-empty. */
  function CheckSignature(name: string, types: seq<Type>): Checked {
    if name == "len" then ExpectStrings(types, 1, IntT)
    else if name == "is_null" then if |types| == 1 then Accept({BooleanT}) else Refuse(TypeError)
    else if name == "coalesce" then CheckCoalesce(types)
    else if IsStringPair(name) then ExpectStrings(types, 2, BooleanT)
    else Refuse(UnknownFunction)
  }

  ghost function TypeCheck(n: Node, ctx: Context): Checked
    decreases n, 0
  {
    match n
    case Literal(ty, _, _) => Accept({ty})
    case Variable(path, _) => ResolveVariable(path, ctx)
    case Call(name, args, _) =>
      var (types, diags) := CheckArgs(args, ctx);
      if {} in types then Checked(None, diags)
      else var c := CheckSignature(name, types); Checked(c.ty, diags + c.diags)
    case Unary(e, _) =>
      var c := TypeCheck(e, ctx);
      if c.ty.None? then c
      else if c.ty.value != {BooleanT} then Checked(None, c.diags + [TypeError])
      else Checked(Some({BooleanT}), c.diags)
    case Binary(_, l, r, _) => CheckPair(n, TypeCheck(l, ctx), TypeCheck(r, ctx))
    case Compare(_, l, r, _) => CheckPair(n, TypeCheck(l, ctx), TypeCheck(r, ctx))
    case Logical(_, l, r, _) => CheckPair(n, TypeCheck(l, ctx), TypeCheck(r, ctx))
  }

  /** The rule of a binary node, given the checks of both operands. */
  function CheckPair(n: Node, l: Checked, r: Checked): Checked
    requires n.Binary? || n.Compare? || n.Logical?
  {
    var diags := l.diags + r.diags;
    if l.ty.None? || r.ty.None? then Checked(None, diags)
    else
      match PairType(n, l.ty.value, r.ty.value)
      case None => Checked(None, diags + [TypeError])
      case Some(t) => Checked(Some(t), diags)
  }

  function PairType(n: Node, l: Type, r: Type): Option<Type>
    requires n.Binary? || n.Compare? || n.Logical?
  {
    if n.Binary? then
      if IsNumeric(l) && IsNumeric(r) then Some(if NumberT in l || NumberT in r then {NumberT} else {IntT}) else None
    else if n.Logical? then
      if l == {BooleanT} && r == {BooleanT} then Some({BooleanT}) else None
    else if n.rel == Eq || n.rel == Ne then
      if CanCompare(l, r) then Some({BooleanT}) else None
    else
      if IsNumeric(l) && IsNumeric(r) then Some({BooleanT}) else None
  }

  /** Argument types in order, the empty type standing for a failed argument. */
  ghost function CheckArgs(args: seq<Node>, ctx: Context): (r: (seq<Type>, seq<Reason>))
    ensures |r.0| == |args|
    decreases args, 0
  {
    if args == [] then ([], [])
    else
      var c := TypeCheck(args[0], ctx);
      var (types, diags) := CheckArgs(args[1..], ctx);
      ([if c.ty.Some? then c.ty.value else {}] + types, c.diags + diags)
  }

  /** `typeCheckIrelExpression`: the whole expression, with the required result type. */
  ghost function TypeCheckExpression(n: Node, ctx: Context, expected: Option<Atom>): Checked {
    var c := TypeCheck(n, ctx);
    if c.ty.None? then c
    else
      var diags := if expected.Some? && c.ty.value != {expected.value} then c.diags + [TypeError] else c.diags;
      if diags == [] then c else Checked(None, diags)
  }
}
