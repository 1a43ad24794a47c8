/** The IREL evaluator (codegen/irel-compile.ts `evaluateIrelExpression` and its helpers).
    Date parsing (`Date.parse`) is a parameter. All failures are one exception class in the source;
    the model keeps their causes apart. */
module IrelEval {
  import opened IrelSyntax
  import opened Json

  datatype Cause = Missing | WrongKind | BadDate | BadArity | UnknownFunction

  datatype Outcome = Ok(v: Value) | Err(cause: Cause)

  /** The roots of the runtime scope: params, node, cursor, flags, loop. Absent means undefined. */
  type Scope = map<string, Json>

  /** `Date.parse`: milliseconds, or none where it yields NaN. */
  type Dates = string -> Option<int>

  // ----- variables -----

  /** Walks own properties along a path. */
  function ReadPath(root: Json, path: seq<string>): Option<Json>
    decreases |path|
  {
    if path == [] then Some(root)
    else if root.JObj? && path[0] in root.fields then ReadPath(root.fields[path[0]], path[1..])
    else None
  }

  function ScalarOf(j: Option<Json>): Outcome {
    match j
    case Some(JNull) => Ok(Null)
    case Some(JStr(s)) => Ok(Str(s))
    case Some(JBool(b)) => Ok(Bool(b))
    case Some(JNum(n)) => Ok(Num(n))
    case _ => Err(Missing)
  }

  function ReadRoot(scope: Scope, root: string, path: seq<string>): Option<Json> {
    if root in scope && path != [] then ReadPath(scope[root], path) else None
  }

  const NAMESPACES: set<string> := {"params", "node", "cursor", "flags", "loop"}

  function Resolve(path: seq<string>, scope: Scope): Outcome {
    if path == [] || path[0] !in NAMESPACES then Err(Missing)
    else if path[0] == "node" then
      if |path| != 3 && |path| != 4 then Err(Missing)
      else
        match ReadRoot(scope, "node", [path[1]])
        case Some(JObj(output)) => ScalarOf(ReadPath(JObj(output), path[2..]))
        case _ => Err(Missing)
    else ScalarOf(ReadRoot(scope, path[0], path[1..]))
  }

  // ----- strings and dates -----

  predicate OccursAt(s: string, needle: string, i: int) {
    0 <= i <= |s| - |needle| && s[i..i + |needle|] == needle
  }

  predicate Contains(s: string, needle: string) {
    exists i :: 0 <= i <= |s| && OccursAt(s, needle, i)
  }

  predicate IsSign(c: char) { c == '+' || c == '-' }

  /** Ends with `Z`, `+HH:MM` or `+HHMM` (either sign). */
  predicate HasOffset(s: string) {
    var n := |s|;
    || (n >= 1 && (s[n - 1] == 'z' || s[n - 1] == 'Z'))
    || (n >= 5 && IsSign(s[n - 5]) && AllDigits(s[n - 4..]))
    || (n >= 6 && IsSign(s[n - 6]) && AllDigits(s[n - 5..n - 3]) && s[n - 3] == ':' && AllDigits(s[n - 2..]))
  }

  /** A date with a time of day must carry an offset. */
  function Millis(s: string, dates: Dates): Option<int> {
    if ('t' in s || 'T' in s) && !HasOffset(s) then None else dates(s)
  }

  // ----- operators -----

  function Arith(op: ArithOp, l: Outcome, r: Outcome): Outcome {
    if l.Err? then l
    else if !l.v.Num? then Err(WrongKind)
    else if r.Err? then r
    else if !r.v.Num? then Err(WrongKind)
    else Ok(Num(if op == Add then l.v.n + r.v.n else l.v.n - r.v.n))
  }

  function Logic(op: LogicOp, l: Outcome, r: Outcome): Outcome {
    if l.Err? then l
    else if !l.v.Bool? then Err(WrongKind)
    else if r.Err? then r
    else if !r.v.Bool? then Err(WrongKind)
    else Ok(Bool(if op == Or then l.v.b || r.v.b else l.v.b && r.v.b))
  }

  predicate Ordered(op: CompareOp, a: real, b: real) {
    match op
    case Gt => a > b case Ge => a >= b case Lt => a < b case Le => a <= b
    case Eq => a == b case Ne => a != b
  }

  function Relate(op: CompareOp, l: Outcome, r: Outcome): Outcome {
    if l.Err? then l
    else if r.Err? then r
    else if op == Eq then Ok(Bool(l.v == r.v))
    else if op == Ne then Ok(Bool(l.v != r.v))
    else if !l.v.Num? || !r.v.Num? then Err(WrongKind)
    else Ok(Bool(Ordered(op, l.v.n, r.v.n)))
  }

  function CompareDates(after: bool, l: Outcome, r: Outcome, dates: Dates): Outcome {
    if l.Err? then l
    else if !l.v.Str? then Err(WrongKind)
    else if Millis(l.v.s, dates).None? then Err(BadDate)
    else if r.Err? then r
    else if !r.v.Str? then Err(WrongKind)
    else if Millis(r.v.s, dates).None? then Err(BadDate)
    else
      var a, b := Millis(l.v.s, dates).value, Millis(r.v.s, dates).value;
      Ok(Bool(if after then a > b else a < b))
  }

  function StringTest(name: string, l: Outcome, r: Outcome): Outcome {
    if l.Err? then l
    else if !l.v.Str? then Err(WrongKind)
    else if r.Err? then r
    else if !r.v.Str? then Err(WrongKind)
    else Ok(Bool(if name == "starts_with" then r.v.s <= l.v.s else Contains(l.v.s, r.v.s)))
  }

  function Arity(name: string): Option<nat> {
    if name == "len" || name == "is_null" then Some(1)
    else if name == "coalesce" || name == "date_before" || name == "date_after" || name == "starts_with"
      || name == "contains"
    then Some(2)
    else None
  }

  // ----- evaluation: strict, except for the fallback of coalesce -----

  function Eval(n: Node, scope: Scope, dates: Dates): Outcome {
    match n
    case Literal(_, v, _) => Ok(v)
    case Variable(path, _) => Resolve(path, scope)
    case Unary(e, _) =>
      var r := Eval(e, scope, dates);
      if r.Err? then r else if r.v.Bool? then Ok(Bool(!r.v.b)) else Err(WrongKind)
    case Binary(op, l, r, _) => Arith(op, Eval(l, scope, dates), Eval(r, scope, dates))
    case Compare(op, l, r, _) => Relate(op, Eval(l, scope, dates), Eval(r, scope, dates))
    case Logical(op, l, r, _) => Logic(op, Eval(l, scope, dates), Eval(r, scope, dates))
    case Call(name, args, _) =>
      if Arity(name).None? then Err(UnknownFunction)
      else if |args| != Arity(name).value then Err(BadArity)
      else
        var first := Eval(args[0], scope, dates);
        if name == "len" then
          if first.Err? then first else if first.v.Str? then Ok(Num(|first.v.s| as real)) else Err(WrongKind)
        else if name == "is_null" then
          if first.Err? then first else Ok(Bool(first.v == Null))
        else if name == "coalesce" then
          if first.Err? then first else if first.v == Null then Eval(args[1], scope, dates) else first
        else if name == "date_before" || name == "date_after" then
          CompareDates(name == "date_after", first, Eval(args[1], scope, dates), dates)
        else StringTest(name, first, Eval(args[1], scope, dates))
  }
}
