/** Parse/print round trip of IREL.
    `Fits` describes the trees the parser builds; `Print` writes such a tree back with parentheses
    exactly at its grouped nodes. */
module IrelPrinter {
  import opened IrelSyntax
  import opened IrelLexer
  import opened IrelParser

  // Grammar levels, tightest first.
  const PRIMARY := 0
  const ADDITIVE := 1
  const COMPARISON := 2
  const NOT := 3
  const AND := 4
  const OR := 5

  /** `text` is a spelling of the non-negative number `v` at type `ty`. */
  predicate Spells(text: string, ty: Atom, v: real) {
    IsNumberText(text) && NumberType(text) == ty && NumberValue(text) == v
  }

  ghost predicate Spellable(ty: Atom, v: real) {
    exists text :: Spells(text, ty, v)
  }

  function Abs(v: real): real { if v < 0.0 then -v else v }

  ghost predicate LiteralFits(ty: Atom, v: Value) {
    match v
    case Num(n) => (ty == IntT || ty == NumberT) && Spellable(ty, Abs(n))
    case Str(s) => ty == StringT && IsStringText(s)
    case Bool(_) => ty == BooleanT
    case Null => ty == NullT
  }

  /** The tree may stand where the grammar asks for `level`. A grouped tree may stand anywhere. */
  ghost predicate Fits(n: Node, level: nat) {
    var at := if n.grouped then OR else level;
    match n
    case Literal(ty, v, _) => LiteralFits(ty, v)
    case Variable(path, _) => path != [] && forall i :: 0 <= i < |path| ==> IsIdent(path[i])
    case Call(name, args, _) => IsIdent(name) && forall i :: 0 <= i < |args| ==> Fits(args[i], OR)
    case Unary(e, _) => at >= NOT && Fits(e, ADDITIVE)
    case Binary(_, l, r, _) => at >= ADDITIVE && Fits(l, ADDITIVE) && Fits(r, PRIMARY)
    case Compare(_, l, r, _) => at >= COMPARISON && Fits(l, ADDITIVE) && Fits(r, ADDITIVE)
    case Logical(And, l, r, _) => at >= AND && Fits(l, AND) && Fits(r, NOT)
    case Logical(Or, l, r, _) =>
      at >= OR && Fits(r, NOT) && (if IsUngroupedLogical(l, Or) then Fits(l, OR) else Fits(l, NOT))
  }

  // ----- every tree the parser returns fits -----

  /** `rest` is what remains of `ts` after well-formed tokens other than the end marker. */
  predicate Suffix(rest: seq<Token>, ts: seq<Token>) {
    |rest| <= |ts| && rest == ts[|ts| - |rest|..] && forall i :: 0 <= i < |ts| - |rest| ==> ts[i] != Eof
  }

  predicate AllWf(ts: seq<Token>) { forall i :: 0 <= i < |ts| ==> WfToken(ts[i]) }

  lemma SuffixTrans(a: seq<Token>, b: seq<Token>, c: seq<Token>)
    requires Suffix(a, b) && Suffix(b, c)
    ensures Suffix(a, c)
  {
    var k := |c| - |b|;
    assert a == c[|c| - |a|..];
    forall i | 0 <= i < |c| - |a|
      ensures c[i] != Eof
    {
      if i >= k { assert c[i] == b[i - k]; }
    }
  }

  lemma SuffixTail(ts: seq<Token>)
    requires ts != [] && ts[0] != Eof
    ensures Suffix(ts[1..], ts) && (AllWf(ts) ==> AllWf(ts[1..]))
  {
  }

  /** A parse that succeeds has consumed well-formed tokens only and built a tree of the level. */
  ghost predicate Sound(p: Parsed<Node>, ts: seq<Token>, level: nat) {
    p.Done? ==> Fits(p.value, level) && Suffix(p.rest, ts) && AllWf(p.rest)
  }

  lemma FitsUp(n: Node, level: nat, higher: nat)
    requires Fits(n, level) && level <= higher
    ensures Fits(n, higher)
  {
  }

  lemma FitsDown(n: Node)
    ensures Fits(n, AND) && !IsUngroupedLogical(n, And) ==> Fits(n, NOT)
    ensures Fits(n, COMPARISON) && !(n.Compare? && !n.grouped) ==> Fits(n, ADDITIVE)
  {
  }

  lemma FitsLogical(op: LogicOp, l: Node, r: Node)
    requires Fits(r, NOT)
    requires op == And ==> Fits(l, AND)
    requires op == Or ==> if IsUngroupedLogical(l, Or) then Fits(l, OR) else Fits(l, NOT)
    ensures Fits(Logical(op, l, r, false), if op == And then AND else OR)
  {
  }

  lemma FitsCompare(op: CompareOp, l: Node, r: Node)
    requires Fits(l, ADDITIVE) && Fits(r, ADDITIVE)
    ensures Fits(Compare(op, l, r, false), COMPARISON)
  {
  }

  lemma FitsGrouped(n: Node)
    requires Fits(n, OR)
    ensures Fits(MarkGrouped(n), PRIMARY)
  {
  }

  lemma FitsCall(name: string, args: seq<Node>)
    requires IsIdent(name) && forall i :: 0 <= i < |args| ==> Fits(args[i], OR)
    ensures Fits(Call(name, args, false), PRIMARY)
  {
  }

  lemma {:induction false} LooseSound(ts: seq<Token>)
    requires AllWf(ts)
    ensures Sound(ParseLoose(SOURCE, ts), ts, OR)
    decreases |ts|, 6
  {
    hide ParseTight, ParseLooseRest, Fits;
    TightSound(ts);
    if ParseTight(SOURCE, ts).Done? {
      var Done(left, rest) := ParseTight(SOURCE, ts);
      LooseRestSound(left, rest);
      if ParseLooseRest(SOURCE, left, rest).Done? {
        SuffixTrans(ParseLooseRest(SOURCE, left, rest).rest, rest, ts);
      }
    }
  }

  lemma {:induction false} LooseRestSound(left: Node, ts: seq<Token>)
    requires AllWf(ts)
    requires Fits(left, AND) || (IsUngroupedLogical(left, Or) && Fits(left, OR))
    ensures Sound(ParseLooseRest(SOURCE, left, ts), ts, OR)
    decreases |ts|, 6
  {
    hide ParseTight;
    if Peek(ts) == Symbol(SOr) && !IsUngroupedLogical(left, And) {
      SuffixTail(ts);
      TightSound(ts[1..]);
      var p := ParseTight(SOURCE, ts[1..]);
      if p.Done? && !IsUngroupedLogical(p.value, And) {
        FitsDown(p.value);
        FitsDown(left);
        FitsLogical(Or, left, p.value);
        var node := Logical(Or, left, p.value, false);
        LooseRestSound(node, p.rest);
        SuffixTrans(p.rest, ts[1..], ts);
        if ParseLooseRest(SOURCE, node, p.rest).Done? {
          SuffixTrans(ParseLooseRest(SOURCE, node, p.rest).rest, p.rest, ts);
        }
      }
    }
  }

  lemma {:induction false} TightSound(ts: seq<Token>)
    requires AllWf(ts)
    ensures Sound(ParseTight(SOURCE, ts), ts, AND)
    decreases |ts|, 5
  {
    hide ParseNot, ParseTightRest, Fits;
    NotSound(ts);
    if ParseNot(SOURCE, ts).Done? {
      var Done(left, rest) := ParseNot(SOURCE, ts);
      FitsUp(left, NOT, AND);
      TightRestSound(left, rest);
      if ParseTightRest(SOURCE, left, rest).Done? {
        SuffixTrans(ParseTightRest(SOURCE, left, rest).rest, rest, ts);
      }
    }
  }

  lemma {:induction false} TightRestSound(left: Node, ts: seq<Token>)
    requires AllWf(ts) && Fits(left, AND)
    ensures Sound(ParseTightRest(SOURCE, left, ts), ts, AND)
    decreases |ts|, 5
  {
    hide ParseNot;
    if Peek(ts) == Symbol(SAnd) {
      SuffixTail(ts);
      NotSound(ts[1..]);
      var p := ParseNot(SOURCE, ts[1..]);
      if p.Done? {
        var node := Logical(And, left, p.value, false);
        TightRestSound(node, p.rest);
        SuffixTrans(p.rest, ts[1..], ts);
        if ParseTightRest(SOURCE, node, p.rest).Done? {
          SuffixTrans(ParseTightRest(SOURCE, node, p.rest).rest, p.rest, ts);
        }
      }
    }
  }

  lemma {:induction false} NotSound(ts: seq<Token>)
    requires AllWf(ts)
    ensures Sound(ParseNot(SOURCE, ts), ts, NOT)
    decreases |ts|, 4
  {
    hide ParseComparison;
    if Peek(ts) != Symbol(SBang) {
      ComparisonSound(ts);
      if ParseComparison(SOURCE, ts).Done? {
        FitsUp(ParseComparison(SOURCE, ts).value, COMPARISON, NOT);
      }
    } else {
      SuffixTail(ts);
      ComparisonSound(ts[1..]);
      if ParseComparison(SOURCE, ts[1..]).Done? {
        FitsDown(ParseComparison(SOURCE, ts[1..]).value);
        SuffixTrans(ParseComparison(SOURCE, ts[1..]).rest, ts[1..], ts);
      }
    }
  }

  lemma {:induction false} ComparisonSound(ts: seq<Token>)
    requires AllWf(ts)
    ensures Sound(ParseComparison(SOURCE, ts), ts, COMPARISON)
    decreases |ts|, 3
  {
    hide ParseAdditive;
    AdditiveSound(ts);
    if ParseAdditive(SOURCE, ts).Done? {
      var Done(left, rest) := ParseAdditive(SOURCE, ts);
      FitsUp(left, ADDITIVE, COMPARISON);
      if CompareOpOf(Peek(rest)).Some? {
        SuffixTail(rest);
        AdditiveSound(rest[1..]);
        var p := ParseAdditive(SOURCE, rest[1..]);
        if p.Done? {
          FitsCompare(CompareOpOf(Peek(rest)).value, left, p.value);
          SuffixTrans(p.rest, rest[1..], rest);
          SuffixTrans(p.rest, rest, ts);
        }
      }
    }
  }

  lemma {:induction false} AdditiveSound(ts: seq<Token>)
    requires AllWf(ts)
    ensures Sound(ParseAdditive(SOURCE, ts), ts, ADDITIVE)
    decreases |ts|, 2
  {
    hide ParsePrimary, ParseAdditiveRest, Fits;
    PrimarySound(ts);
    if ParsePrimary(SOURCE, ts).Done? {
      var Done(left, rest) := ParsePrimary(SOURCE, ts);
      FitsUp(left, PRIMARY, ADDITIVE);
      AdditiveRestSound(left, rest);
      if ParseAdditiveRest(SOURCE, left, rest).Done? {
        SuffixTrans(ParseAdditiveRest(SOURCE, left, rest).rest, rest, ts);
      }
    }
  }

  lemma {:induction false} AdditiveRestSound(left: Node, ts: seq<Token>)
    requires AllWf(ts) && Fits(left, ADDITIVE)
    ensures Sound(ParseAdditiveRest(SOURCE, left, ts), ts, ADDITIVE)
    decreases |ts|, 2
  {
    hide ParsePrimary;
    if ArithOpOf(Peek(ts)).Some? {
      SuffixTail(ts);
      PrimarySound(ts[1..]);
      var p := ParsePrimary(SOURCE, ts[1..]);
      if p.Done? {
        var node := Binary(ArithOpOf(Peek(ts)).value, left, p.value, false);
        AdditiveRestSound(node, p.rest);
        SuffixTrans(p.rest, ts[1..], ts);
        if ParseAdditiveRest(SOURCE, node, p.rest).Done? {
          SuffixTrans(ParseAdditiveRest(SOURCE, node, p.rest).rest, p.rest, ts);
        }
      }
    }
  }

  lemma NumberNodeFits(text: string, negative: bool)
    requires IsNumberText(text)
    ensures Fits(NumberNode(text, negative), PRIMARY)
  {
    NumberValueNonNegative(text);
    assert Spells(text, NumberType(text), NumberValue(text));
  }

  lemma {:induction false} DigitsNonNegative(s: string)
    requires AllDigits(s)
    ensures DigitsValue(s) >= 0
    decreases |s|
  {
    if s != [] {
      DigitsNonNegative(s[..|s| - 1]);
    }
  }

  lemma NumberValueNonNegative(s: string)
    requires IsNumberText(s)
    ensures NumberValue(s) >= 0.0
  {
    var k := DotIndex(s);
    if k == |s| {
      DigitsNonNegative(s);
    } else {
      DigitsNonNegative(s[..k]);
      DigitsNonNegative(s[k + 1..]);
    }
  }

  lemma {:induction false} PrimarySound(ts: seq<Token>)
    requires AllWf(ts)
    ensures Sound(ParsePrimary(SOURCE, ts), ts, PRIMARY)
    decreases |ts|, 1
  {
    hide ParseLoose, ParseIdentifier;
    if ts != [] && ts[0] != Eof && ParsePrimary(SOURCE, ts).Done? {
      SuffixTail(ts);
      match ts[0]
      case NumberTok(text) => NumberNodeFits(text, false);
      case Ident(name) =>
        IdentifierSound(name, ts[1..]);
        SuffixTrans(ParseIdentifier(SOURCE, name, ts[1..]).rest, ts[1..], ts);
      case Symbol(SMinus) =>
        NumberNodeFits(ts[1].text, true);
        assert ts[1..][1..] == ts[2..];
        SuffixTail(ts[1..]);
        SuffixTrans(ts[2..], ts[1..], ts);
      case Symbol(SOpen) =>
        LooseSound(ts[1..]);
        var p := ParseLoose(SOURCE, ts[1..]);
        FitsGrouped(p.value);
        SuffixTail(p.rest);
        SuffixTrans(p.rest, ts[1..], ts);
        SuffixTrans(p.rest[1..], p.rest, ts);
      case StringTok(v) => assert Fits(Literal(StringT, Str(v), false), PRIMARY);
      case BoolTok(v) => assert Fits(Literal(BooleanT, Bool(v), false), PRIMARY);
      case NullTok => assert Fits(Literal(NullT, Null, false), PRIMARY);
      case _ =>
    }
  }

  lemma {:induction false} IdentifierSound(name: string, ts: seq<Token>)
    requires AllWf(ts) && IsIdent(name)
    ensures Sound(ParseIdentifier(SOURCE, name, ts), ts, PRIMARY)
    decreases |ts|, 1
  {
    hide ParseArgs, ParsePath;
    if ParseIdentifier(SOURCE, name, ts).Done? {
      if Peek(ts) == Symbol(SOpen) {
        SuffixTail(ts);
        if Peek(ts[1..]) == Symbol(SClose) {
          SuffixTail(ts[1..]);
          assert ts[1..][1..] == ts[2..];
          FitsCall(name, []);
          SuffixTrans(ts[2..], ts[1..], ts);
        } else {
          ArgsSound(ts[1..]);
          var p := ParseArgs(SOURCE, ts[1..]);
          FitsCall(name, p.value);
          SuffixTail(p.rest);
          SuffixTrans(p.rest, ts[1..], ts);
          SuffixTrans(p.rest[1..], p.rest, ts);
        }
      } else {
        PathSound([name], ts);
        assert Fits(ParseIdentifier(SOURCE, name, ts).value, PRIMARY);
      }
    }
  }

  lemma {:induction false} ArgsSound(ts: seq<Token>)
    requires AllWf(ts)
    ensures var p := ParseArgs(SOURCE, ts);
            p.Done? ==> (forall i :: 0 <= i < |p.value| ==> Fits(p.value[i], OR)) && Suffix(p.rest, ts) && AllWf(p.rest)
    decreases |ts|, 7
  {
    hide ParseLoose, Fits;
    LooseSound(ts);
    if ParseLoose(SOURCE, ts).Done? {
      var Done(arg, rest) := ParseLoose(SOURCE, ts);
      if Peek(rest) == Symbol(SComma) {
        SuffixTail(rest);
        ArgsSound(rest[1..]);
        if ParseArgs(SOURCE, rest[1..]).Done? {
          SuffixTrans(ParseArgs(SOURCE, rest[1..]).rest, rest[1..], rest);
          SuffixTrans(ParseArgs(SOURCE, rest[1..]).rest, rest, ts);
        }
      }
    }
  }

  lemma {:induction false} PathSound(path: seq<string>, ts: seq<Token>)
    requires AllWf(ts) && path != [] && forall i :: 0 <= i < |path| ==> IsIdent(path[i])
    ensures var p := ParsePath(path, ts);
            p.Done? ==>
              && p.value != [] && (forall i :: 0 <= i < |p.value| ==> IsIdent(p.value[i]))
              && Suffix(p.rest, ts) && AllWf(p.rest)
    decreases |ts|
  {
    if Peek(ts) == Symbol(SDot) && Peek(ts[1..]).Ident? {
      SuffixTail(ts);
      SuffixTail(ts[1..]);
      assert ts[1..][1..] == ts[2..];
      SuffixTrans(ts[2..], ts[1..], ts);
      var next := path + [Peek(ts[1..]).name];
      PathSound(next, ts[2..]);
      if ParsePath(next, ts[2..]).Done? {
        SuffixTrans(ParsePath(next, ts[2..]).rest, ts[2..], ts);
      }
    }
  }

  /** Every tree the parser returns fits the grammar, and the end marker is never consumed. */
  lemma ParseSound(text: string)
    requires Lex(text).Some? && Parse(SOURCE, Lex(text).value).Some?
    ensures Fits(Parse(SOURCE, Lex(text).value).value, OR)
    ensures ParseLoose(SOURCE, Lex(text).value).rest == [Eof]
  {
    hide ParseLoose, Lex, Fits;
    var ts := Lex(text).value;
    LexWf(text);
    assert AllWf(ts);
    LooseSound(ts);
    var rest := ParseLoose(SOURCE, ts).rest;
    var k := |ts| - |rest|;
    assert rest[0] == ts[k];
  }

  // ----- printing -----

  /** Some spelling of a literal number. */
  ghost function NumberText(ty: Atom, v: real): string {
    if Spellable(ty, v) then var text :| Spells(text, ty, v); text else "0"
  }

  ghost function PrintLiteral(ty: Atom, v: Value): seq<Token> {
    match v
    case Num(n) =>
      (if n < 0.0 then [Symbol(SMinus)] else []) + [NumberTok(NumberText(ty, Abs(n)))]
    case Str(s) => [StringTok(s)]
    case Bool(b) => [BoolTok(b)]
    case Null => [NullTok]
  }

  /** The segments of a path after the first, each behind a dot. */
  function PrintTail(path: seq<string>): seq<Token> {
    if path == [] then [] else [Symbol(SDot), Ident(path[0])] + PrintTail(path[1..])
  }

  function CompareSym(op: CompareOp): Sym {
    match op
    case Eq => SEq case Ne => SNe case Gt => SGt case Ge => SGe case Lt => SLt case Le => SLe
  }

  function ArithSym(op: ArithOp): Sym { if op == Add then SPlus else SMinus }

  ghost function Print(n: Node): seq<Token>
    decreases n, 0
  {
    var body :=
      match n
      case Literal(ty, v, _) => PrintLiteral(ty, v)
      case Variable(path, _) => if path == [] then [] else [Ident(path[0])] + PrintTail(path[1..])
      case Call(name, args, _) => [Ident(name), Symbol(SOpen)] + PrintArgs(args) + [Symbol(SClose)]
      case Unary(e, _) => [Symbol(SBang)] + Print(e)
      case Binary(op, l, r, _) => Print(l) + [Symbol(ArithSym(op))] + Print(r)
      case Compare(op, l, r, _) => Print(l) + [Symbol(CompareSym(op))] + Print(r)
      case Logical(op, l, r, _) => Print(l) + [Symbol(LogicSym(op))] + Print(r);
    if n.grouped then [Symbol(SOpen)] + body + [Symbol(SClose)] else body
  }

  ghost function PrintArgs(args: seq<Node>): seq<Token>
    decreases args, 0
  {
    if args == [] then []
    else if |args| == 1 then Print(args[0])
    else Print(args[0]) + [Symbol(SComma)] + PrintArgs(args[1..])
  }

  function Ungroup(n: Node): Node { n.(grouped := false) }

  lemma PrintGrouped(n: Node)
    requires n.grouped
    ensures Print(n) == [Symbol(SOpen)] + Print(Ungroup(n)) + [Symbol(SClose)]
  {
  }

  /** Tree size, blind to grouping. */
  function Size(n: Node): (k: nat)
    ensures k > 0
    decreases n, 0
  {
    match n
    case Literal(_, _, _) => 1
    case Variable(_, _) => 1
    case Call(_, args, _) => 1 + SizeArgs(args)
    case Unary(e, _) => 1 + Size(e)
    case Binary(_, l, r, _) => 1 + Size(l) + Size(r)
    case Compare(_, l, r, _) => 1 + Size(l) + Size(r)
    case Logical(_, l, r, _) => 1 + Size(l) + Size(r)
  }

  function SizeArgs(args: seq<Node>): nat
    decreases args, 0
  {
    if args == [] then 0 else Size(args[0]) + SizeArgs(args[1..])
  }

  // ----- printed trees parse back -----

  /** The token after a printed tree of `level` is not one the level would go on to consume. */
  predicate Stops(rest: seq<Token>, level: nat) {
    var t := Peek(rest);
    && t != Symbol(SOpen) && t != Symbol(SDot)
    && (level >= ADDITIVE ==> ArithOpOf(t).None?)
    && (level >= COMPARISON ==> CompareOpOf(t).None?)
    && (level >= AND ==> t != Symbol(SAnd))
    && (level >= OR ==> t != Symbol(SOr))
  }

  lemma {:induction false} FirstToken(n: Node, level: nat)
    requires Fits(n, level)
    ensures Print(n) != [] && Print(n)[0] != Symbol(SClose)
    ensures level <= COMPARISON ==> Print(n)[0] != Symbol(SBang)
    decreases n
  {
    if !n.grouped {
      match n
      case Binary(_, l, _, _) => FirstToken(l, ADDITIVE);
      case Compare(_, l, _, _) => FirstToken(l, ADDITIVE);
      case Logical(op, l, _, _) =>
        FirstToken(l, if op == And then AND else if IsUngroupedLogical(l, Or) then OR else NOT);
      case _ =>
    }
  }

  lemma NumberRoundTrip(ty: Atom, v: real, rest: seq<Token>)
    requires Spellable(ty, Abs(v))
    ensures ParsePrimary(SOURCE, PrintLiteral(ty, Num(v)) + rest) == Done(Literal(ty, Num(v), false), rest)
  {
    var text := NumberText(ty, Abs(v));
    var ts := PrintLiteral(ty, Num(v)) + rest;
    assert Spells(text, ty, Abs(v));
    if v < 0.0 {
      assert ts[0] == Symbol(SMinus) && ts[1] == NumberTok(text) && ts[2..] == rest;
      assert Peek(ts[1..]) == NumberTok(text);
    } else {
      assert ts[0] == NumberTok(text) && ts[1..] == rest;
    }
  }

  lemma {:induction false} PathRoundTrip(done: seq<string>, path: seq<string>, rest: seq<Token>)
    requires Peek(rest) != Symbol(SDot)
    ensures ParsePath(done, PrintTail(path) + rest) == Done(done + path, rest)
    decreases |path|
  {
    var ts := PrintTail(path) + rest;
    if path == [] {
      assert ts == rest && done + path == done;
    } else {
      assert ts[0] == Symbol(SDot) && ts[1] == Ident(path[0]);
      assert Peek(ts[1..]) == ts[1];
      assert ts[2..] == PrintTail(path[1..]) + rest;
      PathRoundTrip(done + [path[0]], path[1..], rest);
      assert done + [path[0]] + path[1..] == done + path;
    }
  }

  lemma {:induction false} PrimaryRoundTrip(n: Node, rest: seq<Token>)
    requires Fits(n, PRIMARY) && Stops(rest, PRIMARY)
    ensures ParsePrimary(SOURCE, Print(n) + rest) == Done(n, rest)
    decreases Size(n), n.grouped, 1
  {
    var ts := Print(n) + rest;
    if n.grouped {
      hide Fits, Print, ParseLoose;
      GroupedRoundTrip(n, rest);
    } else {
      match n
      case Literal(ty, v, _) =>
        if v.Num? {
          hide Fits, Print, ParsePrimary;
          LiteralPrint(n);
          NumberRoundTrip(ty, v.n, rest);
        } else {
          assert ts[0] == PrintLiteral(ty, v)[0] && ts[1..] == rest;
        }
      case Variable(path, _) =>
        assert ts[0] == Ident(path[0]) && ts[1..] == PrintTail(path[1..]) + rest;
        assert Peek(ts[1..]) != Symbol(SOpen);
        PathRoundTrip([path[0]], path[1..], rest);
        assert [path[0]] + path[1..] == path;
      case Call(name, args, _) =>
        CallRoundTrip(name, args, rest);
    }
  }

  lemma LiteralPrint(n: Node)
    requires n.Literal? && Fits(n, PRIMARY) && !n.grouped
    ensures Print(n) == PrintLiteral(n.ty, n.value) && LiteralFits(n.ty, n.value)
  {
  }

  lemma UngroupFits(n: Node, level: nat)
    requires n.grouped && Fits(n, level)
    ensures Fits(Ungroup(n), OR) && Size(Ungroup(n)) == Size(n)
  {
  }

  lemma {:induction false} GroupedRoundTrip(n: Node, rest: seq<Token>)
    requires n.grouped && Fits(n, PRIMARY)
    ensures ParsePrimary(SOURCE, Print(n) + rest) == Done(n, rest)
    decreases Size(n), n.grouped, 0
  {
    hide Fits, Print, ParseLoose, Size;
    var inner := Ungroup(n);
    UngroupFits(n, PRIMARY);
    PrintGrouped(n);
    var ts := Print(n) + rest;
    var tail := [Symbol(SClose)] + rest;
    assert ts[0] == Symbol(SOpen) && ts[1..] == Print(inner) + tail;
    LooseRoundTrip(inner, tail);
    assert ParseLooseRest(SOURCE, inner, tail) == Done(inner, tail);
    assert tail[1..] == rest;
    assert MarkGrouped(inner) == n;
  }

  lemma {:induction false} CallRoundTrip(name: string, args: seq<Node>, rest: seq<Token>)
    requires forall i :: 0 <= i < |args| ==> Fits(args[i], OR)
    ensures ParsePrimary(SOURCE, Print(Call(name, args, false)) + rest) == Done(Call(name, args, false), rest)
    decreases 1 + SizeArgs(args), false, 0
  {
    hide Fits, ParseArgs, ParsePath;
    var ts := Print(Call(name, args, false)) + rest;
    var tail := [Symbol(SClose)] + rest;
    assert tail[1..] == rest;
    assert ts[0] == Ident(name) && ts[1] == Symbol(SOpen) && ts[2..] == PrintArgs(args) + tail;
    var us := ts[1..];
    assert us[0] == Symbol(SOpen) && us[1..] == PrintArgs(args) + tail && us[2..] == ts[2..][1..];
    if args == [] {
      assert us[1..] == tail;
    } else {
      FirstToken(args[0], OR);
      assert us[1] == Print(args[0])[0];
      ArgsRoundTrip(args, tail);
    }
  }

  lemma {:induction false} ArgsRoundTrip(args: seq<Node>, rest: seq<Token>)
    requires args != [] && forall i :: 0 <= i < |args| ==> Fits(args[i], OR)
    requires Peek(rest) == Symbol(SClose)
    ensures ParseArgs(SOURCE, PrintArgs(args) + rest) == Done(args, rest)
    decreases SizeArgs(args), true, 7
  {
    hide Fits, ParseLoose, Print, Size;
    var ts := PrintArgs(args) + rest;
    if |args| == 1 {
      assert args == [args[0]];
      LooseRoundTrip(args[0], rest);
    } else {
      var tail := [Symbol(SComma)] + (PrintArgs(args[1..]) + rest);
      assert ts == Print(args[0]) + tail;
      LooseRoundTrip(args[0], tail);
      assert tail[1..] == PrintArgs(args[1..]) + rest;
      ArgsRoundTrip(args[1..], rest);
      assert [args[0]] + args[1..] == args;
    }
  }

  function InfixSym(n: Node): Sym
    requires n.Binary? || n.Compare? || n.Logical?
  {
    if n.Binary? then ArithSym(n.arith) else if n.Compare? then CompareSym(n.rel) else LogicSym(n.logic)
  }

  lemma PrintShape(n: Node)
    requires (n.Binary? || n.Compare? || n.Logical?) && !n.grouped
    ensures Print(n) == Print(n.left) + [Symbol(InfixSym(n))] + Print(n.right)
    ensures Size(n.left) < Size(n) && Size(n.right) < Size(n)
  {
  }

  /** An infix node prints as left operand, operator and the rest. */
  lemma PrintInfix(n: Node, rest: seq<Token>, tail: seq<Token>)
    requires (n.Binary? || n.Compare? || n.Logical?) && !n.grouped
    requires tail == [Symbol(InfixSym(n))] + (Print(n.right) + rest)
    ensures Print(n) + rest == Print(n.left) + tail
    ensures Peek(tail) == Symbol(InfixSym(n)) && tail[1..] == Print(n.right) + rest
    ensures Size(n.left) < Size(n) && Size(n.right) < Size(n)
  {
    hide Print, Size;
    PrintShape(n);
    var l, op, r := Print(n.left), [Symbol(InfixSym(n))], Print(n.right);
    assert l + op + r + rest == l + (op + (r + rest));
  }

  lemma {:induction false} AdditiveRoundTrip(n: Node, rest: seq<Token>)
    requires Fits(n, ADDITIVE) && Stops(rest, PRIMARY)
    ensures ParseAdditive(SOURCE, Print(n) + rest) == ParseAdditiveRest(SOURCE, n, rest)
    decreases Size(n), n.grouped, 2
  {
    if n.Binary? && !n.grouped {
      hide ParsePrimary, Print, Size;
      var tail := [Symbol(ArithSym(n.arith))] + (Print(n.right) + rest);
      PrintInfix(n, rest, tail);
      AdditiveRoundTrip(n.left, tail);
      PrimaryRoundTrip(n.right, rest);
    } else {
      hide Print, ParsePrimary;
      PrimaryRoundTrip(n, rest);
    }
  }

  lemma {:induction false} ComparisonRoundTrip(n: Node, rest: seq<Token>)
    requires Fits(n, COMPARISON) && Stops(rest, COMPARISON)
    ensures ParseComparison(SOURCE, Print(n) + rest) == Done(n, rest)
    decreases Size(n), n.grouped, 3
  {
    hide ParseAdditive, Print, Size;
    if n.Compare? && !n.grouped {
      var tail := [Symbol(CompareSym(n.rel))] + (Print(n.right) + rest);
      PrintInfix(n, rest, tail);
      AdditiveRoundTrip(n.left, tail);
      AdditiveRoundTrip(n.right, rest);
    } else {
      FitsDown(n);
      AdditiveRoundTrip(n, rest);
    }
  }

  lemma {:induction false} NotRoundTrip(n: Node, rest: seq<Token>)
    requires Fits(n, NOT) && Stops(rest, COMPARISON)
    ensures ParseNot(SOURCE, Print(n) + rest) == Done(n, rest)
    decreases Size(n), n.grouped, 4
  {
    hide ParseComparison;
    var ts := Print(n) + rest;
    if n.Unary? && !n.grouped {
      assert ts[0] == Symbol(SBang) && ts[1..] == Print(n.expr) + rest;
      FitsUp(n.expr, ADDITIVE, COMPARISON);
      ComparisonRoundTrip(n.expr, rest);
    } else {
      assert Fits(n, COMPARISON);
      FirstToken(n, COMPARISON);
      ComparisonRoundTrip(n, rest);
    }
  }

  lemma {:induction false} TightRoundTrip(n: Node, rest: seq<Token>)
    requires Fits(n, AND) && Stops(rest, COMPARISON)
    ensures ParseTight(SOURCE, Print(n) + rest) == ParseTightRest(SOURCE, n, rest)
    decreases Size(n), n.grouped, 5
  {
    hide ParseNot, Print, Size;
    if IsUngroupedLogical(n, And) {
      var tail := [Symbol(SAnd)] + (Print(n.right) + rest);
      PrintInfix(n, rest, tail);
      TightRoundTrip(n.left, tail);
      NotRoundTrip(n.right, rest);
    } else {
      FitsDown(n);
      NotRoundTrip(n, rest);
    }
  }

  lemma {:induction false} LooseRoundTrip(n: Node, rest: seq<Token>)
    requires Fits(n, OR) && Stops(rest, AND)
    ensures ParseLoose(SOURCE, Print(n) + rest) == ParseLooseRest(SOURCE, n, rest)
    decreases Size(n), n.grouped, 6
  {
    hide ParseTight, Print, Size;
    if IsUngroupedLogical(n, Or) {
      var tail := [Symbol(SOr)] + (Print(n.right) + rest);
      PrintInfix(n, rest, tail);
      if !IsUngroupedLogical(n.left, Or) { FitsUp(n.left, NOT, OR); }
      LooseRoundTrip(n.left, tail);
      FitsUp(n.right, NOT, AND);
      TightRoundTrip(n.right, rest);
    } else {
      assert Fits(n, AND);
      TightRoundTrip(n, rest);
    }
  }

  /** Printing a fitting tree and parsing the tokens gives the tree back. */
  lemma ParsePrint(n: Node)
    requires Fits(n, OR)
    ensures Parse(SOURCE, Print(n) + [Eof]) == Some(n)
  {
    hide Fits, Print, ParseLoose;
    LooseRoundTrip(n, [Eof]);
  }

  // ----- down to text -----

  predicate Printable(ts: seq<Token>) { forall i :: 0 <= i < |ts| ==> WfToken(ts[i]) && ts[i] != Eof }

  lemma PrintableConcat(a: seq<Token>, b: seq<Token>)
    requires Printable(a) && Printable(b)
    ensures Printable(a + b)
  {
  }

  lemma {:induction false} PrintTailWf(path: seq<string>)
    requires forall i :: 0 <= i < |path| ==> IsIdent(path[i])
    ensures Printable(PrintTail(path))
    decreases |path|
  {
    if path != [] {
      PrintTailWf(path[1..]);
    }
  }

  lemma {:induction false} PrintWf(n: Node, level: nat)
    requires Fits(n, level)
    ensures Printable(Print(n))
    decreases Size(n), n.grouped, 0
  {
    hide Printable, Spells;
    if n.grouped {
      UngroupFits(n, level);
      PrintWf(Ungroup(n), OR);
      PrintGrouped(n);
      Bracketed(Symbol(SOpen), Print(Ungroup(n)), Symbol(SClose));
    } else {
      match n
      case Literal(ty, v, _) => LiteralWf(ty, v);
      case Variable(path, _) =>
        PrintTailWf(path[1..]);
        PrintableOne(Ident(path[0]));
        PrintableConcat([Ident(path[0])], PrintTail(path[1..]));
      case Call(name, args, _) =>
        PrintArgsWf(args);
        Bracketed(Symbol(SOpen), PrintArgs(args), Symbol(SClose));
        PrintableOne(Ident(name));
        PrintableConcat([Ident(name)], [Symbol(SOpen)] + PrintArgs(args) + [Symbol(SClose)]);
        assert Print(n) == [Ident(name)] + ([Symbol(SOpen)] + PrintArgs(args) + [Symbol(SClose)]);
      case Unary(e, _) =>
        PrintWf(e, ADDITIVE);
        PrintableOne(Symbol(SBang));
        PrintableConcat([Symbol(SBang)], Print(e));
      case Binary(op, l, r, _) =>
        PrintWf(l, ADDITIVE);
        PrintWf(r, PRIMARY);
        Infix(Print(l), Symbol(ArithSym(op)), Print(r));
      case Compare(op, l, r, _) =>
        PrintWf(l, ADDITIVE);
        PrintWf(r, ADDITIVE);
        Infix(Print(l), Symbol(CompareSym(op)), Print(r));
      case Logical(op, l, r, _) =>
        PrintWf(l, if op == And then AND else if IsUngroupedLogical(l, Or) then OR else NOT);
        PrintWf(r, NOT);
        Infix(Print(l), Symbol(LogicSym(op)), Print(r));
    }
  }

  lemma PrintableOne(t: Token)
    requires WfToken(t) && t != Eof
    ensures Printable([t])
  {
  }

  lemma Bracketed(open: Token, inner: seq<Token>, close: Token)
    requires Printable(inner) && open.Symbol? && close.Symbol?
    ensures Printable([open] + inner + [close])
  {
  }

  lemma Infix(l: seq<Token>, op: Token, r: seq<Token>)
    requires Printable(l) && op.Symbol? && Printable(r)
    ensures Printable(l + [op] + r)
  {
  }

  lemma LiteralWf(ty: Atom, v: Value)
    requires LiteralFits(ty, v)
    ensures Printable(PrintLiteral(ty, v))
  {
    if v.Num? { assert Spells(NumberText(ty, Abs(v.n)), ty, Abs(v.n)); }
  }

  lemma {:induction false} PrintArgsWf(args: seq<Node>)
    requires forall i :: 0 <= i < |args| ==> Fits(args[i], OR)
    ensures Printable(PrintArgs(args))
    decreases SizeArgs(args), true, 1
  {
    hide Fits, Print;
    if args != [] {
      PrintWf(args[0], OR);
      PrintArgsWf(args[1..]);
    }
  }

  /** `parseIrelExpression`. */
  function ParseText(text: string): Option<Node> {
    match Lex(text)
    case None => None
    case Some(ts) => Parse(SOURCE, ts)
  }

  /** The printed text of a fitting tree tokenizes to the printed tokens and parses to the tree. */
  lemma TextRoundTrip(n: Node)
    requires Fits(n, OR)
    ensures Lex(Render(Print(n))) == Some(Print(n) + [Eof])
    ensures ParseText(Render(Print(n))) == Some(n)
  {
    hide Fits, Print, Lex, Parse;
    PrintWf(n, OR);
    RenderLex(Print(n));
    ParsePrint(n);
  }

  /** Parse, print and parse again: the same tree, for every text the parser accepts. */
  lemma ReparseStable(text: string)
    requires ParseText(text).Some?
    ensures ParseText(Render(Print(ParseText(text).value))) == ParseText(text)
  {
    hide Fits, Print, Lex, Parse;
    ParseSound(text);
    TextRoundTrip(ParseText(text).value);
  }

  /** The trees the parser can return are exactly the fitting ones. */
  lemma ParserImage(n: Node)
    ensures Fits(n, OR) <==> exists text :: ParseText(text) == Some(n)
  {
    hide Fits, Print, Lex, Parse;
    if Fits(n, OR) {
      TextRoundTrip(n);
      assert ParseText(Render(Print(n))) == Some(n);
    }
    if text :| ParseText(text) == Some(n) {
      ParseSound(text);
    }
  }

  /** The compiled front end: tokenizer loop, then the stateful parser. */
  method ParseExpression(expression: string) returns (r: Option<Node>)
    ensures r == ParseText(expression)
  {
    hide Lex, Parse;
    var lexed := Tokenize(expression);
    if lexed.None? { return None; }
    var parser := new Parser(lexed.value);
    assert parser.Remaining() == lexed.value;
    r := parser.ParseWhole();
  }
}
