/** The IREL recursive-descent parser (codegen/irel-compile.ts `Parser`).
    The functions specify it on token lists; class `Parser` is the stateful form of the source.
    The functions take a grammar so that the source's grammar can be compared with others that
    differ in the relative precedence of the two logical operators. */
module IrelParser {
  import opened IrelSyntax

  datatype Parsed<+T> = Done(value: T, rest: seq<Token>) | Failed

  /** Which logical operator binds looser, and whether mixing both without parentheses is refused. */
  datatype Grammar = Grammar(loose: LogicOp, guarded: bool)

  /** The grammar of the source: `||` is looser than `&&`, and mixing them is refused. */
  const SOURCE: Grammar := Grammar(Or, true)

  function Other(op: LogicOp): LogicOp { if op == Or then And else Or }

  function LogicSym(op: LogicOp): Sym { if op == Or then SOr else SAnd }

  /** The next token; the end marker once the list is used up. */
  function Peek(ts: seq<Token>): Token { if ts == [] then Eof else ts[0] }

  function CompareOpOf(t: Token): Option<CompareOp> {
    if t.Symbol? then
      match t.sym
      case SEq => Some(Eq) case SNe => Some(Ne) case SGt => Some(Gt)
      case SGe => Some(Ge) case SLt => Some(Lt) case SLe => Some(Le)
      case _ => None
    else None
  }

  function ArithOpOf(t: Token): Option<ArithOp> {
    if t == Symbol(SPlus) then Some(Add) else if t == Symbol(SMinus) then Some(Sub) else None
  }

  predicate IsUngroupedLogical(n: Node, op: LogicOp) {
    n.Logical? && n.logic == op && !n.grouped
  }

  function MarkGrouped(n: Node): Node { n.(grouped := true) }

  function ParseLoose(g: Grammar, ts: seq<Token>): (r: Parsed<Node>)
    ensures r.Done? ==> |r.rest| < |ts|
    decreases |ts|, 6
  {
    match ParseTight(g, ts)
    case Failed => Failed
    case Done(left, rest) => ParseLooseRest(g, left, rest)
  }

  function ParseLooseRest(g: Grammar, left: Node, ts: seq<Token>): (r: Parsed<Node>)
    ensures r.Done? ==> |r.rest| <= |ts|
    decreases |ts|, 6
  {
    if Peek(ts) != Symbol(LogicSym(g.loose)) then Done(left, ts)
    else if g.guarded && IsUngroupedLogical(left, Other(g.loose)) then Failed
    else
      match ParseTight(g, ts[1..])
      case Failed => Failed
      case Done(right, rest) =>
        if g.guarded && IsUngroupedLogical(right, Other(g.loose)) then Failed
        else ParseLooseRest(g, Logical(g.loose, left, right, false), rest)
  }

  function ParseTight(g: Grammar, ts: seq<Token>): (r: Parsed<Node>)
    ensures r.Done? ==> |r.rest| < |ts|
    decreases |ts|, 5
  {
    match ParseNot(g, ts)
    case Failed => Failed
    case Done(left, rest) => ParseTightRest(g, left, rest)
  }

  function ParseTightRest(g: Grammar, left: Node, ts: seq<Token>): (r: Parsed<Node>)
    ensures r.Done? ==> |r.rest| <= |ts|
    decreases |ts|, 5
  {
    if Peek(ts) != Symbol(LogicSym(Other(g.loose))) then Done(left, ts)
    else
      match ParseNot(g, ts[1..])
      case Failed => Failed
      case Done(right, rest) => ParseTightRest(g, Logical(Other(g.loose), left, right, false), rest)
  }

  function ParseNot(g: Grammar, ts: seq<Token>): (r: Parsed<Node>)
    ensures r.Done? ==> |r.rest| < |ts|
    decreases |ts|, 4
  {
    if Peek(ts) != Symbol(SBang) then ParseComparison(g, ts)
    else
      match ParseComparison(g, ts[1..])
      case Failed => Failed
      case Done(expr, rest) =>
        if expr.Compare? && !expr.grouped then Failed else Done(Unary(expr, false), rest)
  }

  function ParseComparison(g: Grammar, ts: seq<Token>): (r: Parsed<Node>)
    ensures r.Done? ==> |r.rest| < |ts|
    decreases |ts|, 3
  {
    match ParseAdditive(g, ts)
    case Failed => Failed
    case Done(left, rest) =>
      match CompareOpOf(Peek(rest))
      case None => Done(left, rest)
      case Some(op) =>
        match ParseAdditive(g, rest[1..])
        case Failed => Failed
        case Done(right, rest2) =>
          if CompareOpOf(Peek(rest2)).Some? then Failed else Done(Compare(op, left, right, false), rest2)
  }

  function ParseAdditive(g: Grammar, ts: seq<Token>): (r: Parsed<Node>)
    ensures r.Done? ==> |r.rest| < |ts|
    decreases |ts|, 2
  {
    match ParsePrimary(g, ts)
    case Failed => Failed
    case Done(left, rest) => ParseAdditiveRest(g, left, rest)
  }

  function ParseAdditiveRest(g: Grammar, left: Node, ts: seq<Token>): (r: Parsed<Node>)
    ensures r.Done? ==> |r.rest| <= |ts|
    decreases |ts|, 2
  {
    match ArithOpOf(Peek(ts))
    case None => Done(left, ts)
    case Some(op) =>
      match ParsePrimary(g, ts[1..])
      case Failed => Failed
      case Done(right, rest) => ParseAdditiveRest(g, Binary(op, left, right, false), rest)
  }

  function NumberNode(text: string, negative: bool): Node {
    Literal(NumberType(text), Num(if negative then -NumberValue(text) else NumberValue(text)), false)
  }

  function ParsePrimary(g: Grammar, ts: seq<Token>): (r: Parsed<Node>)
    ensures r.Done? ==> |r.rest| < |ts|
    decreases |ts|, 1
  {
    match Peek(ts)
    case NumberTok(text) => Done(NumberNode(text, false), ts[1..])
    case StringTok(s) => Done(Literal(StringT, Str(s), false), ts[1..])
    case BoolTok(b) => Done(Literal(BooleanT, Bool(b), false), ts[1..])
    case NullTok => Done(Literal(NullT, Null, false), ts[1..])
    case Ident(name) => ParseIdentifier(g, name, ts[1..])
    case Symbol(SMinus) =>
      if Peek(ts[1..]).NumberTok? then Done(NumberNode(Peek(ts[1..]).text, true), ts[2..]) else Failed
    case Symbol(SOpen) =>
      (match ParseLoose(g, ts[1..])
       case Failed => Failed
       case Done(expr, rest) => if Peek(rest) == Symbol(SClose) then Done(MarkGrouped(expr), rest[1..]) else Failed)
    case _ => Failed
  }

  /** What follows an identifier: a call, or the rest of a dotted path. */
  function ParseIdentifier(g: Grammar, name: string, ts: seq<Token>): (r: Parsed<Node>)
    ensures r.Done? ==> |r.rest| <= |ts|
    decreases |ts|, 1
  {
    if Peek(ts) == Symbol(SOpen) then
      if Peek(ts[1..]) == Symbol(SClose) then Done(Call(name, [], false), ts[2..])
      else
        match ParseArgs(g, ts[1..])
        case Failed => Failed
        case Done(args, rest) =>
          if Peek(rest) == Symbol(SClose) then Done(Call(name, args, false), rest[1..]) else Failed
    else
      match ParsePath([name], ts)
      case Failed => Failed
      case Done(path, rest) => Done(Variable(path, false), rest)
  }

  function ParseArgs(g: Grammar, ts: seq<Token>): (r: Parsed<seq<Node>>)
    ensures r.Done? ==> |r.rest| < |ts|
    decreases |ts|, 7
  {
    match ParseLoose(g, ts)
    case Failed => Failed
    case Done(arg, rest) =>
      if Peek(rest) != Symbol(SComma) then Done([arg], rest)
      else
        match ParseArgs(g, rest[1..])
        case Failed => Failed
        case Done(args, rest2) => Done([arg] + args, rest2)
  }

  function ParsePath(path: seq<string>, ts: seq<Token>): (r: Parsed<seq<string>>)
    ensures r.Done? ==> |r.rest| <= |ts|
    decreases |ts|
  {
    if Peek(ts) != Symbol(SDot) then Done(path, ts)
    else if Peek(ts[1..]).Ident? then ParsePath(path + [Peek(ts[1..]).name], ts[2..])
    else Failed
  }

  /** A whole expression: nothing but the end marker may follow. */
  function Parse(g: Grammar, ts: seq<Token>): Option<Node> {
    match ParseLoose(g, ts)
    case Failed => None
    case Done(ast, rest) => if Peek(rest) == Eof then Some(ast) else None
  }

  // ----- the stateful parser -----

  lemma SuffixStep(tokens: seq<Token>, i: nat)
    requires i < |tokens|
    ensures Peek(tokens[i..]) == tokens[i] && tokens[i..][1..] == tokens[i + 1..]
    ensures i + 1 < |tokens| ==> tokens[i..][2..] == tokens[i + 2..]
  {
  }

  /** The source's parser: an index into the tokens, moved by the parsing methods.
      Every method returns no node exactly where the source raises its parse error. */
  class Parser {
    const tokens: seq<Token>
    var index: nat

    constructor (tokens: seq<Token>)
      ensures this.tokens == tokens && index == 0
    {
      this.tokens := tokens;
      index := 0;
    }

    ghost predicate Valid()
      reads this
    {
      index <= |tokens|
    }

    /** The tokens not yet consumed. */
    ghost function Remaining(): seq<Token>
      requires Valid()
      reads this
    {
      tokens[index..]
    }

    /** The method's result `r` and the new index agree with the specification's result `p`. */
    ghost predicate Agrees<T>(p: Parsed<T>, r: Option<T>)
      reads this
    {
      match p
      case Failed => r.None?
      case Done(value, rest) => r == Some(value) && Valid() && rest == Remaining()
    }

    method Next() returns (t: Token)
      requires Valid()
      ensures t == Peek(Remaining())
    {
      t := if index < |tokens| then tokens[index] else Eof;
    }

    method ParseWhole() returns (r: Option<Node>)
      requires Valid()
      modifies this
      ensures r == Parse(SOURCE, old(Remaining()))
    {
      hide ParseLoose;
      r := ParseOr();
      if r.Some? {
        var t := Next();
        if t != Eof { r := None; }
      }
    }

    method ParseOr() returns (r: Option<Node>)
      requires Valid()
      modifies this
      ensures Agrees(ParseLoose(SOURCE, old(Remaining())), r)
      decreases |tokens| - index, 6
    {
      hide ParseTight;
      r := ParseAnd();
      if r.None? { return None; }
      var t := Next();
      while t == Symbol(SOr)
        invariant Valid() && r.Some? && old(index) < index && t == Peek(Remaining())
        invariant ParseLooseRest(SOURCE, r.value, Remaining()) == ParseLoose(SOURCE, old(Remaining()))
        decreases |tokens| - index
      {
        SuffixStep(tokens, index);
        index := index + 1;
        if IsUngroupedLogical(r.value, And) { return None; }
        var right := ParseAnd();
        if right.None? || IsUngroupedLogical(right.value, And) { return None; }
        r := Some(Logical(Or, r.value, right.value, false));
        t := Next();
      }
    }

    method ParseAnd() returns (r: Option<Node>)
      requires Valid()
      modifies this
      ensures Agrees(ParseTight(SOURCE, old(Remaining())), r)
      decreases |tokens| - index, 5
    {
      hide ParseNot;
      r := ParseNegation();
      if r.None? { return None; }
      var t := Next();
      while t == Symbol(SAnd)
        invariant Valid() && r.Some? && old(index) < index && t == Peek(Remaining())
        invariant ParseTightRest(SOURCE, r.value, Remaining()) == ParseTight(SOURCE, old(Remaining()))
        decreases |tokens| - index
      {
        SuffixStep(tokens, index);
        index := index + 1;
        var right := ParseNegation();
        if right.None? { return None; }
        r := Some(Logical(And, r.value, right.value, false));
        t := Next();
      }
    }

    method ParseNegation() returns (r: Option<Node>)
      requires Valid()
      modifies this
      ensures Agrees(ParseNot(SOURCE, old(Remaining())), r)
      decreases |tokens| - index, 4
    {
      hide ParseComparison;
      var t := Next();
      if t != Symbol(SBang) {
        r := ParseCompare();
      } else {
        SuffixStep(tokens, index);
        index := index + 1;
        r := ParseCompare();
        if r.Some? {
          r := if r.value.Compare? && !r.value.grouped then None else Some(Unary(r.value, false));
        }
      }
    }

    method ParseCompare() returns (r: Option<Node>)
      requires Valid()
      modifies this
      ensures Agrees(ParseComparison(SOURCE, old(Remaining())), r)
      decreases |tokens| - index, 3
    {
      hide ParseAdditive;
      r := ParseSum();
      if r.None? { return None; }
      var t := Next();
      var op := CompareOpOf(t);
      if op.Some? {
        SuffixStep(tokens, index);
        index := index + 1;
        var right := ParseSum();
        if right.None? { return None; }
        t := Next();
        if CompareOpOf(t).Some? { return None; }
        r := Some(Compare(op.value, r.value, right.value, false));
      }
    }

    method ParseSum() returns (r: Option<Node>)
      requires Valid()
      modifies this
      ensures Agrees(ParseAdditive(SOURCE, old(Remaining())), r)
      decreases |tokens| - index, 2
    {
      hide ParsePrimary;
      r := ParseOperand();
      if r.None? { return None; }
      var t := Next();
      while ArithOpOf(t).Some?
        invariant Valid() && r.Some? && old(index) < index && t == Peek(Remaining())
        invariant ParseAdditiveRest(SOURCE, r.value, Remaining()) == ParseAdditive(SOURCE, old(Remaining()))
        decreases |tokens| - index
      {
        SuffixStep(tokens, index);
        index := index + 1;
        var right := ParseOperand();
        if right.None? { return None; }
        r := Some(Binary(ArithOpOf(t).value, r.value, right.value, false));
        t := Next();
      }
    }

    method ParseOperand() returns (r: Option<Node>)
      requires Valid()
      modifies this
      ensures Agrees(ParsePrimary(SOURCE, old(Remaining())), r)
      decreases |tokens| - index, 1
    {
      hide ParseLoose, ParseIdentifier, NumberNode, MarkGrouped;
      var t := Next();
      if t == Eof { return None; }
      SuffixStep(tokens, index);
      match t {
        case NumberTok(text) =>
          index := index + 1;
          r := Some(NumberNode(text, false));
        case StringTok(s) =>
          index := index + 1;
          r := Some(Literal(StringT, Str(s), false));
        case BoolTok(b) =>
          index := index + 1;
          r := Some(Literal(BooleanT, Bool(b), false));
        case NullTok =>
          index := index + 1;
          r := Some(Literal(NullT, Null, false));
        case Ident(name) =>
          index := index + 1;
          r := ParseName(name);
        case Symbol(sym) =>
          r := ParseSymbolOperand(sym);
        case Eof => r := None;
      }
    }

    /** A signed number or a group. */
    method ParseSymbolOperand(sym: Sym) returns (r: Option<Node>)
      requires Valid() && Peek(Remaining()) == Symbol(sym) && Remaining() != []
      modifies this
      ensures Agrees(ParsePrimary(SOURCE, old(Remaining())), r)
      decreases |tokens| - index, 0
    {
      hide ParseLoose, ParseIdentifier, NumberNode, MarkGrouped;
      SuffixStep(tokens, index);
      if sym == SMinus {
        index := index + 1;
        var next := Next();
        if !next.NumberTok? { return None; }
        SuffixStep(tokens, index);
        index := index + 1;
        r := Some(NumberNode(next.text, true));
      } else if sym == SOpen {
        index := index + 1;
        r := ParseOr();
        if r.None? { return None; }
        var close := Next();
        if close != Symbol(SClose) { return None; }
        SuffixStep(tokens, index);
        index := index + 1;
        r := Some(MarkGrouped(r.value));
      } else {
        r := None;
      }
    }

    /** `parseIdentifierPrimary`, after the identifier itself. */
    method ParseName(name: string) returns (r: Option<Node>)
      requires Valid()
      modifies this
      ensures Agrees(ParseIdentifier(SOURCE, name, old(Remaining())), r)
      decreases |tokens| - index, 1
    {
      hide ParseLoose, ParseArgs, ParsePath;
      var t := Next();
      if t == Symbol(SOpen) {
        SuffixStep(tokens, index);
        index := index + 1;
        var args: seq<Node> := [];
        var close := Next();
        if close != Symbol(SClose) {
          var parsed := ParseArguments();
          if parsed.None? { return None; }
          args := parsed.value;
          close := Next();
        }
        if close != Symbol(SClose) { return None; }
        SuffixStep(tokens, index);
        index := index + 1;
        r := Some(Call(name, args, false));
      } else {
        var path := ParseDotted(name);
        r := if path.None? then None else Some(Variable(path.value, false));
      }
    }

    method ParseArguments() returns (r: Option<seq<Node>>)
      requires Valid()
      modifies this
      ensures Agrees(ParseArgs(SOURCE, old(Remaining())), r)
      decreases |tokens| - index, 7
    {
      hide ParseLoose;
      var args: seq<Node> := [];
      PrefixedNothing(ParseArgs(SOURCE, Remaining()));
      while true
        invariant Valid() && old(index) <= index
        invariant Prefixed(args, ParseArgs(SOURCE, Remaining())) == ParseArgs(SOURCE, old(Remaining()))
        decreases |tokens| - index
      {
        var arg := ParseOr();
        if arg.None? { return None; }
        PrefixedStep(args, arg.value, Remaining());
        args := args + [arg.value];
        var t := Next();
        if t != Symbol(SComma) { return Some(args); }
        SuffixStep(tokens, index);
        index := index + 1;
      }
    }

    method ParseDotted(name: string) returns (r: Option<seq<string>>)
      requires Valid()
      modifies this
      ensures Agrees(ParsePath([name], old(Remaining())), r)
    {
      hide ParsePath;
      var path := [name];
      var t := Next();
      while t == Symbol(SDot)
        invariant Valid() && t == Peek(Remaining())
        invariant ParsePath(path, Remaining()) == ParsePath([name], old(Remaining()))
        decreases |tokens| - index
      {
        PathStep(path, Remaining());
        SuffixStep(tokens, index);
        index := index + 1;
        var part := Next();
        if !part.Ident? { return None; }
        path := path + [part.name];
        index := index + 1;
        t := Next();
      }
      PathStep(path, Remaining());
      r := Some(path);
    }
  }

  /** A dotted path, one part at a time. */
  lemma PathStep(path: seq<string>, ts: seq<Token>)
    ensures Peek(ts) != Symbol(SDot) ==> ParsePath(path, ts) == Done(path, ts)
    ensures Peek(ts) == Symbol(SDot) ==>
              ParsePath(path, ts) ==
              if Peek(ts[1..]).Ident? then ParsePath(path + [Peek(ts[1..]).name], ts[2..]) else Failed
  {
  }

  function Prefixed(args: seq<Node>, p: Parsed<seq<Node>>): Parsed<seq<Node>> {
    if p.Failed? then Failed else Done(args + p.value, p.rest)
  }

  lemma PrefixedNothing(p: Parsed<seq<Node>>)
    ensures Prefixed([], p) == p
  {
    if p.Done? {
      assert [] + p.value == p.value;
    }
  }

  lemma PrefixedStep(args: seq<Node>, arg: Node, rest: seq<Token>)
    ensures Peek(rest) == Symbol(SComma) ==>
              Prefixed(args + [arg], ParseArgs(SOURCE, rest[1..])) ==
              (match ParseArgs(SOURCE, rest[1..])
               case Failed => Failed
               case Done(more, r) => Done(args + ([arg] + more), r))
  {
    if Peek(rest) == Symbol(SComma) && ParseArgs(SOURCE, rest[1..]).Done? {
      var more := ParseArgs(SOURCE, rest[1..]).value;
      assert args + [arg] + more == args + ([arg] + more);
    }
  }
}
