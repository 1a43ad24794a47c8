/** The parser refuses exactly what would depend on the relative precedence of `&&` and `||`:
    it accepts a token list with a tree if and only if the two plain grammars, one with `||` and one
    with `&&` as the looser operator, both accept it with that same tree. */
module IrelPrecedence {
  import opened IrelSyntax
  import opened IrelParser

  const OR_LOOSE: Grammar := Grammar(Or, false)
  const AND_LOOSE: Grammar := Grammar(And, false)

  // ----- a level of logical operators, read flat -----

  /** One operand, then operator-operand pairs. */
  datatype Flat = Flat(first: Node, items: seq<(LogicOp, Node)>)

  function LogicOpOf(t: Token): Option<LogicOp> {
    if t == Symbol(SOr) then Some(Or) else if t == Symbol(SAnd) then Some(And) else None
  }

  function ParseItems(g: Grammar, ts: seq<Token>): (r: Parsed<seq<(LogicOp, Node)>>)
    ensures r.Done? ==> |r.rest| <= |ts|
    decreases |ts|
  {
    match LogicOpOf(Peek(ts))
    case None => Done([], ts)
    case Some(op) =>
      match ParseNot(g, ts[1..])
      case Failed => Failed
      case Done(n, rest) =>
        match ParseItems(g, rest)
        case Failed => Failed
        case Done(items, end) => Done([(op, n)] + items, end)
  }

  predicate Uniform(items: seq<(LogicOp, Node)>, op: LogicOp) {
    forall i :: 0 <= i < |items| ==> items[i].0 == op
  }

  /** The leading items joined by `op`, folded to the left, and the items after them. */
  function FoldTight(op: LogicOp, left: Node, items: seq<(LogicOp, Node)>): (r: (Node, seq<(LogicOp, Node)>))
    ensures |r.1| <= |items|
    ensures r.1 != [] ==> r.1[0].0 == Other(op)
    decreases |items|
  {
    if items == [] || items[0].0 != op then (left, items)
    else FoldTight(op, Logical(op, left, items[0].1, false), items[1..])
  }

  /** Folds what remains with `loose`, each right operand being a run of the tighter operator. */
  function FoldLoose(loose: LogicOp, left: Node, items: seq<(LogicOp, Node)>): Node
    requires items != [] ==> items[0].0 == loose
    decreases |items|
  {
    if items == [] then left
    else
      var (right, rest) := FoldTight(Other(loose), items[0].1, items[1..]);
      FoldLoose(loose, Logical(loose, left, right, false), rest)
  }

  function Assemble(loose: LogicOp, f: Flat): Node {
    var (left, rest) := FoldTight(Other(loose), f.first, f.items);
    FoldLoose(loose, left, rest)
  }

  // ----- operands are never bare logical nodes -----

  predicate BareLogical(n: Node) { n.Logical? && !n.grouped }

  lemma {:induction false} AdditiveRestKind(g: Grammar, left: Node, ts: seq<Token>)
    requires !BareLogical(left) && !(left.Compare? && !left.grouped)
    ensures var p := ParseAdditiveRest(g, left, ts);
            p.Done? ==> !BareLogical(p.value) && !(p.value.Compare? && !p.value.grouped)
    decreases |ts|
  {
    hide ParsePrimary;
    if ArithOpOf(Peek(ts)).Some? && ParsePrimary(g, ts[1..]).Done? {
      var p := ParsePrimary(g, ts[1..]);
      AdditiveRestKind(g, Binary(ArithOpOf(Peek(ts)).value, left, p.value, false), p.rest);
    }
  }

  lemma PrimaryKind(g: Grammar, ts: seq<Token>)
    ensures var p := ParsePrimary(g, ts);
            p.Done? ==> !BareLogical(p.value) && !(p.value.Compare? && !p.value.grouped)
  {
    hide ParseLoose, ParseArgs, ParsePath;
    if Peek(ts).Ident? {
      assert ParsePrimary(g, ts) == ParseIdentifier(g, Peek(ts).name, ts[1..]);
      var p := ParseIdentifier(g, Peek(ts).name, ts[1..]);
      assert p.Done? ==> p.value.Call? || p.value.Variable?;
    } else if Peek(ts) == Symbol(SOpen) && ParseLoose(g, ts[1..]).Done? {
      assert MarkGrouped(ParseLoose(g, ts[1..]).value).grouped;
    }
  }

  lemma AdditiveKind(g: Grammar, ts: seq<Token>)
    ensures var p := ParseAdditive(g, ts);
            p.Done? ==> !BareLogical(p.value) && !(p.value.Compare? && !p.value.grouped)
  {
    hide ParsePrimary, ParseAdditiveRest;
    PrimaryKind(g, ts);
    if ParsePrimary(g, ts).Done? {
      var p := ParsePrimary(g, ts);
      AdditiveRestKind(g, p.value, p.rest);
    }
  }

  lemma NotKind(g: Grammar, ts: seq<Token>)
    ensures ParseNot(g, ts).Done? ==> !BareLogical(ParseNot(g, ts).value)
  {
    hide ParseAdditive;
    AdditiveKind(g, ts);
  }

  // ----- the nested loops of the parser compute the fold of the flat list -----

  lemma {:induction false} TightRestIsFold(g: Grammar, left: Node, ts: seq<Token>)
    ensures var tight := Other(g.loose);
            match ParseItems(g, ts)
            case Failed =>
              var p := ParseTightRest(g, left, ts);
              p.Done? ==> ParseItems(g, p.rest).Failed? && |p.rest| <= |ts|
            case Done(items, end) =>
              var p := ParseTightRest(g, left, ts);
              p.Done? && p.value == FoldTight(tight, left, items).0
              && ParseItems(g, p.rest) == Done(FoldTight(tight, left, items).1, end)
    decreases |ts|
  {
    hide ParseNot;
    if Peek(ts) == Symbol(LogicSym(Other(g.loose))) && ParseNot(g, ts[1..]).Done? {
      var p := ParseNot(g, ts[1..]);
      var node := Logical(Other(g.loose), left, p.value, false);
      TightRestIsFold(g, node, p.rest);
      if ParseItems(g, p.rest).Done? {
        var items := ParseItems(g, ts).value;
        assert items[0] == (Other(g.loose), p.value) && items[1..] == ParseItems(g, p.rest).value;
      }
    }
  }

  /** No guard is hit while reading `items` after `left`: the guard wants one operator only. */
  predicate Permitted(g: Grammar, left: Node, items: seq<(LogicOp, Node)>) {
    g.guarded ==> Uniform(items, g.loose) && (items != [] ==> !IsUngroupedLogical(left, Other(g.loose)))
  }

  lemma FoldTightKind(op: LogicOp, left: Node, items: seq<(LogicOp, Node)>)
    requires !BareLogical(left)
    ensures IsUngroupedLogical(FoldTight(op, left, items).0, op) <==> items != [] && items[0].0 == op
    ensures items != [] && items[0].0 != op ==> FoldTight(op, left, items) == (left, items)
  {
    if items != [] && items[0].0 == op {
      FoldTightBare(op, Logical(op, left, items[0].1, false), items[1..]);
    }
  }

  lemma {:induction false} FoldTightBare(op: LogicOp, left: Node, items: seq<(LogicOp, Node)>)
    requires IsUngroupedLogical(left, op)
    ensures IsUngroupedLogical(FoldTight(op, left, items).0, op)
    decreases |items|
  {
    if items != [] && items[0].0 == op {
      FoldTightBare(op, Logical(op, left, items[0].1, false), items[1..]);
    }
  }

  lemma {:induction false} TightRestStops(g: Grammar, left: Node, ts: seq<Token>)
    ensures var p := ParseTightRest(g, left, ts);
            p.Done? ==> Peek(p.rest) != Symbol(LogicSym(Other(g.loose))) && |p.rest| <= |ts|
    decreases |ts|
  {
    hide ParseNot;
    if Peek(ts) == Symbol(LogicSym(Other(g.loose))) && ParseNot(g, ts[1..]).Done? {
      var p := ParseNot(g, ts[1..]);
      TightRestStops(g, Logical(Other(g.loose), left, p.value, false), p.rest);
    }
  }

  /** One more loose item: how fold and guard unfold. */
  lemma LooseStep(g: Grammar, left: Node, n: Node, more: seq<(LogicOp, Node)>)
    requires !BareLogical(n)
    ensures var items := [(g.loose, n)] + more;
            var (right, rest) := FoldTight(Other(g.loose), n, more);
            var node := Logical(g.loose, left, right, false);
            && FoldLoose(g.loose, left, items) == FoldLoose(g.loose, node, rest)
            && (g.guarded ==>
                  (Permitted(g, left, items) <==>
                   !IsUngroupedLogical(left, Other(g.loose)) && !IsUngroupedLogical(right, Other(g.loose))
                       && Permitted(g, node, rest)))
            && (!g.guarded ==> Permitted(g, left, items) && Permitted(g, node, rest))
  {
    var items := [(g.loose, n)] + more;
    assert items[0] == (g.loose, n) && items[1..] == more;
    FoldTightKind(Other(g.loose), n, more);
    assert Uniform(items, g.loose) <==> Uniform(more, g.loose) by {
      if Uniform(items, g.loose) {
        forall i | 0 <= i < |more| ensures more[i].0 == g.loose { assert more[i] == items[i + 1]; }
      }
    }
  }

  lemma {:induction false} LooseRestIsFold(g: Grammar, left: Node, ts: seq<Token>)
    requires Peek(ts) != Symbol(LogicSym(Other(g.loose)))
    ensures match ParseItems(g, ts)
            case Failed => ParseLooseRest(g, left, ts).Failed?
            case Done(items, end) =>
              && (items != [] ==> items[0].0 == g.loose)
              && ParseLooseRest(g, left, ts) ==
                 if Permitted(g, left, items) then Done(FoldLoose(g.loose, left, items), end) else Failed
    decreases |ts|
  {
    hide ParseNot;
    if Peek(ts) == Symbol(LogicSym(g.loose)) {
      NotKind(g, ts[1..]);
      var p := ParseNot(g, ts[1..]);
      if p.Done? {
        TightRestIsFold(g, p.value, p.rest);
        var t := ParseTightRest(g, p.value, p.rest);
        assert ParseTight(g, ts[1..]) == t;
        if t.Done? {
          TightRestStops(g, p.value, p.rest);
          var node := Logical(g.loose, left, t.value, false);
          LooseRestIsFold(g, node, t.rest);
          if ParseItems(g, p.rest).Done? {
            LooseStep(g, left, p.value, ParseItems(g, p.rest).value);
          }
        }
      }
    }
  }

  function ParseFlat(g: Grammar, ts: seq<Token>): Parsed<Flat> {
    match ParseNot(g, ts)
    case Failed => Failed
    case Done(n, rest) =>
      match ParseItems(g, rest)
      case Failed => Failed
      case Done(items, end) => Done(Flat(n, items), end)
  }

  predicate OneOperator(items: seq<(LogicOp, Node)>) {
    Uniform(items, And) || Uniform(items, Or)
  }

  lemma {:induction false} FoldTightRest(op: LogicOp, left: Node, items: seq<(LogicOp, Node)>)
    ensures FoldTight(op, left, items).1 == [] <==> Uniform(items, op)
    decreases |items|
  {
    if items != [] && items[0].0 == op {
      FoldTightRest(op, Logical(op, left, items[0].1, false), items[1..]);
      if Uniform(items[1..], op) {
        forall i | 0 <= i < |items| ensures items[i].0 == op { if i > 0 { assert items[i] == items[1..][i - 1]; } }
      }
    }
  }

  /** A whole level: the parser assembles the flat list, and the guard refuses mixed lists. */
  lemma LooseIsFold(g: Grammar, ts: seq<Token>)
    ensures match ParseFlat(g, ts)
            case Failed => ParseLoose(g, ts).Failed?
            case Done(f, end) =>
              ParseLoose(g, ts) == if g.guarded && !OneOperator(f.items) then Failed
                  else Done(Assemble(g.loose, f), end)
  {
    hide ParseNot;
    NotKind(g, ts);
    var p := ParseNot(g, ts);
    if p.Done? {
      var tight := Other(g.loose);
      TightRestIsFold(g, p.value, p.rest);
      TightRestStops(g, p.value, p.rest);
      var t := ParseTightRest(g, p.value, p.rest);
      if t.Done? {
        LooseRestIsFold(g, t.value, t.rest);
        if ParseItems(g, p.rest).Done? {
          var items := ParseItems(g, p.rest).value;
          FoldTightKind(tight, p.value, items);
          FoldTightRest(tight, p.value, items);
        }
      }
    }
  }

  // ----- when the two plain readings coincide -----

  function FoldAll(left: Node, items: seq<(LogicOp, Node)>): Node
    decreases |items|
  {
    if items == [] then left else FoldAll(Logical(items[0].0, left, items[0].1, false), items[1..])
  }

  lemma {:induction false} FoldAllInjective(a: Node, xs: seq<(LogicOp, Node)>, b: Node, ys: seq<(LogicOp, Node)>)
    requires |xs| == |ys| && FoldAll(a, xs) == FoldAll(b, ys)
    ensures a == b && xs == ys
    decreases |xs|
  {
    if xs != [] {
      FoldAllInjective(Logical(xs[0].0, a, xs[0].1, false), xs[1..], Logical(ys[0].0, b, ys[0].1, false), ys[1..]);
      assert xs == [xs[0]] + xs[1..] && ys == [ys[0]] + ys[1..];
    }
  }

  lemma {:induction false} FoldTightUniform(op: LogicOp, left: Node, items: seq<(LogicOp, Node)>)
    requires Uniform(items, op)
    ensures FoldTight(op, left, items) == (FoldAll(left, items), [])
    decreases |items|
  {
    if items != [] {
      FoldTightUniform(op, Logical(op, left, items[0].1, false), items[1..]);
    }
  }

  lemma {:induction false} FoldLooseUniform(op: LogicOp, left: Node, items: seq<(LogicOp, Node)>)
    requires Uniform(items, op)
    ensures FoldLoose(op, left, items) == FoldAll(left, items)
    decreases |items|
  {
    if items != [] {
      assert items[1..] != [] ==> items[1..][0].0 == op;
      assert FoldTight(Other(op), items[0].1, items[1..]) == (items[0].1, items[1..]);
      FoldLooseUniform(op, Logical(op, left, items[0].1, false), items[1..]);
    }
  }

  lemma AssembleUniform(loose: LogicOp, f: Flat)
    requires OneOperator(f.items)
    ensures Assemble(loose, f) == FoldAll(f.first, f.items)
  {
    if Uniform(f.items, Other(loose)) {
      FoldTightUniform(Other(loose), f.first, f.items);
    } else {
      FoldLooseUniform(loose, f.first, f.items);
    }
  }

  lemma {:induction false} FoldLooseRoot(loose: LogicOp, left: Node, items: seq<(LogicOp, Node)>)
    requires items != [] ==> items[0].0 == loose
    requires IsUngroupedLogical(left, loose) || items != []
    ensures IsUngroupedLogical(FoldLoose(loose, left, items), loose)
    decreases |items|
  {
    if items != [] {
      var (right, rest) := FoldTight(Other(loose), items[0].1, items[1..]);
      FoldLooseRoot(loose, Logical(loose, left, right, false), rest);
    }
  }

  /** The looser operator, when it occurs, ends up at the root. */
  lemma AssembleRoot(loose: LogicOp, f: Flat)
    requires !Uniform(f.items, Other(loose))
    ensures IsUngroupedLogical(Assemble(loose, f), loose)
  {
    FoldTightRest(Other(loose), f.first, f.items);
    var (left, rest) := FoldTight(Other(loose), f.first, f.items);
    FoldLooseRoot(loose, left, rest);
  }

  /** Two flat lists with the same operators read alike under both precedences only if they are
      equal and use one operator. */
  lemma ReadAlike(f: Flat, h: Flat)
    requires |f.items| == |h.items| && forall i :: 0 <= i < |f.items| ==> f.items[i].0 == h.items[i].0
    ensures Assemble(Or, f) == Assemble(And, h) <==> f == h && OneOperator(f.items)
  {
    hide Assemble, FoldAll;
    if OneOperator(f.items) {
      assert OneOperator(h.items);
      AssembleUniform(Or, f);
      AssembleUniform(And, h);
      if Assemble(Or, f) == Assemble(And, h) {
        FoldAllInjective(f.first, f.items, h.first, h.items);
      }
    } else {
      assert !Uniform(h.items, Or);
      AssembleRoot(Or, f);
      AssembleRoot(And, h);
    }
  }

  // ----- the three parsers side by side -----

  /** The plain parsers stop at the same place; the source parser answers exactly where they agree. */
  ghost predicate Agree<T>(s: Parsed<T>, p: Parsed<T>, q: Parsed<T>) {
    && (p.Done? <==> q.Done?)
    && (p.Done? ==> p.rest == q.rest)
    && s == if p.Done? && p == q then p else Failed
  }

  predicate BareCompare(n: Node) { n.Compare? && !n.grouped }

  /** Agreement on trees, with the outer shape always the same. */
  ghost predicate AgreeTrees(s: Parsed<Node>, p: Parsed<Node>, q: Parsed<Node>) {
    && Agree(s, p, q)
    && (p.Done? ==> p.value.grouped == q.value.grouped && (BareCompare(p.value) <==> BareCompare(q.value)))
  }

  lemma MarkGroupedInjective(a: Node, b: Node)
    requires a.grouped == b.grouped
    ensures MarkGrouped(a) == MarkGrouped(b) <==> a == b
  {
  }

  lemma {:induction false} PrimaryAgree(ts: seq<Token>)
    ensures AgreeTrees(ParsePrimary(SOURCE, ts), ParsePrimary(OR_LOOSE, ts), ParsePrimary(AND_LOOSE, ts))
    decreases |ts|, 1
  {
    hide ParseLoose, ParseIdentifier;
    if Peek(ts).Ident? {
      IdentifierAgree(Peek(ts).name, ts[1..]);
    } else if Peek(ts) == Symbol(SOpen) {
      LooseAgree(ts[1..]);
      var p, q := ParseLoose(OR_LOOSE, ts[1..]), ParseLoose(AND_LOOSE, ts[1..]);
      if p.Done? {
        MarkGroupedInjective(p.value, q.value);
      }
    }
  }

  lemma {:induction false} IdentifierAgree(name: string, ts: seq<Token>)
    ensures AgreeTrees(ParseIdentifier(SOURCE, name, ts), ParseIdentifier(OR_LOOSE, name, ts),
            ParseIdentifier(AND_LOOSE, name, ts))
    decreases |ts|, 1
  {
    hide ParseArgs;
    if Peek(ts) == Symbol(SOpen) && Peek(ts[1..]) != Symbol(SClose) {
      ArgsAgree(ts[1..]);
    }
  }

  lemma {:induction false} ArgsAgree(ts: seq<Token>)
    ensures Agree(ParseArgs(SOURCE, ts), ParseArgs(OR_LOOSE, ts), ParseArgs(AND_LOOSE, ts))
    decreases |ts|, 8
  {
    hide ParseLoose;
    LooseAgree(ts);
    var p, q := ParseLoose(OR_LOOSE, ts), ParseLoose(AND_LOOSE, ts);
    if p.Done? && Peek(p.rest) == Symbol(SComma) {
      ArgsAgree(p.rest[1..]);
      var ps, qs := ParseArgs(OR_LOOSE, p.rest[1..]), ParseArgs(AND_LOOSE, p.rest[1..]);
      if ps.Done? {
        ConsInjective(p.value, ps.value, q.value, qs.value);
      }
    }
  }

  lemma ConsInjective<T>(a: T, xs: seq<T>, b: T, ys: seq<T>)
    ensures [a] + xs == [b] + ys <==> a == b && xs == ys
  {
    if [a] + xs == [b] + ys {
      assert ([a] + xs)[0] == a && ([a] + xs)[1..] == xs;
      assert ([b] + ys)[0] == b && ([b] + ys)[1..] == ys;
    }
  }

  lemma {:induction false} AdditiveRestAgree(lp: Node, lq: Node, ts: seq<Token>)
    requires lp.grouped == lq.grouped && (BareCompare(lp) <==> BareCompare(lq))
    ensures var p, q := ParseAdditiveRest(OR_LOOSE, lp, ts), ParseAdditiveRest(AND_LOOSE, lq, ts);
            && (p.Done? && p == q ==> lp == lq)
            && AgreeTrees(if lp == lq then ParseAdditiveRest(SOURCE, lp, ts) else Failed, p, q)
    decreases |ts|, 2
  {
    hide ParsePrimary;
    if ArithOpOf(Peek(ts)).Some? {
      PrimaryAgree(ts[1..]);
      var op := ArithOpOf(Peek(ts)).value;
      var p, q := ParsePrimary(OR_LOOSE, ts[1..]), ParsePrimary(AND_LOOSE, ts[1..]);
      if p.Done? {
        AdditiveRestAgree(Binary(op, lp, p.value, false), Binary(op, lq, q.value, false), p.rest);
      }
    }
  }

  lemma {:induction false} AdditiveAgree(ts: seq<Token>)
    ensures AgreeTrees(ParseAdditive(SOURCE, ts), ParseAdditive(OR_LOOSE, ts), ParseAdditive(AND_LOOSE, ts))
    decreases |ts|, 2
  {
    hide ParsePrimary, ParseAdditiveRest;
    PrimaryAgree(ts);
    var p, q := ParsePrimary(OR_LOOSE, ts), ParsePrimary(AND_LOOSE, ts);
    if p.Done? {
      AdditiveRestAgree(p.value, q.value, p.rest);
    }
  }

  lemma {:induction false} ComparisonAgree(ts: seq<Token>)
    ensures AgreeTrees(ParseComparison(SOURCE, ts), ParseComparison(OR_LOOSE, ts), ParseComparison(AND_LOOSE, ts))
    decreases |ts|, 3
  {
    hide ParseAdditive;
    AdditiveAgree(ts);
    var p := ParseAdditive(OR_LOOSE, ts);
    if p.Done? && CompareOpOf(Peek(p.rest)).Some? {
      AdditiveAgree(p.rest[1..]);
    }
  }

  lemma {:induction false} NotAgree(ts: seq<Token>)
    ensures AgreeTrees(ParseNot(SOURCE, ts), ParseNot(OR_LOOSE, ts), ParseNot(AND_LOOSE, ts))
    decreases |ts|, 4
  {
    hide ParseComparison;
    if Peek(ts) != Symbol(SBang) {
      ComparisonAgree(ts);
    } else {
      ComparisonAgree(ts[1..]);
    }
  }

  predicate SameOperators(a: seq<(LogicOp, Node)>, b: seq<(LogicOp, Node)>) {
    |a| == |b| && forall i :: 0 <= i < |a| ==> a[i].0 == b[i].0
  }

  lemma {:induction false} ItemsAgree(ts: seq<Token>)
    ensures var p, q := ParseItems(OR_LOOSE, ts), ParseItems(AND_LOOSE, ts);
            Agree(ParseItems(SOURCE, ts), p, q) && (p.Done? ==> SameOperators(p.value, q.value))
    decreases |ts|, 5
  {
    hide ParseNot;
    if LogicOpOf(Peek(ts)).Some? {
      var op := LogicOpOf(Peek(ts)).value;
      NotAgree(ts[1..]);
      var p, q := ParseNot(OR_LOOSE, ts[1..]), ParseNot(AND_LOOSE, ts[1..]);
      if p.Done? {
        ItemsAgree(p.rest);
        var ps, qs := ParseItems(OR_LOOSE, p.rest), ParseItems(AND_LOOSE, p.rest);
        if ps.Done? {
          ConsInjective((op, p.value), ps.value, (op, q.value), qs.value);
        }
      }
    }
  }

  lemma AssembleShape(loose: LogicOp, f: Flat)
    ensures f.items == [] ==> Assemble(loose, f) == f.first
    ensures f.items != [] ==> BareLogical(Assemble(loose, f))
  {
    if f.items != [] {
      if Uniform(f.items, Other(loose)) {
        FoldTightRest(Other(loose), f.first, f.items);
        assert f.items[0].0 == Other(loose);
        FoldTightBare(Other(loose), Logical(Other(loose), f.first, f.items[0].1, false), f.items[1..]);
      } else {
        AssembleRoot(loose, f);
      }
    }
  }

  lemma {:induction false} LooseAgree(ts: seq<Token>)
    ensures AgreeTrees(ParseLoose(SOURCE, ts), ParseLoose(OR_LOOSE, ts), ParseLoose(AND_LOOSE, ts))
    decreases |ts|, 7
  {
    hide ParseNot, ParseItems, ParseLoose, Assemble, OneOperator, SameOperators;
    NotAgree(ts);
    LooseIsFold(SOURCE, ts);
    LooseIsFold(OR_LOOSE, ts);
    LooseIsFold(AND_LOOSE, ts);
    var p, q := ParseNot(OR_LOOSE, ts), ParseNot(AND_LOOSE, ts);
    if p.Done? {
      ItemsAgree(p.rest);
      var ps, qs := ParseItems(OR_LOOSE, p.rest), ParseItems(AND_LOOSE, p.rest);
      if ps.Done? {
        FlatsAgree(Flat(p.value, ps.value), Flat(q.value, qs.value));
      }
    }
  }

  lemma FlatsAgree(f: Flat, h: Flat)
    requires SameOperators(f.items, h.items)
    requires f.first.grouped == h.first.grouped && (BareCompare(f.first) <==> BareCompare(h.first))
    ensures var a, b := Assemble(Or, f), Assemble(And, h);
            && (a == b <==> f == h && OneOperator(f.items))
            && a.grouped == b.grouped && (BareCompare(a) <==> BareCompare(b))
  {
    hide Assemble, OneOperator;
    ReadAlike(f, h);
    AssembleShape(Or, f);
    AssembleShape(And, h);
  }

  /** The parser accepts a token list with tree `ast` exactly when both plain grammars read it as `ast`. */
  lemma PrecedenceIndependent(ts: seq<Token>, ast: Node)
    ensures Parse(SOURCE, ts) == Some(ast)
            <==> Parse(OR_LOOSE, ts) == Some(ast) && Parse(AND_LOOSE, ts) == Some(ast)
  {
    hide ParseLoose;
    LooseAgree(ts);
  }
}
