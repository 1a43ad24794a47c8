/** What IREL expressions mean, as laws over all trees, scopes and date readings, and for whole texts. */
module IrelLaws {
  import opened IrelSyntax
  import opened Decimals
  import opened IrelEval
  import opened IrelPrinter
  import IrelLexer
  import IrelParser

  // ----- building expressions -----

  const ONE: Node := Literal(IntT, Num(1.0), false)
  const TRUE: Node := Literal(BooleanT, Bool(true), false)
  const FALSE: Node := Literal(BooleanT, Bool(false), false)

  function Plus(a: Node, b: Node): Node { Binary(Add, a, b, false) }
  function Minus(a: Node, b: Node): Node { Binary(Sub, a, b, false) }
  function Rel(op: CompareOp, a: Node, b: Node): Node { Compare(op, a, b, false) }
  function Both(a: Node, b: Node): Node { Logical(And, a, b, false) }
  function Either(a: Node, b: Node): Node { Logical(Or, a, b, false) }
  function Not(a: Node): Node { Unary(a, false) }
  function Ask(name: string, args: seq<Node>): Node { Call(name, args, false) }

  predicate Numeric(o: Outcome) { o.Ok? && o.v.Num? }
  predicate Truth(o: Outcome) { o.Ok? && o.v.Bool? }
  predicate Textual(o: Outcome) { o.Ok? && o.v.Str? }

  predicate True(o: Outcome) { o == Ok(Bool(true)) }
  predicate False(o: Outcome) { o == Ok(Bool(false)) }

  // ----- order -----

  /** A number is below its successor and not above it. */
  lemma Successor(a: Node, scope: Scope, dates: Dates)
    requires Numeric(Eval(a, scope, dates))
    ensures True(Eval(Rel(Lt, a, Plus(a, ONE)), scope, dates)) && False(Eval(Rel(Gt, a, Plus(a, ONE)), scope, dates))
    ensures True(Eval(Rel(Gt, a, Minus(a, ONE)), scope, dates)) && False(Eval(Rel(Lt, a, Minus(a, ONE)), scope, dates))
  {
    Sums(a, ONE, scope, dates);
  }

  /** Sums and differences are those of the operands. */
  lemma Sums(a: Node, b: Node, scope: Scope, dates: Dates)
    requires Numeric(Eval(a, scope, dates)) && Numeric(Eval(b, scope, dates))
    ensures var x, y := Eval(a, scope, dates).v.n, Eval(b, scope, dates).v.n;
            && Eval(Plus(a, b), scope, dates) == Ok(Num(x + y)) && Eval(Minus(a, b), scope, dates) == Ok(Num(x - y))
  {
  }

  /** Exactly one of less, equal and greater holds; the weak comparisons are the negations of the opposite strict ones,
      and inequality that of equality. */
  lemma Trichotomy(a: Node, b: Node, scope: Scope, dates: Dates)
    requires Numeric(Eval(a, scope, dates)) && Numeric(Eval(b, scope, dates))
    ensures var lt := Eval(Rel(Lt, a, b), scope, dates);
            var eq := Eval(Rel(Eq, a, b), scope, dates);
            var gt := Eval(Rel(Gt, a, b), scope, dates);
            && Truth(lt) && Truth(eq) && Truth(gt)
            && (True(lt) || True(eq) || True(gt))
            && !(True(lt) && True(eq)) && !(True(lt) && True(gt)) && !(True(eq) && True(gt))
    ensures Eval(Rel(Le, a, b), scope, dates) == Eval(Not(Rel(Gt, a, b)), scope, dates)
    ensures Eval(Rel(Ge, a, b), scope, dates) == Eval(Not(Rel(Lt, a, b)), scope, dates)
    ensures Eval(Rel(Gt, a, b), scope, dates) == Eval(Rel(Lt, b, a), scope, dates)
  {
  }

  /** Less is transitive and survives adding the same on both sides. */
  lemma OrderedSums(a: Node, b: Node, c: Node, scope: Scope, dates: Dates)
    requires Numeric(Eval(a, scope, dates)) && Numeric(Eval(b, scope, dates)) && Numeric(Eval(c, scope, dates))
    ensures True(Eval(Rel(Lt, a, b), scope, dates)) && True(Eval(Rel(Lt, b, c), scope, dates)) ==>
              True(Eval(Rel(Lt, a, c), scope, dates))
    ensures Eval(Rel(Lt, a, b), scope, dates) == Eval(Rel(Lt, Plus(a, c), Plus(b, c)), scope, dates)
    ensures Eval(Minus(Plus(a, b), b), scope, dates) == Eval(a, scope, dates)
    ensures Eval(Plus(a, b), scope, dates) == Eval(Plus(b, a), scope, dates)
    ensures Eval(Plus(Plus(a, b), c), scope, dates) == Eval(Plus(a, Plus(b, c)), scope, dates)
  {
    hide Eval;
    Sums(a, b, scope, dates);
    Sums(b, a, scope, dates);
    Sums(a, c, scope, dates);
    Sums(b, c, scope, dates);
    Sums(Plus(a, b), b, scope, dates);
    Sums(Plus(a, b), c, scope, dates);
    Sums(a, Plus(b, c), scope, dates);
    Less(a, b, scope, dates);
    Less(b, c, scope, dates);
    Less(a, c, scope, dates);
    Less(Plus(a, c), Plus(b, c), scope, dates);
  }

  lemma Less(a: Node, b: Node, scope: Scope, dates: Dates)
    requires Numeric(Eval(a, scope, dates)) && Numeric(Eval(b, scope, dates))
    ensures Eval(Rel(Lt, a, b), scope, dates) == Ok(Bool(Eval(a, scope, dates).v.n < Eval(b, scope, dates).v.n))
  {
    hide Resolve, Arith, Logic, CompareDates, StringTest, Arity;
  }

  /** Equality holds exactly between equal values of any kind, and inequality is its negation. */
  lemma Equality(a: Node, b: Node, scope: Scope, dates: Dates)
    requires Eval(a, scope, dates).Ok? && Eval(b, scope, dates).Ok?
    ensures True(Eval(Rel(Eq, a, b), scope, dates)) <==> Eval(a, scope, dates) == Eval(b, scope, dates)
    ensures Eval(Rel(Ne, a, b), scope, dates) == Eval(Not(Rel(Eq, a, b)), scope, dates)
  {
  }

  // ----- logic -----

  /** De Morgan, units, zeros, double negation. */
  lemma BooleanAlgebra(a: Node, b: Node, scope: Scope, dates: Dates)
    requires Truth(Eval(a, scope, dates)) && Truth(Eval(b, scope, dates))
    ensures Eval(Not(Both(a, b)), scope, dates) == Eval(Either(Not(a), Not(b)), scope, dates)
    ensures Eval(Not(Either(a, b)), scope, dates) == Eval(Both(Not(a), Not(b)), scope, dates)
    ensures Eval(Both(a, TRUE), scope, dates) == Eval(a, scope, dates) == Eval(Either(a, FALSE), scope, dates)
    ensures False(Eval(Both(a, FALSE), scope, dates)) && True(Eval(Either(a, TRUE), scope, dates))
    ensures Eval(Not(Not(a)), scope, dates) == Eval(a, scope, dates) != Eval(Not(a), scope, dates)
  {
  }

  /** Neither connective skips its right operand: if that fails, so does the whole. */
  lemma NoShortCircuit(op: LogicOp, a: Node, b: Node, scope: Scope, dates: Dates)
    requires Truth(Eval(a, scope, dates)) && Eval(b, scope, dates).Err?
    ensures Eval(Logical(op, a, b, false), scope, dates) == Eval(b, scope, dates)
  {
  }

  // ----- strings -----

  /** `starts_with` holds exactly when the text is the prefix followed by something. */
  lemma StartsWith(a: Node, b: Node, scope: Scope, dates: Dates)
    requires Textual(Eval(a, scope, dates)) && Textual(Eval(b, scope, dates))
    ensures var s, p := Eval(a, scope, dates).v.s, Eval(b, scope, dates).v.s;
            var o := Eval(Ask("starts_with", [a, b]), scope, dates);
            Truth(o) && (True(o) <==> exists rest :: s == p + rest)
  {
    PrefixIff(Eval(a, scope, dates).v.s, Eval(b, scope, dates).v.s);
    StringTests(a, b, scope, dates);
  }

  lemma StringTests(a: Node, b: Node, scope: Scope, dates: Dates)
    requires Textual(Eval(a, scope, dates)) && Textual(Eval(b, scope, dates))
    ensures var s, t := Eval(a, scope, dates).v.s, Eval(b, scope, dates).v.s;
            && Eval(Ask("starts_with", [a, b]), scope, dates) == Ok(Bool(t <= s))
            && Eval(Ask("contains", [a, b]), scope, dates) == Ok(Bool(Contains(s, t)))
  {
    hide Contains;
  }

  lemma PrefixIff(s: string, p: string)
    ensures p <= s <==> exists rest :: s == p + rest
  {
    if p <= s {
      assert s == p + s[|p|..];
    }
  }

  lemma ContainsIff(s: string, needle: string)
    ensures Contains(s, needle) <==> exists x, y :: s == x + needle + y
  {
    if i :| 0 <= i <= |s| && OccursAt(s, needle, i) {
      assert s == s[..i] + needle + s[i + |needle|..];
    }
    if x, y :| s == x + needle + y {
      assert (x + needle + y)[|x|..|x| + |needle|] == needle;
      assert OccursAt(s, needle, |x|);
    }
  }

  /** `contains` holds exactly when the text is something, the needle, and something. */
  lemma ContainsText(a: Node, b: Node, scope: Scope, dates: Dates)
    requires Textual(Eval(a, scope, dates)) && Textual(Eval(b, scope, dates))
    ensures var s, needle := Eval(a, scope, dates).v.s, Eval(b, scope, dates).v.s;
            var o := Eval(Ask("contains", [a, b]), scope, dates);
            Truth(o) && (True(o) <==> exists x, y :: s == x + needle + y)
  {
    hide Eval, Contains;
    ContainsIff(Eval(a, scope, dates).v.s, Eval(b, scope, dates).v.s);
    StringTests(a, b, scope, dates);
  }

  /** A text is as long as its characters are many, and a prefix is not longer. */
  lemma Lengths(a: Node, b: Node, scope: Scope, dates: Dates)
    requires Textual(Eval(a, scope, dates)) && Textual(Eval(b, scope, dates))
    ensures Eval(Ask("len", [a]), scope, dates) == Ok(Num(|Eval(a, scope, dates).v.s| as real))
    ensures True(Eval(Ask("starts_with", [a, b]), scope, dates)) ==>
              True(Eval(Rel(Le, Ask("len", [b]), Ask("len", [a])), scope, dates))
  {
    hide Resolve, CompareDates, Arith, Logic, Contains;
    StringTests(a, b, scope, dates);
    assert Eval(Ask("len", [b]), scope, dates) == Ok(Num(|Eval(b, scope, dates).v.s| as real));
  }

  // ----- null -----

  /** `coalesce` takes its fallback exactly when its first argument is null. */
  lemma Coalescing(a: Node, b: Node, scope: Scope, dates: Dates)
    requires Eval(a, scope, dates).Ok? && Eval(b, scope, dates).Ok?
    ensures var absent := Eval(Ask("is_null", [a]), scope, dates);
            && Truth(absent) && (True(absent) <==> Eval(a, scope, dates) == Ok(Null))
            && Eval(Ask("coalesce", [a, b]), scope, dates) ==
                 if True(absent) then Eval(b, scope, dates) else Eval(a, scope, dates)
    ensures Eval(Ask("is_null", [Ask("coalesce", [a, b])]), scope, dates)
            == Eval(Both(Ask("is_null", [a]), Ask("is_null", [b])), scope, dates)
  {
  }

  /** A missing fallback does no harm while it is not needed. */
  lemma UnneededFallback(a: Node, b: Node, scope: Scope, dates: Dates)
    requires Eval(a, scope, dates).Ok? && Eval(a, scope, dates) != Ok(Null)
    ensures Eval(Ask("coalesce", [a, b]), scope, dates) == Eval(a, scope, dates)
  {
  }

  // ----- dates -----

  /** A date without a time of day, or with one and an offset, is read as the host reads it. */
  predicate Readable(s: string, dates: Dates) {
    (('t' in s || 'T' in s) ==> HasOffset(s)) && dates(s).Some?
  }

  /** Readable dates are ordered by the instants they stand for; `date_after` is `date_before` turned round. */
  lemma DateOrder(a: Node, b: Node, scope: Scope, dates: Dates)
    requires Textual(Eval(a, scope, dates)) && Textual(Eval(b, scope, dates))
    requires Readable(Eval(a, scope, dates).v.s, dates) && Readable(Eval(b, scope, dates).v.s, dates)
    ensures var x, y := dates(Eval(a, scope, dates).v.s).value, dates(Eval(b, scope, dates).v.s).value;
            && Eval(Ask("date_before", [a, b]), scope, dates) == Ok(Bool(x < y))
            && Eval(Ask("date_after", [a, b]), scope, dates) == Eval(Ask("date_before", [b, a]), scope, dates)
  {
  }

  /** Any other text makes a date comparison fail. */
  lemma UnreadableDate(a: Node, b: Node, scope: Scope, dates: Dates, after: bool)
    requires Textual(Eval(a, scope, dates)) && Textual(Eval(b, scope, dates))
    requires !Readable(Eval(a, scope, dates).v.s, dates) || !Readable(Eval(b, scope, dates).v.s, dates)
    ensures Eval(Ask(if after then "date_after" else "date_before", [a, b]), scope, dates) == Err(BadDate)
  {
  }

  /** `x` followed by a sign, two digits, a separator and two digits. */
  predicate Shifted(s: string, x: string, sign: char, hh: string, colon: string, mm: string) {
    && IsSign(sign) && |hh| == 2 && |mm| == 2 && AllDigits(hh) && AllDigits(mm) && (colon == "" || colon == ":")
    && s == x + [sign] + hh + colon + mm
  }

  /** The offsets: `Z` in either case, or a sign and four digits with or without a colon between them. */
  lemma OffsetIff(s: string)
    ensures HasOffset(s) <==>
              || (s != "" && (s[|s| - 1] == 'Z' || s[|s| - 1] == 'z'))
              || exists x, sign, hh, colon, mm :: Shifted(s, x, sign, hh, colon, mm)
  {
    hide Shifted;
    if HasOffset(s) && !(s != "" && (s[|s| - 1] == 'Z' || s[|s| - 1] == 'z')) {
      ShiftedFrom(s);
    }
    if x, sign, hh, colon, mm :| Shifted(s, x, sign, hh, colon, mm) {
      ShiftedHas(s, x, sign, hh, colon, mm);
    }
  }

  lemma ShiftedFrom(s: string)
    requires HasOffset(s) && !(s != "" && (s[|s| - 1] == 'Z' || s[|s| - 1] == 'z'))
    ensures exists x, sign, hh, colon, mm :: Shifted(s, x, sign, hh, colon, mm)
  {
    var n := |s|;
    if n >= 5 && IsSign(s[n - 5]) && AllDigits(s[n - 4..]) {
      var digits := s[n - 4..];
      assert s[n - 4..n - 2] == digits[..2] && s[n - 2..] == digits[2..];
      assert s == s[..n - 5] + [s[n - 5]] + s[n - 4..n - 2] + "" + s[n - 2..];
      assert Shifted(s, s[..n - 5], s[n - 5], s[n - 4..n - 2], "", s[n - 2..]);
    } else {
      assert s == s[..n - 6] + [s[n - 6]] + s[n - 5..n - 3] + ":" + s[n - 2..];
      assert Shifted(s, s[..n - 6], s[n - 6], s[n - 5..n - 3], ":", s[n - 2..]);
    }
  }

  lemma ShiftedHas(s: string, x: string, sign: char, hh: string, colon: string, mm: string)
    requires Shifted(s, x, sign, hh, colon, mm)
    ensures HasOffset(s)
  {
    var n := |s|;
    if colon == "" {
      assert s[n - 5] == sign && s[n - 4..] == hh + mm;
      assert AllDigits(hh + mm);
    } else {
      assert s[n - 6] == sign && s[n - 5..n - 3] == hh && s[n - 3] == ':' && s[n - 2..] == mm;
    }
  }

  // ----- whole texts -----

  /** The value of a text, if it parses. */
  function Meaning(text: string, scope: Scope, dates: Dates): Option<Outcome> {
    match ParseText(text)
    case None => None
    case Some(ast) => Some(Eval(ast, scope, dates))
  }

  lemma DecimalNumber(n: nat)
    ensures IsNumberText(Decimal(n)) && NumberValue(Decimal(n)) == n as real && NumberType(Decimal(n)) == IntT
  {
    DecimalValue(n);
    assert DotIndex(Decimal(n)) == |Decimal(n)|;
  }

  /** Two numbers around an operator sign. */
  function Sentence(m: nat, sign: string, n: nat): string {
    Decimal(m) + " " + sign + " " + Decimal(n) + " "
  }

  lemma SentenceTokens(m: nat, sym: Sym, n: nat)
    ensures IrelLexer.Lex(Sentence(m, IrelLexer.SymbolText(sym), n))
            == Some([NumberTok(Decimal(m)), Symbol(sym), NumberTok(Decimal(n)), Eof])
  {
    hide IrelLexer.Lex, IrelLexer.SymbolText, Decimal, IrelLexer.Render;
    DecimalNumber(m);
    DecimalNumber(n);
    var ts := [NumberTok(Decimal(m)), Symbol(sym), NumberTok(Decimal(n))];
    IrelLexer.RenderLex(ts);
    RenderThree(ts);
    Regrouped(Decimal(m), IrelLexer.SymbolText(sym), Decimal(n));
    assert ts + [Eof] == [NumberTok(Decimal(m)), Symbol(sym), NumberTok(Decimal(n)), Eof];
  }

  lemma Regrouped(x: string, y: string, z: string)
    ensures x + " " + (y + " " + (z + " ")) == x + " " + y + " " + z + " "
  {
  }

  lemma RenderThree(ts: seq<Token>)
    requires |ts| == 3
    ensures IrelLexer.Render(ts)
            == IrelLexer.TokenText(ts[0]) + " "
               + (IrelLexer.TokenText(ts[1]) + " " + (IrelLexer.TokenText(ts[2]) + " "))
  {
    hide IrelLexer.TokenText;
    var t1, t2 := ts[1..], ts[1..][1..];
    assert t2[1..] == [];
    assert IrelLexer.Render(t2[1..]) == "";
    assert IrelLexer.Render(t2) == IrelLexer.TokenText(ts[2]) + " " + "";
    assert IrelLexer.Render(t1) == IrelLexer.TokenText(ts[1]) + " " + IrelLexer.Render(t2);
  }

  function NumberLiteral(n: nat): Node { Literal(IntT, Num(n as real), false) }

  /** A comparison of two numbers parses to the comparison of their literals. */
  lemma ComparisonParses(m: nat, op: CompareOp, n: nat)
    ensures ParseText(Sentence(m, IrelLexer.SymbolText(CompareSym(op)), n))
            == Some(Compare(op, NumberLiteral(m), NumberLiteral(n), false))
  {
    hide IrelLexer.Lex, Sentence, Decimal, NumberValue, NumberType;
    SentenceTokens(m, CompareSym(op), n);
    DecimalNumber(m);
    DecimalNumber(n);
    var x, y := NumberTok(Decimal(m)), NumberTok(Decimal(n));
    var t3 := [Eof];
    var t2 := [y] + t3;
    var t1 := [Symbol(CompareSym(op))] + t2;
    var ts := [x] + t1;
    assert ts == [x, Symbol(CompareSym(op)), y, Eof];
    assert ts[1..] == t1 && t1[1..] == t2 && t2[1..] == t3;
    assert IrelParser.ParseAdditive(IrelParser.SOURCE, ts) == IrelParser.Done(NumberLiteral(m), t1);
    assert IrelParser.ParseAdditive(IrelParser.SOURCE, t2) == IrelParser.Done(NumberLiteral(n), t3);
    var tree := Compare(op, NumberLiteral(m), NumberLiteral(n), false);
    assert IrelParser.ParseComparison(IrelParser.SOURCE, ts) == IrelParser.Done(tree, t3);
    assert IrelParser.ParseNot(IrelParser.SOURCE, ts) == IrelParser.Done(tree, t3);
    assert IrelParser.ParseTight(IrelParser.SOURCE, ts) == IrelParser.Done(tree, t3);
    assert IrelParser.ParseLoose(IrelParser.SOURCE, ts) == IrelParser.Done(tree, t3);
  }

  lemma SumParses(m: nat, op: ArithOp, n: nat)
    ensures ParseText(Sentence(m, IrelLexer.SymbolText(ArithSym(op)), n))
            == Some(Binary(op, NumberLiteral(m), NumberLiteral(n), false))
  {
    hide IrelLexer.Lex, Sentence, Decimal, NumberValue, NumberType;
    SentenceTokens(m, ArithSym(op), n);
    DecimalNumber(m);
    DecimalNumber(n);
    var x, y := NumberTok(Decimal(m)), NumberTok(Decimal(n));
    var t3 := [Eof];
    var t2 := [y] + t3;
    var t1 := [Symbol(ArithSym(op))] + t2;
    var ts := [x] + t1;
    assert ts == [x, Symbol(ArithSym(op)), y, Eof];
    assert ts[1..] == t1 && t1[1..] == t2 && t2[1..] == t3;
    var tree := Binary(op, NumberLiteral(m), NumberLiteral(n), false);
    assert IrelParser.ParsePrimary(IrelParser.SOURCE, t2) == IrelParser.Done(NumberLiteral(n), t3);
    assert IrelParser.ParseAdditiveRest(IrelParser.SOURCE, NumberLiteral(m), t1) == IrelParser.Done(tree, t3);
    assert IrelParser.ParseAdditive(IrelParser.SOURCE, ts) == IrelParser.Done(tree, t3);
    assert IrelParser.ParseComparison(IrelParser.SOURCE, ts) == IrelParser.Done(tree, t3);
    assert IrelParser.ParseNot(IrelParser.SOURCE, ts) == IrelParser.Done(tree, t3);
    assert IrelParser.ParseTight(IrelParser.SOURCE, ts) == IrelParser.Done(tree, t3);
    assert IrelParser.ParseLoose(IrelParser.SOURCE, ts) == IrelParser.Done(tree, t3);
  }

  /** From the text to the truth: numbers written in decimal are compared, added and subtracted as numbers. */
  lemma ArithmeticTexts(m: nat, n: nat, scope: Scope, dates: Dates)
    ensures Meaning(Sentence(m, "<", n), scope, dates) == Some(Ok(Bool(m < n)))
    ensures Meaning(Sentence(m, "<=", n), scope, dates) == Some(Ok(Bool(m <= n)))
    ensures Meaning(Sentence(m, ">", n), scope, dates) == Some(Ok(Bool(m > n)))
    ensures Meaning(Sentence(m, ">=", n), scope, dates) == Some(Ok(Bool(m >= n)))
    ensures Meaning(Sentence(m, "==", n), scope, dates) == Some(Ok(Bool(m == n)))
    ensures Meaning(Sentence(m, "!=", n), scope, dates) == Some(Ok(Bool(m != n)))
    ensures Meaning(Sentence(m, "+", n), scope, dates) == Some(Ok(Num((m + n) as real)))
    ensures Meaning(Sentence(m, "-", n), scope, dates) == Some(Ok(Num((m - n) as real)))
  {
    hide Meaning, Sentence, IrelLexer.SymbolText;
    Signs();
    ComparisonMeans(m, Lt, n, scope, dates);
    ComparisonMeans(m, Le, n, scope, dates);
    ComparisonMeans(m, Gt, n, scope, dates);
    ComparisonMeans(m, Ge, n, scope, dates);
    ComparisonMeans(m, Eq, n, scope, dates);
    ComparisonMeans(m, Ne, n, scope, dates);
    SumMeans(m, Add, n, scope, dates);
    SumMeans(m, Sub, n, scope, dates);
  }

  lemma Signs()
    ensures IrelLexer.SymbolText(SLt) == "<" && IrelLexer.SymbolText(SLe) == "<=" && IrelLexer.SymbolText(SGt) == ">"
    ensures IrelLexer.SymbolText(SGe) == ">=" && IrelLexer.SymbolText(SEq) == "==" && IrelLexer.SymbolText(SNe) == "!="
    ensures IrelLexer.SymbolText(SPlus) == "+" && IrelLexer.SymbolText(SMinus) == "-"
  {
  }

  lemma ComparisonMeans(m: nat, op: CompareOp, n: nat, scope: Scope, dates: Dates)
    ensures Meaning(Sentence(m, IrelLexer.SymbolText(CompareSym(op)), n), scope, dates)
            == Some(Ok(Bool(Ordered(op, m as real, n as real))))
  {
    hide ParseText, Sentence, IrelLexer.SymbolText;
    ComparisonParses(m, op, n);
    var l, r := NumberLiteral(m), NumberLiteral(n);
    assert Eval(l, scope, dates) == Ok(Num(m as real)) && Eval(r, scope, dates) == Ok(Num(n as real));
    assert Eval(Compare(op, l, r, false), scope, dates) == Relate(op, Ok(Num(m as real)), Ok(Num(n as real)));
  }

  lemma SumMeans(m: nat, op: ArithOp, n: nat, scope: Scope, dates: Dates)
    ensures Meaning(Sentence(m, IrelLexer.SymbolText(ArithSym(op)), n), scope, dates)
            == Some(Ok(Num(if op == Add then m as real + n as real else m as real - n as real)))
  {
    hide ParseText, Sentence, IrelLexer.SymbolText;
    SumParses(m, op, n);
    var l, r := NumberLiteral(m), NumberLiteral(n);
    assert Eval(l, scope, dates) == Ok(Num(m as real)) && Eval(r, scope, dates) == Ok(Num(n as real));
    assert Eval(Binary(op, l, r, false), scope, dates) == Arith(op, Ok(Num(m as real)), Ok(Num(n as real)));
  }
}
