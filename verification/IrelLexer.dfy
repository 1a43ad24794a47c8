/** The IREL tokenizer (codegen/irel-compile.ts `tokenize`, `readNumber`, `isSymbol`). */
module IrelLexer {
  import opened IrelSyntax

  function SymbolOf(s: string): Option<Sym> {
    if |s| == 2 then
      var a, b := s[0], s[1];
      if a == '|' && b == '|' then Some(SOr) else if a == '&' && b == '&' then Some(SAnd)
      else if a == '=' && b == '=' then Some(SEq) else if a == '!' && b == '=' then Some(SNe)
      else if a == '>' && b == '=' then Some(SGe) else if a == '<' && b == '=' then Some(SLe)
      else None
    else if |s| == 1 then
      var a := s[0];
      if a == '>' then Some(SGt) else if a == '<' then Some(SLt)
      else if a == '+' then Some(SPlus) else if a == '-' then Some(SMinus)
      else if a == '!' then Some(SBang) else if a == '(' then Some(SOpen)
      else if a == ')' then Some(SClose) else if a == ',' then Some(SComma)
      else if a == '.' then Some(SDot) else None
    else None
  }

  function SymbolText(s: Sym): (t: string)
    ensures SymbolOf(t) == Some(s) && 1 <= |t| <= 2
  {
    match s
    case SOr => "||" case SAnd => "&&" case SEq => "==" case SNe => "!="
    case SGe => ">=" case SLe => "<=" case SGt => ">" case SLt => "<"
    case SPlus => "+" case SMinus => "-" case SBang => "!" case SOpen => "("
    case SClose => ")" case SComma => "," case SDot => "."
  }

  function WordToken(s: string): Token {
    if s == "true" then BoolTok(true) else if s == "false" then BoolTok(false)
    else if s == "null" then NullTok else Ident(s)
  }

  /** Length of the longest prefix of identifier characters. */
  function IdentLength(s: string): (n: nat)
    ensures n <= |s| && (forall i :: 0 <= i < n ==> IsIdentPart(s[i])) && (n < |s| ==> !IsIdentPart(s[n]))
  {
    if s == [] || !IsIdentPart(s[0]) then 0 else 1 + IdentLength(s[1..])
  }

  /** Length of the longest prefix of digits. */
  function DigitsLength(s: string): (n: nat)
    ensures n <= |s| && (forall i :: 0 <= i < n ==> IsDigit(s[i])) && (n < |s| ==> !IsDigit(s[n]))
  {
    if s == [] || !IsDigit(s[0]) then 0 else 1 + DigitsLength(s[1..])
  }

  /** Length of the numeric literal at the front: a dot belongs to it only when a digit follows. */
  function NumberLength(s: string): (n: nat)
    ensures n <= |s|
  {
    var k := DigitsLength(s);
    if k + 1 < |s| && s[k] == '.' && IsDigit(s[k + 1]) then k + 1 + DigitsLength(s[k + 1..]) else k
  }

  /** Length of the body of a string literal, the closing quote excluded; none if it is malformed. */
  function StringLength(s: string): (r: Option<nat>)
    ensures r.Some? ==> r.value < |s| && s[r.value] == '"' && IsStringText(s[..r.value])
  {
    if s == [] || s[0] == '\\' || s[0] == '\n' || s[0] == '\r' then None
    else if s[0] == '"' then Some(0)
    else
      match StringLength(s[1..])
      case None => None
      case Some(n) => Some(n + 1)
  }

  function Cons(t: Token, rest: Option<seq<Token>>): Option<seq<Token>> {
    if rest.None? then None else Some([t] + rest.value)
  }

  /** The token list of a text, or none when the text does not tokenize. */
  function Lex(s: string): (r: Option<seq<Token>>)
  {
    if s == [] then Some([Eof])
    else if IsSpace(s[0]) then Lex(s[1..])
    else if IsIdentStart(s[0]) then
      var n := 1 + IdentLength(s[1..]);
      Cons(WordToken(s[..n]), Lex(s[n..]))
    else if IsDigit(s[0]) then
      var n := NumberLength(s);
      Cons(NumberTok(s[..n]), Lex(s[n..]))
    else if s[0] == '"' then
      match StringLength(s[1..])
      case None => None
      case Some(n) => Cons(StringTok(s[1..n + 1]), Lex(s[n + 2..]))
    else
      var two := if |s| >= 2 then s[..2] else s;
      if SymbolOf(two).Some? then Cons(Symbol(SymbolOf(two).value), Lex(s[|two|..]))
      else if SymbolOf(s[..1]).Some? then Cons(Symbol(SymbolOf(s[..1]).value), Lex(s[1..]))
      else None
  }

  // `Lex`, one case per kind of first character.

  lemma LexSpace(s: string)
    requires s != [] && IsSpace(s[0])
    ensures Lex(s) == Lex(s[1..])
  {
  }

  lemma LexIdent(s: string, n: nat)
    requires s != [] && IsIdentStart(s[0]) && n == 1 + IdentLength(s[1..])
    ensures Lex(s) == Cons(WordToken(s[..n]), Lex(s[n..]))
  {
    hide NumberLength, SymbolOf, StringLength, WordToken, Cons;
  }

  lemma LexDigits(s: string, n: nat)
    requires s != [] && IsDigit(s[0]) && n == NumberLength(s)
    ensures n > 0 && Lex(s) == Cons(NumberTok(s[..n]), Lex(s[n..]))
  {
    NumberTextWf(s);
    hide IdentLength, SymbolOf, StringLength, WordToken, Cons;
  }

  lemma LexQuote(s: string)
    requires s != [] && s[0] == '"'
    ensures StringLength(s[1..]).None? ==> Lex(s).None?
    ensures StringLength(s[1..]).Some? ==>
              var n := StringLength(s[1..]).value; Lex(s) == Cons(StringTok(s[1..n + 1]), Lex(s[n + 2..]))
  {
    hide NumberLength, IdentLength, SymbolOf, StringLength, WordToken, Cons;
  }

  predicate IsOther(c: char) { !IsSpace(c) && !IsIdentStart(c) && !IsDigit(c) && c != '"' }

  lemma LexOther(s: string)
    requires s != [] && IsOther(s[0])
    ensures var two := if |s| >= 2 then s[..2] else s;
            Lex(s) == if SymbolOf(two).Some? then Cons(Symbol(SymbolOf(two).value), Lex(s[|two|..]))
                      else if SymbolOf(s[..1]).Some? then Cons(Symbol(SymbolOf(s[..1]).value), Lex(s[1..]))
                      else None
  {
    hide NumberLength, IdentLength, SymbolOf, StringLength, WordToken, Cons;
  }

  lemma SymbolChars(s: string)
    requires SymbolOf(s).Some?
    ensures 1 <= |s| <= 2 && IsOther(s[0]) && (|s| == 2 ==> s[1] != ' ')
  {
  }

  // ----- what the tokenizer delivers -----

  predicate WfTokens(ts: seq<Token>) {
    |ts| > 0 && ts[|ts| - 1] == Eof && forall i :: 0 <= i < |ts| - 1 ==> WfToken(ts[i]) && ts[i] != Eof
  }

  lemma WordTokenWf(s: string)
    requires s != [] && IsIdentStart(s[0]) && forall i :: 0 <= i < |s| ==> IsIdentPart(s[i])
    ensures WfToken(WordToken(s)) && WordToken(s) != Eof
  {
  }

  lemma DotIndexIs(s: string, k: nat)
    requires k <= |s| && (forall i :: 0 <= i < k ==> s[i] != '.') && (k < |s| ==> s[k] == '.')
    ensures DotIndex(s) == k
  {
  }

  lemma NumberTextWf(s: string)
    requires s != [] && IsDigit(s[0])
    ensures NumberLength(s) > 0 && IsNumberText(s[..NumberLength(s)])
  {
    var k, n := DigitsLength(s), NumberLength(s);
    var t := s[..n];
    if n == k {
      DotIndexIs(t, n);
    } else {
      DotIndexIs(t, k);
      assert AllDigits(t[..k]);
      assert t[k + 1..] == s[k + 1..][..n - k - 1];
    }
  }

  /** Every token list the tokenizer returns is well formed and ends with its only end marker. */
  lemma {:induction false} LexWf(s: string)
    requires Lex(s).Some?
    ensures WfTokens(Lex(s).value)
    decreases |s|
  {
    if s == [] {
    } else if IsSpace(s[0]) {
      LexWf(s[1..]);
    } else {
      var t, n := LexStep(s);
      LexWf(s[n..]);
      ConsWf(t, Lex(s[n..]).value);
    }
  }

  /** Away from white space, tokenizing peels one well-formed token off the front. */
  lemma LexStep(s: string) returns (t: Token, n: nat)
    requires Lex(s).Some? && s != [] && !IsSpace(s[0])
    ensures 0 < n <= |s| && WfToken(t) && t != Eof
    ensures Lex(s) == Cons(t, Lex(s[n..]))
  {
    if IsIdentStart(s[0]) {
      n := 1 + IdentLength(s[1..]);
      assert forall i :: 0 < i < n ==> s[i] == s[1..][i - 1];
      t := WordToken(s[..n]);
      WordTokenWf(s[..n]);
    } else if IsDigit(s[0]) {
      NumberTextWf(s);
      n := NumberLength(s);
      t := NumberTok(s[..n]);
    } else if s[0] == '"' {
      var k := StringLength(s[1..]).value;
      assert s[1..k + 1] == s[1..][..k];
      t, n := StringTok(s[1..k + 1]), k + 2;
    } else {
      var two := if |s| >= 2 then s[..2] else s;
      if SymbolOf(two).Some? {
        t, n := Symbol(SymbolOf(two).value), |two|;
      } else {
        t, n := Symbol(SymbolOf(s[..1]).value), 1;
      }
    }
  }

  lemma ConsWf(t: Token, ts: seq<Token>)
    requires WfTokens(ts) && WfToken(t) && t != Eof
    ensures WfTokens([t] + ts)
  {
  }

  // ----- rendering -----

  function TokenText(t: Token): string {
    match t
    case Ident(s) => s
    case NumberTok(s) => s
    case StringTok(s) => "\"" + s + "\""
    case BoolTok(b) => if b then "true" else "false"
    case NullTok => "null"
    case Symbol(s) => SymbolText(s)
    case Eof => ""
  }

  /** A text for a token list: one space after every token. */
  function Render(ts: seq<Token>): string {
    if ts == [] then "" else TokenText(ts[0]) + " " + Render(ts[1..])
  }

  lemma IdentLengthIs(s: string, n: nat)
    requires n <= |s| && (forall i :: 0 <= i < n ==> IsIdentPart(s[i])) && (n < |s| ==> !IsIdentPart(s[n]))
    ensures IdentLength(s) == n
  {
  }

  lemma DigitsLengthIs(s: string, n: nat)
    requires n <= |s| && (forall i :: 0 <= i < n ==> IsDigit(s[i])) && (n < |s| ==> !IsDigit(s[n]))
    ensures DigitsLength(s) == n
  {
  }

  lemma {:induction false} StringLengthIs(s: string, n: nat)
    requires n < |s| && s[n] == '"' && IsStringText(s[..n])
    ensures StringLength(s) == Some(n)
    decreases n
  {
    if n > 0 {
      assert s[0] == s[..n][0];
      assert s[1..][..n - 1] == s[..n][1..];
      StringLengthIs(s[1..], n - 1);
    }
  }

  lemma LexSymbolStep(s: string, n: nat, sym: Sym)
    requires 1 <= n <= 2 <= |s| && SymbolOf(s[..n]) == Some(sym)
    requires n == 1 ==> s[1] == ' '
    ensures Lex(s) == Cons(Symbol(sym), Lex(s[n..]))
  {
    hide Lex, NumberLength, WordToken, IdentLength, StringLength, Cons, SymbolOf;
    SymbolChars(s[..n]);
    LexOther(s);
    if n == 1 && SymbolOf(s[..2]).Some? {
      SymbolChars(s[..2]);
    }
  }

  lemma LexWord(w: string, tail: string)
    requires w != [] && IsIdentStart(w[0]) && forall i :: 0 <= i < |w| ==> IsIdentPart(w[i])
    ensures Lex(w + " " + tail) == Cons(WordToken(w), Lex(" " + tail))
  {
    hide Lex, WordToken, NumberLength, StringLength, SymbolOf, Cons;
    var s := w + " " + tail;
    IdentLengthIs(s[1..], |w| - 1);
    assert s[..|w|] == w && s[|w|..] == " " + tail;
    LexIdent(s, |w|);
  }

  lemma NumberLengthIs(w: string, tail: string)
    requires IsNumberText(w)
    ensures NumberLength(w + " " + tail) == |w|
  {
    var s := w + " " + tail;
    var k := DotIndex(w);
    forall i | 0 <= i < k
      ensures IsDigit(s[i])
    {
      assert s[i] == w[..k][i];
    }
    DigitsLengthIs(s, k);
    if k < |w| {
      var frac := w[k + 1..];
      assert s[k + 1..] == frac + (" " + tail);
      DigitsLengthIs(s[k + 1..], |frac|);
      assert s[k + 1] == frac[0];
    }
  }

  lemma LexNumber(w: string, tail: string)
    requires IsNumberText(w)
    ensures Lex(w + " " + tail) == Cons(NumberTok(w), Lex(" " + tail))
  {
    hide Lex, NumberLength, WordToken, StringLength, SymbolOf, IdentLength, Cons;
    var s := w + " " + tail;
    NumberLengthIs(w, tail);
    assert s[..|w|] == w && s[|w|..] == " " + tail;
    assert IsDigit(w[..DotIndex(w)][0]);
    LexDigits(s, |w|);
  }

  lemma LexString(w: string, tail: string)
    requires IsStringText(w)
    ensures Lex("\"" + w + "\"" + " " + tail) == Cons(StringTok(w), Lex(" " + tail))
  {
    hide Lex, NumberLength, WordToken, IdentLength, SymbolOf, Cons;
    var s := "\"" + w + "\"" + " " + tail;
    assert s[1..][..|w|] == w;
    StringLengthIs(s[1..], |w|);
    assert s[1..|w| + 1] == w && s[|w| + 2..] == " " + tail;
    LexQuote(s);
  }

  lemma LexSymbol(sym: Sym, tail: string)
    ensures Lex(SymbolText(sym) + " " + tail) == Cons(Symbol(sym), Lex(" " + tail))
  {
    hide Lex, SymbolText;
    var w := SymbolText(sym);
    var s := w + " " + tail;
    assert s[..|w|] == w && s[|w|..] == " " + tail;
    LexSymbolStep(s, |w|, sym);
  }

  lemma LexToken(t: Token, tail: string)
    requires WfToken(t) && t != Eof
    ensures Lex(TokenText(t) + " " + tail) == Cons(t, Lex(tail))
  {
    assert (" " + tail)[1..] == tail;
    match t
    case Ident(w) => LexWord(w, tail);
    case NumberTok(w) => LexNumber(w, tail);
    case StringTok(w) => LexString(w, tail);
    case BoolTok(b) => LexWord(TokenText(t), tail);
    case NullTok => LexWord("null", tail);
    case Symbol(sym) => LexSymbol(sym, tail);
  }

  /** Rendered tokens tokenize back to themselves. */
  lemma {:induction false} RenderLex(ts: seq<Token>)
    requires forall i :: 0 <= i < |ts| ==> WfToken(ts[i]) && ts[i] != Eof
    ensures Lex(Render(ts)) == Some(ts + [Eof])
    decreases |ts|
  {
    if ts == [] {
      assert ts + [Eof] == [Eof];
    } else {
      RenderLex(ts[1..]);
      LexToken(ts[0], Render(ts[1..]));
      assert [ts[0]] + (ts[1..] + [Eof]) == ts + [Eof];
    }
  }

  // ----- the tokenizer loop -----

  /** What is left of the input at index `i`; the index may stand one past the length. */
  function Rest(input: string, i: nat): string {
    if i <= |input| then input[i..] else []
  }

  function Joined(done: seq<Token>, rest: Option<seq<Token>>): Option<seq<Token>> {
    if rest.None? then None else Some(done + rest.value)
  }

  lemma JoinedCons(done: seq<Token>, t: Token, rest: Option<seq<Token>>)
    ensures Joined(done, Cons(t, rest)) == Joined(done + [t], rest)
  {
    if rest.Some? {
      assert done + ([t] + rest.value) == (done + [t]) + rest.value;
    }
  }

  method ScanIdent(input: string, start: nat) returns (i: nat)
    requires start <= |input|
    ensures i == start + IdentLength(input[start..])
  {
    i := start;
    while i < |input| && IsIdentPart(input[i])
      invariant start <= i <= |input|
      invariant i - start + IdentLength(input[i..]) == IdentLength(input[start..])
    {
      assert input[i..][1..] == input[i + 1..];
      i := i + 1;
    }
  }

  method ScanDigits(input: string, start: nat) returns (i: nat)
    requires start <= |input|
    ensures i == start + DigitsLength(input[start..])
  {
    i := start;
    while i < |input| && IsDigit(input[i])
      invariant start <= i <= |input|
      invariant i - start + DigitsLength(input[i..]) == DigitsLength(input[start..])
    {
      assert input[i..][1..] == input[i + 1..];
      i := i + 1;
    }
  }

  method ReadNumber(input: string, start: nat) returns (i: nat)
    requires start <= |input|
    ensures i == start + NumberLength(input[start..])
  {
    i := ScanDigits(input, start);
    if i + 1 < |input| && input[i] == '.' && IsDigit(input[i + 1]) {
      assert input[start..][i - start + 1..] == input[i + 1..];
      i := ScanDigits(input, i + 1);
    }
  }

  lemma StringLengthStep(s: string)
    ensures s == [] ==> StringLength(s).None?
    ensures s != [] && s[0] == '"' ==> StringLength(s) == Some(0)
    ensures s != [] && (s[0] == '\\' || s[0] == '\n' || s[0] == '\r') ==> StringLength(s).None?
    ensures s != [] && IsStringChar(s[0]) ==>
              (if StringLength(s[1..]).None? then StringLength(s).None?
                  else StringLength(s) == Some(StringLength(s[1..]).value + 1))
  {
  }

  /** Reads a string body; the result is the value and the index past the closing quote. */
  method ReadString(input: string, start: nat) returns (r: Option<(string, nat)>)
    requires start <= |input|
    ensures match StringLength(input[start..])
            case None => r.None?
            case Some(n) => r == Some((input[start..start + n], start + n + 1))
  {
    hide StringLength;
    var i := start;
    var value := "";
    while i < |input|
      invariant start <= i <= |input| && value == input[start..i]
      invariant StringLength(input[start..]).None? <==> StringLength(input[i..]).None?
      invariant StringLength(input[i..]).Some? ==>
                  StringLength(input[start..]) == Some(i - start + StringLength(input[i..]).value)
    {
      var current := input[i];
      StringLengthStep(input[i..]);
      if current == '\\' || current == '\n' || current == '\r' {
        return None;
      }
      if current == '"' {
        return Some((value, i + 1));
      }
      assert input[i..][1..] == input[i + 1..];
      value := value + [current];
      i := i + 1;
    }
    StringLengthStep(input[i..]);
    return None;
  }

  /** The token at index `i`, not at white space, and the index after it. */
  method NextToken(input: string, i: nat) returns (r: Option<(Token, nat)>)
    requires i < |input| && !IsSpace(input[i])
    ensures r.None? ==> Lex(input[i..]).None?
    ensures r.Some? ==> i < r.value.1 <= |input| + 1
                        && Lex(input[i..]) == Cons(r.value.0, Lex(Rest(input, r.value.1)))
  {
    hide Lex, NumberLength, IdentLength, SymbolOf, StringLength, WordToken, Cons, Joined;
    ghost var s := input[i..];
    assert s[1..] == input[i + 1..];
    if IsIdentStart(input[i]) {
      var e := ScanIdent(input, i + 1);
      LexIdent(s, e - i);
      assert input[i..e] == s[..e - i] && Rest(input, e) == s[e - i..];
      return Some((WordToken(input[i..e]), e));
    }
    if IsDigit(input[i]) {
      var e := ReadNumber(input, i);
      LexDigits(s, e - i);
      assert input[i..e] == s[..e - i] && Rest(input, e) == s[e - i..];
      return Some((NumberTok(input[i..e]), e));
    }
    if input[i] == '"' {
      LexQuote(s);
      var body := ReadString(input, i + 1);
      if body.None? {
        return None;
      }
      var e := body.value.1;
      assert body.value.0 == s[1..e - i - 1] && Rest(input, e) == s[e - i..];
      return Some((StringTok(body.value.0), e));
    }
    r := NextSymbol(input, i);
  }

  method NextSymbol(input: string, i: nat) returns (r: Option<(Token, nat)>)
    requires i < |input| && !IsSpace(input[i]) && !IsIdentStart(input[i]) && !IsDigit(input[i]) && input[i] != '"'
    ensures r.None? ==> Lex(input[i..]).None?
    ensures r.Some? ==> i < r.value.1 <= |input| + 1
                        && Lex(input[i..]) == Cons(r.value.0, Lex(Rest(input, r.value.1)))
  {
    hide Lex, NumberLength, IdentLength, SymbolOf, StringLength, WordToken, Cons, Joined;
    ghost var s := input[i..];
    LexOther(s);
    assert s[1..] == input[i + 1..];
    var two := if i + 2 <= |input| then input[i..i + 2] else input[i..];
    assert two == if |s| >= 2 then s[..2] else s;
    assert s[..1] == [input[i]];
    if SymbolOf(two).Some? {
      assert Rest(input, i + 2) == s[|two|..];
      return Some((Symbol(SymbolOf(two).value), i + 2));
    }
    if SymbolOf([input[i]]).Some? {
      return Some((Symbol(SymbolOf([input[i]]).value), i + 1));
    }
    return None;
  }

  method Tokenize(input: string) returns (r: Option<seq<Token>>)
    ensures r == Lex(input)
  {
    hide Lex, Cons;
    var tokens: seq<Token> := [];
    var i := 0;
    assert input[0..] == input;
    JoinedNothing(Lex(input));
    while i < |input|
      invariant 0 <= i <= |input| + 1
      invariant Joined(tokens, Lex(Rest(input, i))) == Lex(input)
    {
      if IsSpace(input[i]) {
        LexSpace(input[i..]);
        assert input[i..][1..] == Rest(input, i + 1);
        i := i + 1;
        continue;
      }
      var next := NextToken(input, i);
      if next.None? {
        return None;
      }
      JoinedCons(tokens, next.value.0, Lex(Rest(input, next.value.1)));
      tokens := tokens + [next.value.0];
      i := next.value.1;
    }
    assert Rest(input, i) == [];
    JoinedEnd(tokens);
    return Some(tokens + [Eof]);
  }

  lemma JoinedNothing(r: Option<seq<Token>>)
    ensures Joined([], r) == r
  {
    if r.Some? {
      assert [] + r.value == r.value;
    }
  }

  lemma JoinedEnd(done: seq<Token>)
    ensures Joined(done, Lex([])) == Some(done + [Eof])
  {
  }
}
