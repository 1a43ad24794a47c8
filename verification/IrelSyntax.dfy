/** Tokens, trees and values of the IREL expression language (codegen/irel-compile.ts). */
module IrelSyntax {

  datatype Option<+T> = None | Some(value: T)

  predicate NoRepeats<T(==)>(xs: seq<T>) {
    forall i, j :: 0 <= i < j < |xs| ==> xs[i] != xs[j]
  }

  datatype Atom = IntT | NumberT | StringT | BooleanT | NullT

  /** Runtime values. Numbers are mathematical reals. */
  datatype Value = Num(n: real) | Str(s: string) | Bool(b: bool) | Null

  datatype Sym =
    | SOr | SAnd | SEq | SNe | SGe | SLe | SGt | SLt
    | SPlus | SMinus | SBang | SOpen | SClose | SComma | SDot

  datatype Token =
    | Ident(name: string)
    | NumberTok(text: string)
    | StringTok(value: string)
    | BoolTok(b: bool)
    | NullTok
    | Symbol(sym: Sym)
    | Eof

  datatype ArithOp = Add | Sub
  datatype CompareOp = Eq | Ne | Gt | Ge | Lt | Le
  datatype LogicOp = And | Or

  /** Syntax trees. `grouped` records that the source wrote parentheses around the node. */
  datatype Node =
    | Literal(ty: Atom, value: Value, grouped: bool)
    | Variable(path: seq<string>, grouped: bool)
    | Call(name: string, args: seq<Node>, grouped: bool)
    | Unary(expr: Node, grouped: bool)
    | Binary(arith: ArithOp, left: Node, right: Node, grouped: bool)
    | Compare(rel: CompareOp, left: Node, right: Node, grouped: bool)
    | Logical(logic: LogicOp, left: Node, right: Node, grouped: bool)

  // ----- characters -----

  predicate IsDigit(c: char) { '0' <= c <= '9' }

  predicate IsIdentStart(c: char) { 'A' <= c <= 'Z' || 'a' <= c <= 'z' || c == '_' }

  predicate IsIdentPart(c: char) { IsIdentStart(c) || IsDigit(c) }

  predicate IsSpace(c: char) { c == ' ' || c == '\t' || c == '\r' || c == '\n' }

  /** Characters a string literal may hold: no quote, no escape, no line break. */
  predicate IsStringChar(c: char) { c != '"' && c != '\\' && c != '\n' && c != '\r' }

  // ----- numeric literals -----

  predicate AllDigits(s: string) { forall i :: 0 <= i < |s| ==> IsDigit(s[i]) }

  /** `digits` or `digits.digits`: what the tokenizer can deliver as a number. */
  predicate IsNumberText(s: string) {
    var k := DotIndex(s);
    if k == |s| then s != [] && AllDigits(s)
    else 0 < k && k + 1 < |s| && AllDigits(s[..k]) && AllDigits(s[k + 1..])
  }

  /** Position of the first dot, or the length. */
  function DotIndex(s: string): (k: nat)
    ensures k <= |s|
    ensures forall i :: 0 <= i < k ==> s[i] != '.'
    ensures k < |s| ==> s[k] == '.'
  {
    if s == [] then 0 else if s[0] == '.' then 0 else 1 + DotIndex(s[1..])
  }

  function DigitsValue(s: string): int {
    if s == [] then 0 else DigitsValue(s[..|s| - 1]) * 10 + (s[|s| - 1] as int - '0' as int)
  }

  function Pow10(n: nat): (p: real)
    ensures p >= 1.0
  {
    if n == 0 then 1.0 else 10.0 * Pow10(n - 1)
  }

  /** The number a literal text denotes. */
  function NumberValue(s: string): real {
    var k := DotIndex(s);
    if k == |s| then DigitsValue(s) as real
    else DigitsValue(s[..k]) as real + DigitsValue(s[k + 1..]) as real / Pow10(|s| - k - 1)
  }

  /** The type a literal text gets: `number` exactly when it has a dot. */
  function NumberType(s: string): Atom {
    if DotIndex(s) == |s| then IntT else NumberT
  }

  // ----- well-formed pieces -----

  /** Identifier spelling that the tokenizer does not turn into a keyword. */
  predicate IsIdent(s: string) {
    && s != [] && IsIdentStart(s[0]) && (forall i :: 0 <= i < |s| ==> IsIdentPart(s[i]))
    && s != "true" && s != "false" && s != "null"
  }

  predicate IsStringText(s: string) { forall i :: 0 <= i < |s| ==> IsStringChar(s[i]) }

  /** Tokens the tokenizer can deliver. */
  predicate WfToken(t: Token) {
    match t
    case Ident(s) => IsIdent(s)
    case NumberTok(s) => IsNumberText(s)
    case StringTok(s) => IsStringText(s)
    case _ => true
  }
}
