/** Canonical text is JSON: a reader that follows the grammar of RFC 8259 (without its white space) gets every value
    back from its canonical text, with the keys of each object in ascending order. */
module CanonicalReader {
  import Syntax = IrelSyntax
  import opened CanonicalJson
  import opened CanonicalTheorem

  /** What was read, and what is left. */
  datatype Reading<T> = Nothing | Got(value: T, rest: string)

  // ----- strings -----

  function HexValue(c: char): Syntax.Option<nat> {
    if '0' <= c <= '9' then Syntax.Some((c - '0') as nat)
    else if 'a' <= c <= 'f' then Syntax.Some((c - 'a') as nat + 10)
    else if 'A' <= c <= 'F' then Syntax.Some((c - 'A') as nat + 10)
    else Syntax.None
  }

  /** The character of a two-character escape. */
  function ShortEscape(c: char): Syntax.Option<char> {
    if c == '"' || c == '\\' || c == '/' then Syntax.Some(c)
    else if c == 'b' then Syntax.Some(8 as char)
    else if c == 'f' then Syntax.Some(12 as char)
    else if c == 'n' then Syntax.Some(10 as char)
    else if c == 'r' then Syntax.Some(13 as char)
    else if c == 't' then Syntax.Some(9 as char)
    else Syntax.None
  }

  /** The character with four hexadecimal digits, if it is one by itself. */
  function LongEscape(t: string): Syntax.Option<char>
    requires |t| >= 4
  {
    match (HexValue(t[0]), HexValue(t[1]), HexValue(t[2]), HexValue(t[3]))
    case (Some(a), Some(b), Some(c), Some(d)) =>
      var n := ((a * 16 + b) * 16 + c) * 16 + d;
      if n < 0xD800 || 0xE000 <= n < 0x10000 then Syntax.Some(n as char) else Syntax.None
    case _ => Syntax.None
  }

  /** The first character of a string's inside. */
  function ReadChar(t: string): (r: Reading<char>)
    ensures r.Got? ==> |r.rest| < |t|
  {
    if t == "" || t[0] == '"' || t[0] as int < 32 then Nothing
    else if t[0] != '\\' then Got(t[0], t[1..])
    else if |t| < 2 then Nothing
    else if t[1] != 'u' then match ShortEscape(t[1]) case None => Nothing case Some(c) => Got(c, t[2..])
    else if |t| < 6 then Nothing
    else match LongEscape(t[2..]) case None => Nothing case Some(c) => Got(c, t[6..])
  }

  /** The inside of a string, up to and including its closing quote. */
  function ReadChars(t: string): (r: Reading<string>)
    ensures r.Got? ==> |r.rest| < |t|
    decreases |t|
  {
    if t != "" && t[0] == '"' then Got("", t[1..])
    else
      match ReadChar(t)
      case Nothing => Nothing
      case Got(c, u) => (match ReadChars(u) case Nothing => Nothing case Got(s, v) => Got([c] + s, v))
  }

  lemma ReadEscape(c: char, u: string)
    ensures ReadChar(EscapeChar(c) + u) == Got(c, u)
  {
    hide LongEscape;
    var x, t := EscapeChar(c), EscapeChar(c) + u;
    assert t[|x|..] == u && forall i :: 0 <= i < |x| ==> t[i] == x[i];
    if |x| == 6 {
      assert x[..4] == "\\u00" && t[0] == '\\' && t[1] == 'u';
      assert t[2..][0] == '0' && t[2..][1] == '0' && t[2..][2] == x[4] && t[2..][3] == x[5];
      LongBack(t[2..], c);
    }
  }

  lemma LongBack(t: string, c: char)
    requires |t| >= 4 && t[0] == '0' && t[1] == '0' && c as int < 256
    requires t[2] == Hex(c as int / 16) && t[3] == Hex(c as int % 16)
    ensures LongEscape(t) == Syntax.Some(c)
  {
    hide HexValue, Hex;
    ZeroValue();
    HexBack(c as int / 16);
    HexBack(c as int % 16);
  }

  lemma ZeroValue()
    ensures HexValue('0') == Syntax.Some(0)
  {
  }

  lemma HexBack(k: nat)
    requires k < 16
    ensures HexValue(Hex(k)) == Syntax.Some(k)
  {
  }

  lemma {:induction false} ReadEscaped(s: string, u: string)
    ensures ReadChars(Escape(s) + "\"" + u) == Got(s, u)
    decreases |s|
  {
    hide EscapeChar, ReadChar;
    var t := Escape(s) + "\"" + u;
    EscapeStart(s, u);
    if s == "" {
      assert t[1..] == u;
    } else {
      EscapeStep(s, u);
      ReadEscape(s[0], Escape(s[1..]) + "\"" + u);
      ReadEscaped(s[1..], u);
      assert s == [s[0]] + s[1..];
    }
  }

  // ----- values -----

  /** How many characters a number takes. */
  function NumRun(t: string): (k: nat)
    ensures k <= |t|
    decreases |t|
  {
    if t == "" || !NumChar(t[0]) then 0 else 1 + NumRun(t[1..])
  }

  /** Reads one value; `number` gives the meaning of a run of number characters. */
  function Read<N>(t: string, number: string -> Syntax.Option<N>): (r: Reading<Doc<N>>)
    ensures r.Got? ==> |r.rest| < |t|
    decreases |t|, 0
  {
    if "null" <= t then Got(Null, t[4..])
    else if "true" <= t then Got(Bool(true), t[4..])
    else if "false" <= t then Got(Bool(false), t[5..])
    else if "\"" <= t then match ReadChars(t[1..]) case Nothing => Nothing case Got(s, u) => Got(Str(s), u)
    else if "[]" <= t then Got(Arr([]), t[2..])
    else if "[" <= t then match ReadItems(t[1..], number) case Nothing => Nothing case Got(xs, u) => Got(Arr(xs), u)
    else if "{}" <= t then Got(Obj([]), t[2..])
    else if "{" <= t then match ReadFields(t[1..], number) case Nothing => Nothing case Got(xs, u) => Got(Obj(xs), u)
    else if NumRun(t) == 0 then Nothing
    else match number(t[..NumRun(t)]) case None => Nothing case Some(n) => Got(Num(n), t[NumRun(t)..])
  }

  /** The items of an array that is not empty, up to and including the closing bracket. */
  function ReadItems<N>(t: string, number: string -> Syntax.Option<N>): (r: Reading<seq<Doc<N>>>)
    ensures r.Got? ==> |r.rest| < |t|
    decreases |t|, 1
  {
    match Read(t, number)
    case Nothing => Nothing
    case Got(d, u) =>
      if "]" <= u then Got([d], u[1..])
      else if "," <= u then
        match ReadItems(u[1..], number) case Nothing => Nothing case Got(xs, v) => Got([d] + xs, v)
      else Nothing
  }

  function ReadField<N>(t: string, number: string -> Syntax.Option<N>): (r: Reading<Field<Doc<N>>>)
    ensures r.Got? ==> |r.rest| < |t|
    decreases |t|, 1
  {
    if !("\"" <= t) then Nothing
    else
      match ReadChars(t[1..])
      case Nothing => Nothing
      case Got(key, u) =>
        if ":" <= u then
          match Read(u[1..], number) case Nothing => Nothing case Got(d, v) => Got(Field(key, d), v)
        else Nothing
  }

  function ReadFields<N>(t: string, number: string -> Syntax.Option<N>): (r: Reading<seq<Field<Doc<N>>>>)
    ensures r.Got? ==> |r.rest| < |t|
    decreases |t|, 2
  {
    match ReadField(t, number)
    case Nothing => Nothing
    case Got(x, u) =>
      if "}" <= u then Got([x], u[1..])
      else if "," <= u then
        match ReadFields(u[1..], number) case Nothing => Nothing case Got(xs, v) => Got([x] + xs, v)
      else Nothing
  }

  /** `number` understands what `digits` writes. */
  ghost predicate Inverse<N(!new)>(digits: N -> string, number: string -> Syntax.Option<N>) {
    forall n :: number(digits(n)) == Syntax.Some(n)
  }

  lemma {:induction false} RunIs(x: string, u: string)
    requires (forall i :: 0 <= i < |x| ==> NumChar(x[i])) && Tail(u)
    ensures NumRun(x + u) == |x|
    decreases |x|
  {
    if x == "" {
      assert x + u == u;
    } else {
      assert (x + u)[1..] == x[1..] + u && (x + u)[0] == x[0];
      RunIs(x[1..], u);
    }
  }

  // ----- reading what was written -----

  /** Every value is read back from its text, whatever follows it. */
  lemma {:induction false} ReadText<N(!new)>(d: Doc<N>, u: string, digits: N -> string,
                                             number: string -> Syntax.Option<N>)
    requires NumberPrinter(digits) && Inverse(digits, number) && Tail(u)
    ensures Read(Text(d, digits) + u, number) == Got(d, u)
    decreases d, 2
  {
    hide Escape, MoreItems, MoreFields, FieldText, NumberPrinter, Inverse;
    var t := Text(d, digits) + u;
    match d
    case Num(n) => ReadNumber(n, u, digits, number);
    case Str(s) =>
      assert t[0] == '"' && t[1..] == Escape(s) + "\"" + u;
      ReadEscaped(s, u);
    case Arr(items) => ReadArr(items, u, digits, number);
    case Obj(fields) => ReadObj(fields, u, digits, number);
    case Null => assert t[..4] == "null" && t[4..] == u;
    case Bool(b) =>
      assert t[0] == if b then 't' else 'f';
      if b { assert t[..4] == "true" && t[4..] == u; } else { assert t[..5] == "false" && t[5..] == u; }
  }

  lemma ReadNumber<N(!new)>(n: N, u: string, digits: N -> string, number: string -> Syntax.Option<N>)
    requires NumberPrinter(digits) && Inverse(digits, number) && Tail(u)
    ensures Read(digits(n) + u, number) == Got(Num(n), u)
  {
    var x := digits(n);
    RunIs(x, u);
    assert (x + u)[..|x|] == x && (x + u)[|x|..] == u && (x + u)[0] == x[0];
    NumStart(x[0]);
  }

  lemma {:induction false} ReadArr<N(!new)>(items: seq<Doc<N>>, u: string, digits: N -> string,
                                            number: string -> Syntax.Option<N>)
    requires NumberPrinter(digits) && Inverse(digits, number) && Tail(u)
    ensures Read(Text(Arr(items), digits) + u, number) == Got(Arr(items), u)
    decreases items, 1
  {
    hide MoreItems, NumberPrinter, Inverse, ReadItems;
    var t := Text(Arr(items), digits) + u;
    if items == [] {
      assert t[..2] == "[]" && t[2..] == u && t[0] == '[';
    } else {
      ArrOpen(items, u, digits);
      ArrStart(items, u, digits);
      assert t[1..] != "" && t[0] == '[' && t[1] == t[1..][0];
      ReadItemsText(items, u, digits, number);
    }
  }

  lemma {:induction false} ReadItemsText<N(!new)>(items: seq<Doc<N>>, u: string, digits: N -> string,
                                                  number: string -> Syntax.Option<N>)
    requires NumberPrinter(digits) && Inverse(digits, number) && Tail(u) && items != []
    ensures ReadItems(Text(items[0], digits) + (MoreItems(items[1..], digits) + u), number) == Got(items, u)
    decreases items, 0
  {
    hide NumberPrinter, Inverse, Text, Read;
    var more := MoreItems(items[1..], digits) + u;
    MoreItemsTail(items[1..], u, digits);
    ReadText(items[0], more, digits, number);
    if |items| == 1 {
      assert more[1..] == u && items == [items[0]];
    } else {
      var rest := items[1..];
      ReadItemsText(rest, u, digits, number);
      assert more[1..] == Text(rest[0], digits) + (MoreItems(rest[1..], digits) + u);
      assert items == [items[0]] + rest;
    }
  }

  lemma {:induction false} ReadObj<N(!new)>(fields: seq<Field<Doc<N>>>, u: string, digits: N -> string,
                                            number: string -> Syntax.Option<N>)
    requires NumberPrinter(digits) && Inverse(digits, number) && Tail(u)
    ensures Read(Text(Obj(fields), digits) + u, number) == Got(Obj(fields), u)
    decreases fields, 1
  {
    hide MoreFields, FieldText, NumberPrinter, Inverse, ReadFields;
    var t := Text(Obj(fields), digits) + u;
    if fields == [] {
      assert t[..2] == "{}" && t[2..] == u && t[0] == '{';
    } else {
      ObjOpen(fields, u, digits);
      ObjStart(fields, u, digits);
      assert t[1..] != "" && t[0] == '{' && t[1] == t[1..][0];
      ReadFieldsText(fields, u, digits, number);
    }
  }

  lemma {:induction false} ReadFieldText<N(!new)>(x: Field<Doc<N>>, u: string, digits: N -> string,
                                                  number: string -> Syntax.Option<N>)
    requires NumberPrinter(digits) && Inverse(digits, number) && Tail(u)
    ensures ReadField(FieldText(x, digits) + u, number) == Got(x, u)
    decreases x, 0
  {
    hide NumberPrinter, Inverse, Text, Read, Escape;
    var value := Text(x.value, digits) + u;
    var t := FieldText(x, digits) + u;
    assert t == "\"" + (Escape(x.key) + "\"" + (":" + value));
    assert t[1..] == Escape(x.key) + "\"" + (":" + value);
    ReadEscaped(x.key, ":" + value);
    assert (":" + value)[1..] == value;
    ReadText(x.value, u, digits, number);
  }

  lemma {:induction false} ReadFieldsText<N(!new)>(fields: seq<Field<Doc<N>>>, u: string, digits: N -> string,
                                                   number: string -> Syntax.Option<N>)
    requires NumberPrinter(digits) && Inverse(digits, number) && Tail(u) && fields != []
    ensures ReadFields(FieldText(fields[0], digits) + (MoreFields(fields[1..], digits) + u), number) == Got(fields, u)
    decreases fields, 0
  {
    hide NumberPrinter, Inverse, FieldText, ReadField;
    var more := MoreFields(fields[1..], digits) + u;
    MoreFieldsTail(fields[1..], u, digits);
    ReadFieldText(fields[0], more, digits, number);
    if |fields| == 1 {
      assert more[1..] == u && fields == [fields[0]];
    } else {
      var rest := fields[1..];
      ReadFieldsText(rest, u, digits, number);
      assert more[1..] == FieldText(rest[0], digits) + (MoreFields(rest[1..], digits) + u);
      assert fields == [fields[0]] + rest;
    }
  }

  // ----- the order of keys -----

  /** The texts agree up to there, and then the first ends or has the lesser character. */
  predicate FirstDifference(a: string, b: string, k: nat) {
    k <= |a| && k < |b| && a[..k] == b[..k] && (k == |a| || a[k] < b[k])
  }

  lemma DifferenceTail(a: string, b: string, k: nat)
    requires a != "" && b != "" && a[0] == b[0]
    ensures FirstDifference(a, b, k + 1) <==> FirstDifference(a[1..], b[1..], k)
    ensures !FirstDifference(a, b, 0)
  {
    if k < |a| && k + 1 < |b| {
      assert a[..k + 1] == [a[0]] + a[1..][..k] && b[..k + 1] == [b[0]] + b[1..][..k];
    }
  }

  /** The order of keys is that of the first difference, a proper prefix coming first. */
  lemma {:induction false} LessIff(a: string, b: string)
    ensures Less(a, b) <==> exists k: nat :: FirstDifference(a, b, k)
    decreases |a|
  {
    if a != "" && b != "" && a[0] == b[0] {
      LessIff(a[1..], b[1..]);
      if k: nat :| FirstDifference(a[1..], b[1..], k) {
        DifferenceTail(a, b, k);
        assert FirstDifference(a, b, k + 1);
      }
      if k: nat :| FirstDifference(a, b, k) {
        DifferenceTail(a, b, if k == 0 then 0 else k - 1);
        assert FirstDifference(a[1..], b[1..], k - 1);
      }
    } else {
      assert Less(a, b) ==> FirstDifference(a, b, 0);
      if k: nat :| FirstDifference(a, b, k) && k > 0 {
        assert a[..k][0] == b[..k][0];
      }
    }
  }

  /** The keys ascend at every level. */
  ghost predicate Sorted<N>(d: Doc<N>)
    decreases d
  {
    match d
    case Arr(items) => forall i :: 0 <= i < |items| ==> Sorted(items[i])
    case Obj(fields) => Ascending(fields) && forall i :: 0 <= i < |fields| ==> Sorted(fields[i].value)
    case _ => true
  }

  /** The round trip: reading a canonical text gives the value with its keys in ascending order. */
  lemma CanonicalRoundTrip<N(!new)>(d: Doc<N>, digits: N -> string, number: string -> Syntax.Option<N>)
    requires WellFormed(d) && NumberPrinter(digits) && Inverse(digits, number)
    ensures var r := Read(Canonical(d, digits), number);
            r.Got? && r.rest == "" && Sorted(r.value) && WellFormed(r.value) && Same(r.value, d)
  {
    hide Text, Normal, Canonical, NumberPrinter, Inverse, Read, WellFormed, Same, Sorted;
    CanonicalIsText(d, digits);
    var text := Text(Normal(d), digits);
    assert text + "" == text;
    ReadText(Normal(d), "", digits, number);
    NormalIsSorted(d);
    NormalSame(Normal(d), d);
  }

  lemma {:induction false} NormalIsSorted<N>(d: Doc<N>)
    requires WellFormed(d)
    ensures Sorted(Normal(d)) && WellFormed(Normal(d)) && Normal(Normal(d)) == Normal(d)
    decreases d
  {
    match d
    case Arr(items) =>
      var normal := NormalItems(items);
      forall i | 0 <= i < |items|
        ensures Sorted(normal[i]) && WellFormed(normal[i]) && Normal(normal[i]) == normal[i]
      {
        NormalIsSorted(items[i]);
      }
      assert NormalItems(normal) == normal;
    case Obj(fields) =>
      var normal := NormalFields(fields);
      KeysStay(fields);
      SortIs(normal);
      var sorted := Sort(normal);
      forall i | 0 <= i < |sorted|
        ensures Sorted(sorted[i].value) && WellFormed(sorted[i].value) && NormalField(sorted[i]) == sorted[i]
      {
        assert sorted[i] in normal;
        var k :| 0 <= k < |fields| && normal[k] == sorted[i];
        NormalIsSorted(fields[k].value);
      }
      assert NormalFields(sorted) == sorted;
      AscendingApart(sorted);
      SortIs(sorted);
      AscendingUnique(Sort(sorted), sorted);
    case _ =>
  }

  lemma AscendingApart<V>(xs: seq<Field<V>>)
    requires Ascending(xs)
    ensures DistinctKeys(xs)
  {
    forall i, j | 0 <= i < j < |xs|
      ensures xs[i].key != xs[j].key
    {
      LessIrreflexive(xs[i].key);
    }
  }
}
