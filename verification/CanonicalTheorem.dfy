/** Canonical text is unambiguous: two values have the same text exactly when they are equal up to the order of keys. */
module CanonicalTheorem {
  import opened CanonicalJson

  // ----- the normal form decides sameness -----

  lemma {:induction false} NormalSame<N>(a: Doc<N>, b: Doc<N>)
    requires WellFormed(a) && WellFormed(b)
    ensures Normal(a) == Normal(b) <==> Same(a, b)
    decreases a
  {
    match a
    case Arr(items) =>
      if b.Arr? && |items| == |b.items| {
        forall i | 0 <= i < |items|
          ensures Normal(items[i]) == Normal(b.items[i]) <==> Same(items[i], b.items[i])
        {
          NormalSame(items[i], b.items[i]);
        }
      }
    case Obj(fields) =>
      if b.Obj? {
        forall i | 0 <= i < |fields| && HasKey(b.fields, fields[i].key)
          ensures Normal(fields[i].value) == Normal(Value(b.fields, fields[i].key))
                  <==> Same(fields[i].value, Value(b.fields, fields[i].key))
        {
          var at := ValueAt(b.fields, fields[i].key);
          NormalSame(fields[i].value, Value(b.fields, fields[i].key));
        }
        NormalFieldsSame(fields, b.fields);
      }
    case _ =>
  }

  lemma {:induction false} ValueAt<V>(fields: seq<Field<V>>, key: string) returns (i: nat)
    requires HasKey(fields, key)
    ensures i < |fields| && fields[i].key == key && fields[i].value == Value(fields, key)
    decreases |fields|
  {
    if fields[0].key == key {
      i := 0;
    } else {
      assert forall i :: 0 < i < |fields| ==> fields[i] == fields[1..][i - 1];
      i := ValueAt(fields[1..], key);
      i := i + 1;
    }
  }

  lemma NormalFieldsSame<N>(a: seq<Field<Doc<N>>>, b: seq<Field<Doc<N>>>)
    requires DistinctKeys(a) && DistinctKeys(b)
    requires forall i :: 0 <= i < |a| && HasKey(b, a[i].key) ==>
               (Normal(a[i].value) == Normal(Value(b, a[i].key)) <==> Same(a[i].value, Value(b, a[i].key)))
    ensures Sort(NormalFields(a)) == Sort(NormalFields(b)) <==> Same(Obj(a), Obj(b))
  {
    hide Sort, Normal, Within, Value, HasKey;
    assert DistinctKeys(NormalFields(a)) && DistinctKeys(NormalFields(b)) by { KeysStay(a); KeysStay(b); }
    SortIff(NormalFields(a), NormalFields(b));
    WithinLeft(a, b);
    if Agrees(a, b) && forall j :: 0 <= j < |b| ==> HasKey(a, b[j].key) {
      WithinBack(a, b);
    }
    if Within(NormalFields(b), NormalFields(a)) {
      WithinHas(b, a);
    }
  }

  lemma KeysStay<N>(a: seq<Field<Doc<N>>>)
    requires DistinctKeys(a)
    ensures DistinctKeys(NormalFields(a))
  {
  }

  /** Every field of `a` is in `b`, with the same normal form. */
  ghost predicate Agrees<N>(a: seq<Field<Doc<N>>>, b: seq<Field<Doc<N>>>) {
    forall i :: 0 <= i < |a| ==> HasKey(b, a[i].key) && Normal(a[i].value) == Normal(Value(b, a[i].key))
  }

  lemma WithinLeft<N>(a: seq<Field<Doc<N>>>, b: seq<Field<Doc<N>>>)
    requires DistinctKeys(b)
    ensures Within(NormalFields(a), NormalFields(b)) <==> Agrees(a, b)
  {
    hide Normal, Value, HasKey;
    var na, nb := NormalFields(a), NormalFields(b);
    forall i | 0 <= i < |a|
      ensures na[i] in nb <==> HasKey(b, a[i].key) && Normal(a[i].value) == Normal(Value(b, a[i].key))
    {
      if na[i] in nb {
        var j :| 0 <= j < |nb| && nb[j] == na[i];
        KeyIn(b, j);
        var k := ValueAt(b, a[i].key);
      }
      if HasKey(b, a[i].key) && Normal(a[i].value) == Normal(Value(b, a[i].key)) {
        var k := ValueAt(b, a[i].key);
        assert nb[k] == na[i];
      }
    }
  }

  lemma KeyIn<V>(fields: seq<Field<V>>, i: nat)
    requires i < |fields|
    ensures HasKey(fields, fields[i].key)
  {
  }

  lemma WithinHas<N>(a: seq<Field<Doc<N>>>, b: seq<Field<Doc<N>>>)
    requires Within(NormalFields(a), NormalFields(b))
    ensures forall i :: 0 <= i < |a| ==> HasKey(b, a[i].key)
  {
    hide Within, HasKey, NormalFields;
    forall i | 0 <= i < |a|
      ensures HasKey(b, a[i].key)
    {
      KeyWithin(a, b, i);
    }
  }

  lemma KeyWithin<N>(a: seq<Field<Doc<N>>>, b: seq<Field<Doc<N>>>, i: nat)
    requires Within(NormalFields(a), NormalFields(b)) && i < |a|
    ensures HasKey(b, a[i].key)
  {
    hide HasKey;
    var x := NormalFields(a)[i];
    assert x in NormalFields(b);
    var j :| 0 <= j < |NormalFields(b)| && NormalFields(b)[j] == x;
    KeyIn(b, j);
  }

  lemma WithinBack<N>(a: seq<Field<Doc<N>>>, b: seq<Field<Doc<N>>>)
    requires DistinctKeys(a) && DistinctKeys(b) && Agrees(a, b) && forall j :: 0 <= j < |b| ==> HasKey(a, b[j].key)
    ensures Within(NormalFields(b), NormalFields(a))
  {
    hide Normal, Value, HasKey;
    var na, nb := NormalFields(a), NormalFields(b);
    forall j | 0 <= j < |b|
      ensures nb[j] in na
    {
      var i := ValueAt(a, b[j].key);
      var k := ValueAt(b, a[i].key);
      assert k == j;
      assert na[i] == nb[j];
    }
  }

  /** Sorting forgets exactly the order. */
  lemma SortIff<V>(a: seq<Field<V>>, b: seq<Field<V>>)
    requires DistinctKeys(a) && DistinctKeys(b)
    ensures Sort(a) == Sort(b) <==> Within(a, b) && Within(b, a)
  {
    hide Sort, Within, Ascending;
    SortIs(a);
    SortIs(b);
    if Sort(a) == Sort(b) {
      WithinTrans(a, Sort(a), b);
      WithinTrans(b, Sort(b), a);
    }
    if Within(a, b) && Within(b, a) {
      WithinTrans(Sort(a), a, b);
      WithinTrans(Sort(a), b, Sort(b));
      WithinTrans(Sort(b), b, a);
      WithinTrans(Sort(b), a, Sort(a));
      AscendingUnique(Sort(a), Sort(b));
    }
  }

  lemma WithinTrans<V>(a: seq<V>, b: seq<V>, c: seq<V>)
    requires Within(a, b) && Within(b, c)
    ensures Within(a, c)
  {
    forall i | 0 <= i < |a|
      ensures a[i] in c
    {
      var k :| 0 <= k < |b| && b[k] == a[i];
      assert b[k] in c;
    }
  }

  // ----- the text of a value, keys in the order they stand -----

  function Text<N>(d: Doc<N>, digits: N -> string): string
    decreases d
  {
    match d
    case Null => "null"
    case Bool(b) => if b then "true" else "false"
    case Num(n) => digits(n)
    case Str(s) => Quote(s)
    case Arr(items) => "[" + (if items == [] then "]" else Text(items[0], digits) + MoreItems(items[1..], digits))
    case Obj(fields) =>
      "{" + (if fields == [] then "}" else FieldText(fields[0], digits) + MoreFields(fields[1..], digits))
  }

  function MoreItems<N>(items: seq<Doc<N>>, digits: N -> string): string
    decreases items
  {
    if items == [] then "]" else "," + Text(items[0], digits) + MoreItems(items[1..], digits)
  }

  function MoreFields<N>(fields: seq<Field<Doc<N>>>, digits: N -> string): string
    decreases fields
  {
    if fields == [] then "}" else "," + FieldText(fields[0], digits) + MoreFields(fields[1..], digits)
  }

  function FieldText<N>(x: Field<Doc<N>>, digits: N -> string): string
    decreases x
  {
    Quote(x.key) + ":" + Text(x.value, digits)
  }

  // ----- canonical text is the text of the normal form -----

  function Texts<N>(xs: seq<Field<Doc<N>>>, digits: N -> string): (r: seq<Field<string>>)
    ensures |r| == |xs| && forall i :: 0 <= i < |r| ==> r[i] == Field(xs[i].key, Text(xs[i].value, digits))
  {
    seq(|xs|, i requires 0 <= i < |xs| => Field(xs[i].key, Text(xs[i].value, digits)))
  }

  lemma {:induction false} InsertTexts<N>(x: Field<Doc<N>>, xs: seq<Field<Doc<N>>>, digits: N -> string)
    ensures Texts(Insert(x, xs), digits) == Insert(Field(x.key, Text(x.value, digits)), Texts(xs, digits))
    decreases |xs|
  {
    if xs != [] {
      InsertTexts(x, xs[1..], digits);
      assert Texts(xs, digits)[1..] == Texts(xs[1..], digits);
    }
  }

  lemma {:induction false} SortTexts<N>(xs: seq<Field<Doc<N>>>, digits: N -> string)
    ensures Sort(Texts(xs, digits)) == Texts(Sort(xs), digits)
    decreases |xs|
  {
    if xs != [] {
      SortTexts(xs[1..], digits);
      assert Texts(xs, digits)[1..] == Texts(xs[1..], digits);
      InsertTexts(xs[0], Sort(xs[1..]), digits);
    }
  }

  lemma {:induction false} CanonicalIsText<N>(d: Doc<N>, digits: N -> string)
    ensures Canonical(d, digits) == Text(Normal(d), digits)
    decreases d, 1
  {
    match d
    case Arr(items) =>
      ItemsAgree(items, digits);
      JoinItems(NormalItems(items), digits);
    case Obj(fields) =>
      FieldsAgree(fields, digits);
      SortTexts(NormalFields(fields), digits);
      JoinFields(Sort(NormalFields(fields)), digits);
    case _ =>
  }

  function ItemTexts<N>(items: seq<Doc<N>>, digits: N -> string): (r: seq<string>)
    ensures |r| == |items| && forall i :: 0 <= i < |r| ==> r[i] == Text(items[i], digits)
  {
    seq(|items|, i requires 0 <= i < |items| => Text(items[i], digits))
  }

  lemma {:induction false} ItemsAgree<N>(items: seq<Doc<N>>, digits: N -> string)
    ensures CanonicalItems(items, digits) == ItemTexts(NormalItems(items), digits)
    decreases items, 0
  {
    hide Text, Canonical, Normal;
    if items != [] {
      CanonicalIsText(items[0], digits);
      ItemsAgree(items[1..], digits);
      assert NormalItems(items)[1..] == NormalItems(items[1..]);
      assert ItemTexts(NormalItems(items), digits)
          == [Text(Normal(items[0]), digits)] + ItemTexts(NormalItems(items[1..]), digits);
    }
  }

  lemma {:induction false} FieldsAgree<N>(fields: seq<Field<Doc<N>>>, digits: N -> string)
    ensures CanonicalFields(fields, digits) == Texts(NormalFields(fields), digits)
    decreases fields, 0
  {
    hide Text, Canonical, Normal;
    if fields != [] {
      FieldAgrees(fields[0], digits);
      FieldsAgree(fields[1..], digits);
      assert NormalFields(fields)[1..] == NormalFields(fields[1..]);
      assert Texts(NormalFields(fields), digits)
          == [Field(fields[0].key, Text(Normal(fields[0].value), digits))] + Texts(NormalFields(fields[1..]), digits);
    }
  }

  lemma {:induction false} FieldAgrees<N>(x: Field<Doc<N>>, digits: N -> string)
    ensures Canonical(x.value, digits) == Text(Normal(x.value), digits)
    decreases x, 0
  {
    CanonicalIsText(x.value, digits);
  }

  lemma {:induction false} JoinItems<N>(items: seq<Doc<N>>, digits: N -> string)
    ensures Join(ItemTexts(items, digits)) + "]" ==
            if items == [] then "]" else Text(items[0], digits) + MoreItems(items[1..], digits)
    decreases |items|
  {
    var parts := ItemTexts(items, digits);
    if |items| > 1 {
      JoinItems(items[1..], digits);
      assert parts[1..] == ItemTexts(items[1..], digits);
      Regroup(parts[0], Join(parts[1..]));
    } else if |items| == 1 {
      assert items[1..] == [];
    }
  }

  lemma Regroup(a: string, b: string)
    ensures (a + "," + b) + "]" == a + ("," + (b + "]")) && (a + "," + b) + "}" == a + ("," + (b + "}"))
  {
  }

  lemma {:induction false} JoinFields<N>(xs: seq<Field<Doc<N>>>, digits: N -> string)
    ensures Join(Pairs(Texts(xs, digits))) + "}" ==
            if xs == [] then "}" else FieldText(xs[0], digits) + MoreFields(xs[1..], digits)
    decreases |xs|
  {
    var parts := Pairs(Texts(xs, digits));
    if xs != [] {
      assert Texts(xs, digits)[1..] == Texts(xs[1..], digits);
      PairsLength(Texts(xs, digits));
      assert parts[0] == FieldText(xs[0], digits) && parts[1..] == Pairs(Texts(xs[1..], digits));
      JoinFields(xs[1..], digits);
      if |xs| > 1 {
        Regroup(parts[0], Join(parts[1..]));
      } else {
        assert xs[1..] == [];
      }
    }
  }

  lemma {:induction false} PairsLength(xs: seq<Field<string>>)
    ensures |Pairs(xs)| == |xs|
    decreases |xs|
  {
    if xs != [] {
      PairsLength(xs[1..]);
    }
  }

  // ----- texts cannot be confused -----

  /** What may follow a value. */
  predicate Tail(u: string) { u == "" || u[0] in ",]}" }

  lemma EscapeCharUnique(c: char, d: char, u: string, v: string)
    requires EscapeChar(c) + u == EscapeChar(d) + v
    ensures c == d && u == v
  {
    var x, y := EscapeChar(c), EscapeChar(d);
    assert (x + u)[0] == x[0] && (y + v)[0] == y[0];
    if |x| > 1 && |y| > 1 {
      assert (x + u)[1] == x[1] && (y + v)[1] == y[1];
      if |x| == 6 && |y| == 6 {
        assert (x + u)[4] == x[4] && (y + v)[4] == y[4];
        assert (x + u)[5] == x[5] && (y + v)[5] == y[5];
        HexUnique(c as int / 16, d as int / 16);
        HexUnique(c as int % 16, d as int % 16);
      }
    }
    assert |x| == |y|;
    assert u == (x + u)[|x|..] && v == (y + v)[|y|..];
  }

  lemma HexUnique(a: nat, b: nat)
    requires a < 16 && b < 16 && Hex(a) == Hex(b)
    ensures a == b
  {
  }

  lemma {:induction false} EscapeUnique(s: string, t: string, u: string, v: string)
    requires Escape(s) + "\"" + u == Escape(t) + "\"" + v
    ensures s == t && u == v
    decreases |s|
  {
    hide EscapeChar;
    EscapeStart(s, u);
    EscapeStart(t, v);
    if s == "" || t == "" {
      assert u == (Escape(s) + "\"" + u)[1..] && v == (Escape(t) + "\"" + v)[1..];
    } else {
      EscapeStep(s, u);
      EscapeStep(t, v);
      EscapeCharUnique(s[0], t[0], Escape(s[1..]) + "\"" + u, Escape(t[1..]) + "\"" + v);
      EscapeUnique(s[1..], t[1..], u, v);
      assert s == [s[0]] + s[1..] && t == [t[0]] + t[1..];
    }
  }

  /** The closing quote is the first unescaped one. */
  lemma EscapeStart(s: string, u: string)
    ensures (Escape(s) + "\"" + u)[0] == '"' <==> s == ""
  {
    if s != "" {
      assert EscapeChar(s[0])[0] != '"';
      assert (EscapeChar(s[0]) + Escape(s[1..]))[0] == EscapeChar(s[0])[0];
    }
  }

  lemma EscapeStep(s: string, u: string)
    requires s != ""
    ensures Escape(s) + "\"" + u == EscapeChar(s[0]) + (Escape(s[1..]) + "\"" + u)
  {
    hide EscapeChar;
  }

  lemma QuoteUnique(s: string, t: string, u: string, v: string)
    requires Quote(s) + u == Quote(t) + v
    ensures s == t && u == v
  {
    hide Escape;
    assert (Quote(s) + u)[1..] == Escape(s) + "\"" + u;
    assert (Quote(t) + v)[1..] == Escape(t) + "\"" + v;
    EscapeUnique(s, t, u, v);
  }

  /** The first character of a text tells its kind; none of them ends a value. */
  lemma TextStart<N(!new)>(d: Doc<N>, digits: N -> string)
    requires NumberPrinter(digits)
    ensures Text(d, digits) != ""
    ensures var c := Text(d, digits)[0];
            match d
            case Null => c == 'n'
            case Bool(b) => c == if b then 't' else 'f'
            case Num(_) => NumChar(c)
            case Str(_) => c == '"'
            case Arr(_) => c == '['
            case Obj(_) => c == '{'
  {
    hide Escape, MoreItems, MoreFields, FieldText;
  }

  lemma Head(x: string, u: string)
    requires x != ""
    ensures (x + u)[0] == x[0]
  {
  }

  /** What may follow a value does not start like a number. */
  lemma NoNumberFirst(x: string, u: string, t: string)
    requires Tail(t) && t == x + u && forall i :: 0 <= i < |x| ==> NumChar(x[i])
    ensures x == "" && u == t
  {
    if x != "" {
      Head(x, u);
    } else {
      assert x + u == u;
    }
  }

  lemma {:induction false} NumbersUnique(x: string, y: string, u: string, v: string)
    requires (forall i :: 0 <= i < |x| ==> NumChar(x[i])) && (forall i :: 0 <= i < |y| ==> NumChar(y[i]))
    requires Tail(u) && Tail(v) && x + u == y + v
    ensures x == y && u == v
    decreases |x|
  {
    if x == "" {
      assert x + u == u;
      NoNumberFirst(y, v, u);
    } else if y == "" {
      assert y + v == v;
      NoNumberFirst(x, u, v);
    } else {
      assert (x + u)[0] == x[0] && (y + v)[0] == y[0];
      assert (x + u)[1..] == x[1..] + u && (y + v)[1..] == y[1..] + v;
      NumbersUnique(x[1..], y[1..], u, v);
      assert x == [x[0]] + x[1..] && y == [y[0]] + y[1..];
    }
  }

  lemma SameLength(x: string, u: string, v: string)
    requires x + u == x + v
    ensures u == v
  {
    assert u == (x + u)[|x|..] && v == (x + v)[|x|..];
  }

  /** No text is another text followed by something that may follow a value. */
  lemma {:induction false} TextUnique<N(!new)>(a: Doc<N>, b: Doc<N>, u: string, v: string, digits: N -> string)
    requires NumberPrinter(digits) && Tail(u) && Tail(v) && Text(a, digits) + u == Text(b, digits) + v
    ensures a == b && u == v
    decreases a, 2
  {
    hide Text, MoreItems, MoreFields, Quote, NumChar, FieldText;
    TextStart(a, digits);
    TextStart(b, digits);
    assert (Text(a, digits) + u)[0] == Text(a, digits)[0] && (Text(b, digits) + v)[0] == Text(b, digits)[0];
    NumStart(Text(a, digits)[0]);
    match a
    case Num(_) => NumUnique(a, b, u, v, digits);
    case Str(s) => StrUnique(a, b, u, v, digits);
    case Arr(_) => ArrUnique(a, b, u, v, digits);
    case Obj(_) => ObjUnique(a, b, u, v, digits);
    case _ => SameLength(Text(a, digits), u, v);
  }

  lemma NumStart(c: char)
    ensures NumChar(c) ==> c != 'n' && c != 't' && c != 'f' && c != '"' && c != '[' && c != '{'
  {
  }

  lemma NumUnique<N(!new)>(a: Doc<N>, b: Doc<N>, u: string, v: string, digits: N -> string)
    requires NumberPrinter(digits) && Tail(u) && Tail(v) && Text(a, digits) + u == Text(b, digits) + v && a.Num?
             && b.Num?
    ensures a == b && u == v
  {
    NumbersUnique(digits(a.n), digits(b.n), u, v);
  }

  lemma StrUnique<N>(a: Doc<N>, b: Doc<N>, u: string, v: string, digits: N -> string)
    requires Text(a, digits) + u == Text(b, digits) + v && a.Str? && b.Str?
    ensures a == b && u == v
  {
    QuoteUnique(a.s, b.s, u, v);
  }

  /** What follows the opening bracket. */
  function ArrBody<N>(items: seq<Doc<N>>, digits: N -> string): string {
    if items == [] then "]" else Text(items[0], digits) + MoreItems(items[1..], digits)
  }

  function ObjBody<N>(fields: seq<Field<Doc<N>>>, digits: N -> string): string {
    if fields == [] then "}" else FieldText(fields[0], digits) + MoreFields(fields[1..], digits)
  }

  lemma ArrOpen<N>(items: seq<Doc<N>>, u: string, digits: N -> string)
    ensures (Text(Arr(items), digits) + u)[1..] == ArrBody(items, digits) + u
    ensures items != [] ==> ArrBody(items, digits) + u == Text(items[0], digits) + (MoreItems(items[1..], digits) + u)
  {
    hide MoreItems;
    assert Text(Arr(items), digits) == "[" + ArrBody(items, digits);
  }

  lemma {:induction false} ArrUnique<N(!new)>(a: Doc<N>, b: Doc<N>, u: string, v: string, digits: N -> string)
    requires NumberPrinter(digits) && Tail(u) && Tail(v) && Text(a, digits) + u == Text(b, digits) + v && a.Arr?
             && b.Arr?
    ensures a == b && u == v
    decreases a, 1
  {
    hide MoreItems, Text, NumberPrinter, Tail;
    ArrOpen(a.items, u, digits);
    ArrOpen(b.items, v, digits);
    ArrStart(a.items, u, digits);
    ArrStart(b.items, v, digits);
    if a.items == [] {
      SameLength("]", u, v);
    } else {
      var xs, ys := MoreItems(a.items[1..], digits), MoreItems(b.items[1..], digits);
      MoreItemsTail(a.items[1..], u, digits);
      MoreItemsTail(b.items[1..], v, digits);
      TextUnique(a.items[0], b.items[0], xs + u, ys + v, digits);
      MoreItemsUnique(a.items[1..], b.items[1..], u, v, digits);
      assert a.items == [a.items[0]] + a.items[1..] && b.items == [b.items[0]] + b.items[1..];
    }
  }

  lemma ArrStart<N(!new)>(items: seq<Doc<N>>, u: string, digits: N -> string)
    requires NumberPrinter(digits)
    ensures ArrBody(items, digits) != "" && ((ArrBody(items, digits) + u)[0] == ']' <==> items == [])
  {
    hide MoreItems, Text;
    if items != [] {
      TextStart(items[0], digits);
    }
  }

  lemma MoreItemsTail<N>(items: seq<Doc<N>>, u: string, digits: N -> string)
    ensures var m := MoreItems(items, digits) + u; Tail(m) && m != "" && (m[0] == ']' <==> items == [])
  {
    hide Text;
  }

  lemma {:induction false} MoreItemsUnique<N(!new)>(a: seq<Doc<N>>, b: seq<Doc<N>>, u: string, v: string,
      digits: N -> string)
    requires NumberPrinter(digits) && Tail(u) && Tail(v) && MoreItems(a, digits) + u == MoreItems(b, digits) + v
    ensures a == b && u == v
    decreases a, 0
  {
    hide Text;
    MoreItemsTail(a, u, digits);
    MoreItemsTail(b, v, digits);
    if a == [] {
      SameLength("]", u, v);
    } else {
      var x, y := MoreItems(a[1..], digits) + u, MoreItems(b[1..], digits) + v;
      assert (MoreItems(a, digits) + u)[1..] == Text(a[0], digits) + x;
      assert (MoreItems(b, digits) + v)[1..] == Text(b[0], digits) + y;
      MoreItemsTail(a[1..], u, digits);
      MoreItemsTail(b[1..], v, digits);
      TextUnique(a[0], b[0], x, y, digits);
      MoreItemsUnique(a[1..], b[1..], u, v, digits);
      assert a == [a[0]] + a[1..] && b == [b[0]] + b[1..];
    }
  }

  lemma ObjOpen<N>(fields: seq<Field<Doc<N>>>, u: string, digits: N -> string)
    ensures (Text(Obj(fields), digits) + u)[1..] == ObjBody(fields, digits) + u
    ensures fields != [] ==>
              ObjBody(fields, digits) + u == FieldText(fields[0], digits) + (MoreFields(fields[1..], digits) + u)
  {
    hide MoreFields, FieldText;
    assert Text(Obj(fields), digits) == "{" + ObjBody(fields, digits);
  }

  lemma {:induction false} ObjUnique<N(!new)>(a: Doc<N>, b: Doc<N>, u: string, v: string, digits: N -> string)
    requires NumberPrinter(digits) && Tail(u) && Tail(v) && Text(a, digits) + u == Text(b, digits) + v && a.Obj?
             && b.Obj?
    ensures a == b && u == v
    decreases a, 1
  {
    hide MoreFields, FieldText, Text, NumberPrinter, Tail;
    ObjOpen(a.fields, u, digits);
    ObjOpen(b.fields, v, digits);
    ObjStart(a.fields, u, digits);
    ObjStart(b.fields, v, digits);
    if a.fields == [] {
      SameLength("}", u, v);
    } else {
      var xs, ys := MoreFields(a.fields[1..], digits), MoreFields(b.fields[1..], digits);
      MoreFieldsTail(a.fields[1..], u, digits);
      MoreFieldsTail(b.fields[1..], v, digits);
      FieldUnique(a.fields[0], b.fields[0], xs + u, ys + v, digits);
      MoreFieldsUnique(a.fields[1..], b.fields[1..], u, v, digits);
      assert a.fields == [a.fields[0]] + a.fields[1..] && b.fields == [b.fields[0]] + b.fields[1..];
    }
  }

  lemma ObjStart<N>(fields: seq<Field<Doc<N>>>, u: string, digits: N -> string)
    ensures ObjBody(fields, digits) != "" && ((ObjBody(fields, digits) + u)[0] == '}' <==> fields == [])
  {
    hide MoreFields, Text;
    if fields != [] {
      assert FieldText(fields[0], digits)[0] == '"';
    }
  }

  lemma MoreFieldsTail<N>(fields: seq<Field<Doc<N>>>, u: string, digits: N -> string)
    ensures var m := MoreFields(fields, digits) + u; Tail(m) && m != "" && (m[0] == '}' <==> fields == [])
  {
    hide FieldText;
  }

  lemma {:induction false} FieldUnique<N(!new)>(a: Field<Doc<N>>, b: Field<Doc<N>>, u: string, v: string,
      digits: N -> string)
    requires NumberPrinter(digits) && Tail(u) && Tail(v) && FieldText(a, digits) + u == FieldText(b, digits) + v
    ensures a == b && u == v
    decreases a, 0
  {
    hide Quote, Text;
    var x, y := Text(a.value, digits) + u, Text(b.value, digits) + v;
    assert FieldText(a, digits) + u == Quote(a.key) + (":" + x);
    assert FieldText(b, digits) + v == Quote(b.key) + (":" + y);
    QuoteUnique(a.key, b.key, ":" + x, ":" + y);
    SameLength(":", x, y);
    TextUnique(a.value, b.value, u, v, digits);
  }

  lemma {:induction false} MoreFieldsUnique<N(!new)>(a: seq<Field<Doc<N>>>, b: seq<Field<Doc<N>>>, u: string, v: string,
      digits: N -> string)
    requires NumberPrinter(digits) && Tail(u) && Tail(v) && MoreFields(a, digits) + u == MoreFields(b, digits) + v
    ensures a == b && u == v
    decreases a, 0
  {
    hide FieldText;
    MoreFieldsTail(a, u, digits);
    MoreFieldsTail(b, v, digits);
    if a == [] {
      SameLength("}", u, v);
    } else {
      var x, y := MoreFields(a[1..], digits) + u, MoreFields(b[1..], digits) + v;
      assert (MoreFields(a, digits) + u)[1..] == FieldText(a[0], digits) + x;
      assert (MoreFields(b, digits) + v)[1..] == FieldText(b[0], digits) + y;
      MoreFieldsTail(a[1..], u, digits);
      MoreFieldsTail(b[1..], v, digits);
      FieldUnique(a[0], b[0], x, y, digits);
      MoreFieldsUnique(a[1..], b[1..], u, v, digits);
      assert a == [a[0]] + a[1..] && b == [b[0]] + b[1..];
    }
  }

  /** Two values have the same canonical text exactly when they are the same up to the order of keys. */
  lemma CanonicalIff<N(!new)>(a: Doc<N>, b: Doc<N>, digits: N -> string)
    requires WellFormed(a) && WellFormed(b) && NumberPrinter(digits)
    ensures Canonical(a, digits) == Canonical(b, digits) <==> Same(a, b)
  {
    hide Canonical, Text, Normal, Same, NumberPrinter, WellFormed;
    CanonicalIsText(a, digits);
    CanonicalIsText(b, digits);
    NormalSame(a, b);
    if Canonical(a, digits) == Canonical(b, digits) {
      TextUnique(Normal(a), Normal(b), "", "", digits);
    }
  }

  /** The request as it is hashed: method, path and body, an absent body as `null`. */
  function Request<N>(verb: string, path: string, body: Doc<N>): Doc<N> {
    Obj([Field("method", Str(verb)), Field("path", Str(path)), Field("body", body)])
  }

  /** Requests are told apart by method, path and body, and by nothing else. */
  lemma RequestIff<N(!new)>(m: string, p: string, a: Doc<N>, m': string, p': string, b: Doc<N>, digits: N -> string)
    requires WellFormed(a) && WellFormed(b) && NumberPrinter(digits)
    ensures Canonical(Request(m, p, a), digits) == Canonical(Request(m', p', b), digits)
            <==> m == m' && p == p' && Same(a, b)
  {
    hide Canonical, NumberPrinter;
    var x, y := Request(m, p, a), Request(m', p', b);
    assert WellFormed(x) && WellFormed(y);
    CanonicalIff(x, y, digits);
    RequestSame(m, p, a, m', p', b);
  }

  lemma RequestSame<N>(m: string, p: string, a: Doc<N>, m': string, p': string, b: Doc<N>)
    ensures Same(Request(m, p, a), Request(m', p', b)) <==> m == m' && p == p' && Same(a, b)
  {
    hide Value, HasKey;
    var x, y := Request(m, p, a), Request(m', p', b);
    KeyIn(x.fields, 0); KeyIn(x.fields, 1); KeyIn(x.fields, 2);
    KeyIn(y.fields, 0); KeyIn(y.fields, 1); KeyIn(y.fields, 2);
    var i0 := ValueAt(y.fields, "method");
    var i1 := ValueAt(y.fields, "path");
    var i2 := ValueAt(y.fields, "body");
    assert y.fields[i0].value == Str(m') && y.fields[i1].value == Str(p') && y.fields[i2].value == b;
  }
}
