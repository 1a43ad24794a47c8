/** Canonical JSON text (control-plane/fake-request-runner.ts `stableStringify`, runtime/fake-store.ts `stableJson`):
    keys are sorted, so that the text identifies a value up to the order of its keys. Strings are quoted as
    `JSON.stringify` does; how numbers are written is a parameter. */
module CanonicalJson {

  datatype Field<V> = Field(key: string, value: V)

  /** A JSON value whose objects keep their keys in the order they were written. */
  datatype Doc<N> =
    | Null
    | Bool(b: bool)
    | Num(n: N)
    | Str(s: string)
    | Arr(items: seq<Doc<N>>)
    | Obj(fields: seq<Field<Doc<N>>>)

  // ----- primitives -----

  predicate NumChar(c: char) { c in "0123456789+-.eE" }

  /** Numbers are written without delimiters, and different numbers differently. */
  ghost predicate NumberPrinter<N(!new)>(digits: N -> string) {
    && (forall n :: digits(n) != "" && forall i :: 0 <= i < |digits(n)| ==> NumChar(digits(n)[i]))
    && (forall m, n :: digits(m) == digits(n) ==> m == n)
  }

  function Hex(k: nat): char
    requires k < 16
  {
    "0123456789abcdef"[k]
  }

  function EscapeChar(c: char): string {
    if c == '"' then "\\\""
    else if c == '\\' then "\\\\"
    else if c as int == 8 then "\\b"
    else if c as int == 9 then "\\t"
    else if c as int == 10 then "\\n"
    else if c as int == 12 then "\\f"
    else if c as int == 13 then "\\r"
    else if c as int < 32 then "\\u00" + [Hex(c as int / 16), Hex(c as int % 16)]
    else [c]
  }

  function Escape(s: string): string {
    if s == "" then "" else EscapeChar(s[0]) + Escape(s[1..])
  }

  function Quote(s: string): string { "\"" + Escape(s) + "\"" }

  // ----- sorting by key -----

  predicate Less(a: string, b: string)
    decreases |a|
  {
    b != "" && (a == "" || a[0] < b[0] || (a[0] == b[0] && Less(a[1..], b[1..])))
  }

  function Insert<V>(x: Field<V>, xs: seq<Field<V>>): seq<Field<V>> {
    if xs == [] || Less(x.key, xs[0].key) then [x] + xs else [xs[0]] + Insert(x, xs[1..])
  }

  function Sort<V>(xs: seq<Field<V>>): seq<Field<V>> {
    if xs == [] then [] else Insert(xs[0], Sort(xs[1..]))
  }

  function Join(parts: seq<string>): string {
    if parts == [] then "" else if |parts| == 1 then parts[0] else parts[0] + "," + Join(parts[1..])
  }

  function Pairs(xs: seq<Field<string>>): seq<string> {
    if xs == [] then [] else [Quote(xs[0].key) + ":" + xs[0].value] + Pairs(xs[1..])
  }

  /** The canonical text. */
  function Canonical<N>(d: Doc<N>, digits: N -> string): string
    decreases d
  {
    match d
    case Null => "null"
    case Bool(b) => if b then "true" else "false"
    case Num(n) => digits(n)
    case Str(s) => Quote(s)
    case Arr(items) => "[" + Join(CanonicalItems(items, digits)) + "]"
    case Obj(fields) => "{" + Join(Pairs(Sort(CanonicalFields(fields, digits)))) + "}"
  }

  function CanonicalItems<N>(items: seq<Doc<N>>, digits: N -> string): seq<string>
    decreases items
  {
    if items == [] then [] else [Canonical(items[0], digits)] + CanonicalItems(items[1..], digits)
  }

  function CanonicalFields<N>(fields: seq<Field<Doc<N>>>, digits: N -> string): seq<Field<string>>
    decreases fields
  {
    if fields == [] then [] else [CanonicalField(fields[0], digits)] + CanonicalFields(fields[1..], digits)
  }

  function CanonicalField<N>(x: Field<Doc<N>>, digits: N -> string): Field<string>
    decreases x
  {
    Field(x.key, Canonical(x.value, digits))
  }

  // ----- equality up to the order of keys -----

  predicate DistinctKeys<V>(fields: seq<Field<V>>) {
    forall i, j :: 0 <= i < j < |fields| ==> fields[i].key != fields[j].key
  }

  predicate HasKey<V>(fields: seq<Field<V>>, key: string) {
    exists i :: 0 <= i < |fields| && fields[i].key == key
  }

  function Value<V>(fields: seq<Field<V>>, key: string): V
    requires HasKey(fields, key)
  {
    if fields[0].key == key then fields[0].value
    else
      assert forall i :: 0 < i < |fields| ==> fields[i] == fields[1..][i - 1];
      Value(fields[1..], key)
  }

  /** No object has a key twice. */
  predicate WellFormed<N>(d: Doc<N>)
    decreases d
  {
    match d
    case Arr(items) => forall i :: 0 <= i < |items| ==> WellFormed(items[i])
    case Obj(fields) => DistinctKeys(fields) && forall i :: 0 <= i < |fields| ==> WellFormed(fields[i].value)
    case _ => true
  }

  /** The same value up to the order of keys: objects with the same keys and, under each, the same value. */
  predicate Same<N(==)>(a: Doc<N>, b: Doc<N>)
    decreases a
  {
    match a
    case Arr(items) =>
      b.Arr? && |items| == |b.items| && forall i :: 0 <= i < |items| ==> Same(items[i], b.items[i])
    case Obj(fields) =>
      && b.Obj?
      && (forall i :: 0 <= i < |fields| ==>
            HasKey(b.fields, fields[i].key) && Same(fields[i].value, Value(b.fields, fields[i].key)))
      && (forall j :: 0 <= j < |b.fields| ==> HasKey(fields, b.fields[j].key))
    case _ => a == b
  }

  /** Keys sorted at every level. */
  function Normal<N>(d: Doc<N>): Doc<N>
    decreases d
  {
    match d
    case Arr(items) => Arr(NormalItems(items))
    case Obj(fields) => Obj(Sort(NormalFields(fields)))
    case _ => d
  }

  function NormalItems<N>(items: seq<Doc<N>>): (r: seq<Doc<N>>)
    ensures |r| == |items| && forall i :: 0 <= i < |r| ==> r[i] == Normal(items[i])
    decreases items
  {
    if items == [] then [] else [Normal(items[0])] + NormalItems(items[1..])
  }

  function NormalFields<N>(fields: seq<Field<Doc<N>>>): (r: seq<Field<Doc<N>>>)
    ensures |r| == |fields| && forall i :: 0 <= i < |r| ==> r[i] == NormalField(fields[i])
    decreases fields
  {
    if fields == [] then [] else [NormalField(fields[0])] + NormalFields(fields[1..])
  }

  function NormalField<N>(x: Field<Doc<N>>): Field<Doc<N>>
    decreases x
  {
    Field(x.key, Normal(x.value))
  }

  // ----- the order on keys -----

  lemma {:induction false} LessTotal(a: string, b: string)
    ensures Less(a, b) || a == b || Less(b, a)
    decreases |a|
  {
    if a != "" && b != "" && a[0] == b[0] {
      LessTotal(a[1..], b[1..]);
      assert a == [a[0]] + a[1..] && b == [b[0]] + b[1..];
    }
  }

  lemma {:induction false} LessTrans(a: string, b: string, c: string)
    requires Less(a, b) && Less(b, c)
    ensures Less(a, c)
    decreases |a|
  {
    if a != "" && a[0] == b[0] == c[0] {
      LessTrans(a[1..], b[1..], c[1..]);
    }
  }

  lemma {:induction false} LessIrreflexive(a: string)
    ensures !Less(a, a)
    decreases |a|
  {
    if a != "" {
      LessIrreflexive(a[1..]);
    }
  }

  // ----- sorting -----

  predicate Ascending<V>(xs: seq<Field<V>>) {
    forall i, j :: 0 <= i < j < |xs| ==> Less(xs[i].key, xs[j].key)
  }

  predicate Within<V(==)>(a: seq<V>, b: seq<V>) {
    forall i :: 0 <= i < |a| ==> a[i] in b
  }

  lemma {:induction false} InsertIs<V>(x: Field<V>, xs: seq<Field<V>>)
    requires Ascending(xs) && forall i :: 0 <= i < |xs| ==> xs[i].key != x.key
    ensures Ascending(Insert(x, xs)) && Within(Insert(x, xs), [x] + xs) && Within([x] + xs, Insert(x, xs))
    decreases |xs|
  {
    if xs != [] {
      if Less(x.key, xs[0].key) {
        forall j | 0 <= j < |xs|
          ensures Less(x.key, xs[j].key)
        {
          if j > 0 { LessTrans(x.key, xs[0].key, xs[j].key); }
        }
      } else {
        LessTotal(x.key, xs[0].key);
        InsertIs(x, xs[1..]);
        var rest := Insert(x, xs[1..]);
        forall j | 0 <= j < |rest|
          ensures Less(xs[0].key, rest[j].key) && rest[j] in [x] + xs
        {
          assert rest[j] in [x] + xs[1..];
          var k :| 0 <= k < |[x] + xs[1..]| && ([x] + xs[1..])[k] == rest[j];
          assert k > 0 ==> rest[j] == xs[k];
        }
        forall k | 0 <= k < |[x] + xs|
          ensures ([x] + xs)[k] in [xs[0]] + rest
        {
          assert k == 0 ==> ([x] + xs[1..])[0] in rest;
          assert k > 1 ==> ([x] + xs[1..])[k - 1] in rest;
        }
      }
    }
  }

  lemma {:induction false} SortIs<V>(xs: seq<Field<V>>)
    requires DistinctKeys(xs)
    ensures Ascending(Sort(xs)) && Within(Sort(xs), xs) && Within(xs, Sort(xs))
    decreases |xs|
  {
    if xs != [] {
      SortIs(xs[1..]);
      var rest := Sort(xs[1..]);
      forall i | 0 <= i < |rest|
        ensures rest[i].key != xs[0].key && rest[i] in xs
      {
        assert rest[i] in xs[1..];
        var k :| 0 <= k < |xs[1..]| && xs[1..][k] == rest[i];
        assert xs[k + 1] == rest[i];
      }
      InsertIs(xs[0], rest);
      SortWithin(xs, rest);
    }
  }

  lemma SortWithin<V>(xs: seq<Field<V>>, rest: seq<Field<V>>)
    requires xs != [] && Within(rest, xs) && Within(xs[1..], rest)
    requires var r := Insert(xs[0], rest); Within(r, [xs[0]] + rest) && Within([xs[0]] + rest, r)
    ensures var r := Insert(xs[0], rest); Within(r, xs) && Within(xs, r)
  {
    var r := Insert(xs[0], rest);
    forall i | 0 <= i < |r|
      ensures r[i] in xs
    {
      var k :| 0 <= k < |[xs[0]] + rest| && ([xs[0]] + rest)[k] == r[i];
      assert k > 0 ==> r[i] == rest[k - 1];
    }
    forall i | 0 <= i < |xs|
      ensures xs[i] in r
    {
      if i == 0 {
        assert ([xs[0]] + rest)[0] in r;
      } else {
        assert xs[1..][i - 1] in rest;
        var k :| 0 <= k < |rest| && rest[k] == xs[i];
        assert ([xs[0]] + rest)[k + 1] in r;
      }
    }
  }

  /** An ascending list is determined by its elements. */
  lemma {:induction false} AscendingUnique<V>(a: seq<Field<V>>, b: seq<Field<V>>)
    requires Ascending(a) && Ascending(b) && Within(a, b) && Within(b, a)
    ensures a == b
    decreases |a|
  {
    if a != [] {
      assert a[0] in b && b != [];
      FirstIsFirst(a, b);
      TailWithin(a, b);
      TailWithin(b, a);
      AscendingUnique(a[1..], b[1..]);
      assert a == [a[0]] + a[1..] && b == [b[0]] + b[1..];
    }
  }

  lemma TailWithin<V>(a: seq<Field<V>>, b: seq<Field<V>>)
    requires Ascending(a) && a != [] && b != [] && a[0] == b[0] && Within(a, b)
    ensures Within(a[1..], b[1..])
  {
    forall i | 0 <= i < |a[1..]|
      ensures a[1..][i] in b[1..]
    {
      assert a[i + 1] in b && Less(a[0].key, a[i + 1].key);
      LessIrreflexive(a[0].key);
      var k :| 0 <= k < |b| && b[k] == a[i + 1];
      assert b[1..][k - 1] == a[i + 1];
    }
  }

  lemma FirstIsFirst<V>(a: seq<Field<V>>, b: seq<Field<V>>)
    requires Ascending(a) && Ascending(b) && a != [] && b != [] && Within(a, b) && Within(b, a)
    ensures a[0] == b[0]
  {
    assert a[0] in b && b[0] in a;
    var j :| 0 <= j < |b| && b[j] == a[0];
    var i :| 0 <= i < |a| && a[i] == b[0];
    LessIrreflexive(a[0].key);
    assert i > 0 && j > 0 ==> Less(b[0].key, a[0].key) && Less(a[0].key, b[0].key);
    if Less(b[0].key, a[0].key) && Less(a[0].key, b[0].key) {
      LessTrans(a[0].key, b[0].key, a[0].key);
    }
  }
}
