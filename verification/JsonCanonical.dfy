/**
 Canonical JSON: keys sorted at every level. Two values have the same canonical text exactly when
 they are the same JSON value up to the insertion order of keys.
 */
module JsonCanonical {
  import opened Json
  import opened JsonRoundTrip

  /** `Utf8Bytes` is the order of Go map keys, `Utf16Units` that of an argument-less JavaScript sort. */
  datatype KeyOrder = Utf8Bytes | Utf16Units

  /**
   UTF-8 sorts like scalar values. UTF-16 puts supplementary characters, which are written with
   surrogates, below the private-use and compatibility area that starts at U+E000.
   */
  function Rank(c: char, o: KeyOrder): int {
    var n := c as int;
    if o == Utf8Bytes || n < 0xE000 then n
    else if n >= 0x10000 then n - 0x2000
    else n + 0x100000
  }

  predicate KeyLess(a: string, b: string, o: KeyOrder) {
    if b == "" then false
    else if a == "" then true
    else if a[0] == b[0] then KeyLess(a[1..], b[1..], o)
    else Rank(a[0], o) < Rank(b[0], o)
  }

  lemma RankInjective(c: char, d: char, o: KeyOrder)
    requires Rank(c, o) == Rank(d, o)
    ensures c == d
  {}

  lemma {:induction false} KeyLessTotal(a: string, b: string, o: KeyOrder)
    ensures a == b || KeyLess(a, b, o) || KeyLess(b, a, o)
    ensures !(KeyLess(a, b, o) && KeyLess(b, a, o))
    ensures KeyLess(a, b, o) ==> a != b
  {
    if a != "" && b != "" {
      if a[0] == b[0] {
        KeyLessTotal(a[1..], b[1..], o);
        assert a == [a[0]] + a[1..] && b == [b[0]] + b[1..];
      } else if Rank(a[0], o) == Rank(b[0], o) {
        RankInjective(a[0], b[0], o);
      }
    }
  }

  lemma {:induction false} KeyLessTransitive(a: string, b: string, c: string, o: KeyOrder)
    requires KeyLess(a, b, o) && KeyLess(b, c, o)
    ensures KeyLess(a, c, o)
  {
    if a != "" && a[0] == b[0] && b[0] == c[0] {
      KeyLessTransitive(a[1..], b[1..], c[1..], o);
    }
  }

  // ---------------------------------------------------------------- sorting fields by key

  ghost predicate Sorted(fields: seq<Field>, o: KeyOrder) {
    forall i, j :: 0 <= i < j < |fields| ==> KeyLess(fields[i].key, fields[j].key, o)
  }

  function Insert(f: Field, fields: seq<Field>, o: KeyOrder): (r: seq<Field>)
    ensures forall x :: x in r <==> x == f || x in fields
  {
    if fields == [] then [f]
    else if KeyLess(f.key, fields[0].key, o) then [f] + fields
    else [fields[0]] + Insert(f, fields[1..], o)
  }

  function SortFields(fields: seq<Field>, o: KeyOrder): (r: seq<Field>)
    ensures forall x :: x in r <==> x in fields
  {
    if fields == [] then [] else Insert(fields[0], SortFields(fields[1..], o), o)
  }

  lemma {:induction false} InsertSorted(f: Field, fields: seq<Field>, o: KeyOrder)
    requires Sorted(fields, o) && forall x :: x in fields ==> x.key != f.key
    ensures Sorted(Insert(f, fields, o), o)
  {
    if fields != [] {
      if KeyLess(f.key, fields[0].key, o) {
        forall j | 0 < j < |fields| ensures KeyLess(f.key, fields[j].key, o) {
          KeyLessTransitive(f.key, fields[0].key, fields[j].key, o);
        }
      } else {
        InsertSorted(f, fields[1..], o);
        KeyLessTotal(f.key, fields[0].key, o);
        var r := Insert(f, fields[1..], o);
        forall j | 0 <= j < |r| ensures KeyLess(fields[0].key, r[j].key, o) {
          assert r[j] in r;
        }
      }
    }
  }

  lemma {:induction false} SortFieldsSorts(fields: seq<Field>, o: KeyOrder)
    requires DistinctKeys(fields)
    ensures Sorted(SortFields(fields, o), o)
  {
    if fields != [] {
      SortFieldsSorts(fields[1..], o);
      InsertSorted(fields[0], SortFields(fields[1..], o), o);
    }
  }

  lemma SortedDistinct(fields: seq<Field>, o: KeyOrder)
    requires Sorted(fields, o)
    ensures DistinctKeys(fields)
  {
    forall i, j | 0 <= i < j < |fields| ensures fields[i].key != fields[j].key {
      KeyLessTotal(fields[i].key, fields[j].key, o);
    }
  }

  /** A strictly sorted list is determined by its members. */
  lemma {:induction false} SortedUnique(a: seq<Field>, b: seq<Field>, o: KeyOrder)
    requires Sorted(a, o) && Sorted(b, o)
    requires forall x :: x in a <==> x in b
    ensures a == b
  {
    if a == [] || b == [] {
      Emptiness(a);
      Emptiness(b);
    } else {
      SameHead(a, b, o);
      SortedDistinct(a, o);
      SortedDistinct(b, o);
      forall x ensures x in a[1..] <==> x in b[1..] {
        InTail(a, x);
        InTail(b, x);
      }
      SortedUnique(a[1..], b[1..], o);
      assert a == [a[0]] + a[1..] && b == [b[0]] + b[1..];
    }
  }

  lemma Emptiness(a: seq<Field>)
    ensures a == [] <==> forall x :: x !in a
  {
    if a != [] {
      assert a[0] in a;
    }
  }

  lemma InTail(a: seq<Field>, x: Field)
    requires a != [] && DistinctKeys(a)
    ensures x in a[1..] <==> x in a && x != a[0]
  {
    if x in a && x != a[0] {
      var i :| 0 <= i < |a| && a[i] == x;
      assert a[1..][i - 1] == x;
    }
  }

  lemma SameHead(a: seq<Field>, b: seq<Field>, o: KeyOrder)
    requires Sorted(a, o) && Sorted(b, o) && a != [] && b != []
    requires a[0] in b && b[0] in a
    ensures a[0] == b[0]
  {
    var i :| 0 <= i < |a| && a[i] == b[0];
    var j :| 0 <= j < |b| && b[j] == a[0];
    if i > 0 && j > 0 {
      KeyLessTotal(a[0].key, b[0].key, o);
      assert false;
    }
  }

  // ---------------------------------------------------------------- canonical form

  function Normalize(v: Json, o: KeyOrder): Json
    decreases v, 1
  {
    match v
    case Arr(items) => Arr(NormalizeItems(items, o))
    case Obj(fields) => Obj(SortFields(NormalizeFields(fields, o), o))
    case _ => v
  }

  function NormalizeItems(items: seq<Json>, o: KeyOrder): (r: seq<Json>)
    ensures |r| == |items|
    ensures forall i :: 0 <= i < |items| ==> r[i] == Normalize(items[i], o)
    decreases items, 0
  {
    if items == [] then [] else [Normalize(items[0], o)] + NormalizeItems(items[1..], o)
  }

  function NormalizeFields(fields: seq<Field>, o: KeyOrder): (r: seq<Field>)
    ensures |r| == |fields|
    ensures forall i :: 0 <= i < |fields| ==> r[i] == Field(fields[i].key, Normalize(fields[i].value, o))
    decreases fields, 0
  {
    if fields == [] then []
    else [Field(fields[0].key, Normalize(fields[0].value, o))] + NormalizeFields(fields[1..], o)
  }

  /** Keys sorted at every level, then printed: `goCanonicalJSON` and `stableJson`. */
  function Canonical(v: Json, e: Escapes, o: KeyOrder): string {
    Print(Normalize(v, o), e)
  }

  /** Equality of JSON values: the insertion order of keys does not matter. */
  ghost predicate Same(v: Json, w: Json)
    decreases v
  {
    match v
    case Arr(a) =>
      w.Arr? && |a| == |w.items| && forall i :: 0 <= i < |a| ==> Same(a[i], w.items[i])
    case Obj(a) =>
      && w.Obj?
      && (forall key :: key in Keys(a) <==> key in Keys(w.fields))
      && (forall i, j :: 0 <= i < |a| && 0 <= j < |w.fields| && a[i].key == w.fields[j].key
            ==> Same(a[i].value, w.fields[j].value))
    case _ => v == w
  }

  lemma {:induction false} NormalizeWellFormed(v: Json, o: KeyOrder)
    requires WellFormed(v)
    ensures WellFormed(Normalize(v, o))
  {
    match v
    case Arr(items) =>
      forall i | 0 <= i < |items| ensures WellFormed(Normalize(items[i], o)) {
        NormalizeWellFormed(items[i], o);
      }
    case Obj(fields) =>
      var fs := NormalizeFields(fields, o);
      var r := SortFields(fs, o);
      SortFieldsSorts(fs, o);
      SortedDistinct(r, o);
      forall i | 0 <= i < |r| ensures WellFormed(r[i].value) {
        assert r[i] in fs;
        var k :| 0 <= k < |fs| && fs[k] == r[i];
        NormalizeWellFormed(fields[k].value, o);
      }
    case _ =>
  }

  lemma {:induction false} SameNormalizes(v: Json, w: Json, o: KeyOrder)
    requires WellFormed(v) && WellFormed(w) && Same(v, w)
    ensures Normalize(v, o) == Normalize(w, o)
    decreases v
  {
    match v
    case Arr(items) =>
      forall i | 0 <= i < |items| ensures Normalize(items[i], o) == Normalize(w.items[i], o) {
        SameNormalizes(items[i], w.items[i], o);
      }
    case Obj(a) =>
      var b := w.fields;
      var na, nb := NormalizeFields(a, o), NormalizeFields(b, o);
      forall i, j | 0 <= i < |a| && 0 <= j < |b| && a[i].key == b[j].key ensures na[i] == nb[j] {
        SameNormalizes(a[i].value, b[j].value, o);
      }
      SameMembers(a, b, na, nb);
      SameMembers(b, a, nb, na);
      SortFieldsSorts(na, o);
      SortFieldsSorts(nb, o);
      SortedUnique(SortFields(na, o), SortFields(nb, o), o);
    case _ =>
  }

  lemma SameMembers(a: seq<Field>, b: seq<Field>, na: seq<Field>, nb: seq<Field>)
    requires |a| == |na| && |b| == |nb|
    requires forall key :: key in Keys(a) ==> key in Keys(b)
    requires forall i, j :: 0 <= i < |a| && 0 <= j < |b| && a[i].key == b[j].key ==> na[i] == nb[j]
    ensures forall x :: x in na ==> x in nb
  {
    forall x | x in na ensures x in nb {
      var i :| 0 <= i < |na| && na[i] == x;
      assert Keys(a)[i] in Keys(b);
      var j :| 0 <= j < |b| && Keys(b)[j] == a[i].key;
      assert nb[j] == x;
    }
  }

  lemma {:induction false} NormalizesSame(v: Json, w: Json, o: KeyOrder)
    requires WellFormed(v) && WellFormed(w) && Normalize(v, o) == Normalize(w, o)
    ensures Same(v, w)
    decreases v
  {
    match v
    case Arr(items) =>
      forall i | 0 <= i < |items| ensures Same(items[i], w.items[i]) {
        assert NormalizeItems(items, o)[i] == NormalizeItems(w.items, o)[i];
        NormalizesSame(items[i], w.items[i], o);
      }
    case Obj(a) =>
      var b := w.fields;
      var na, nb := NormalizeFields(a, o), NormalizeFields(b, o);
      assert forall x :: x in na <==> x in SortFields(nb, o);
      KeysFollow(a, b, na, nb, o);
      KeysFollow(b, a, nb, na, o);
      forall i, j | 0 <= i < |a| && 0 <= j < |b| && a[i].key == b[j].key
        ensures Same(a[i].value, b[j].value)
      {
        assert na[i] in nb;
        var k :| 0 <= k < |nb| && nb[k] == na[i];
        assert b[k].key == b[j].key;
        assert k == j;
        NormalizesSame(a[i].value, b[j].value, o);
      }
    case _ =>
  }

  lemma KeysFollow(a: seq<Field>, b: seq<Field>, na: seq<Field>, nb: seq<Field>, o: KeyOrder)
    requires na == NormalizeFields(a, o) && nb == NormalizeFields(b, o)
    requires forall x :: x in na ==> x in nb
    ensures forall key :: key in Keys(a) ==> key in Keys(b)
  {
    forall key | key in Keys(a) ensures key in Keys(b) {
      var i :| 0 <= i < |a| && Keys(a)[i] == key;
      assert na[i] in nb;
      var j :| 0 <= j < |nb| && nb[j] == na[i];
      assert Keys(b)[j] == key;
    }
  }

  /** Parsing a canonical text gives back the value with its keys sorted. */
  lemma ParseCanonical(v: Json, e: Escapes, o: KeyOrder)
    requires WellFormed(v)
    ensures Parse(Canonical(v, e, o)) == Some(Normalize(v, o))
    ensures Parse(Canonical(v, e, o) + "\n") == Some(Normalize(v, o))
    ensures Same(v, Normalize(v, o))
  {
    NormalizeWellFormed(v, o);
    ParsePrint(Normalize(v, o), e);
    NormalizeTwice(v, o);
    NormalizesSame(v, Normalize(v, o), o);
  }

  lemma {:induction false} NormalizeTwice(v: Json, o: KeyOrder)
    requires WellFormed(v)
    ensures Normalize(Normalize(v, o), o) == Normalize(v, o)
    decreases v
  {
    match v
    case Arr(items) =>
      forall i | 0 <= i < |items| ensures Normalize(Normalize(items[i], o), o) == Normalize(items[i], o) {
        NormalizeTwice(items[i], o);
      }
      assert NormalizeItems(NormalizeItems(items, o), o) == NormalizeItems(items, o);
    case Obj(fields) =>
      var fs := NormalizeFields(fields, o);
      var r := SortFields(fs, o);
      forall i | 0 <= i < |r| ensures Normalize(r[i].value, o) == r[i].value {
        assert r[i] in fs;
        var k :| 0 <= k < |fs| && fs[k] == r[i];
        NormalizeTwice(fields[k].value, o);
      }
      assert NormalizeFields(r, o) == r;
      SortFieldsSorts(fs, o);
      SortedDistinct(r, o);
      SortFieldsSorts(r, o);
      SortedUnique(SortFields(r, o), r, o);
    case _ =>
  }

  /** The canonical text identifies a value: equal texts mean equal values, and conversely. */
  lemma CanonicalIdentifies(v: Json, w: Json, e: Escapes, o: KeyOrder)
    requires WellFormed(v) && WellFormed(w)
    ensures Canonical(v, e, o) == Canonical(w, e, o) <==> Same(v, w)
  {
    if Same(v, w) {
      SameNormalizes(v, w, o);
    }
    if Canonical(v, e, o) == Canonical(w, e, o) {
      ParseCanonical(v, e, o);
      ParseCanonical(w, e, o);
      NormalizesSame(v, w, o);
    }
  }

  // ---------------------------------------------------------------- characters that never appear raw

  predicate SafeChar(c: char) {
    (c as int) >= 0x20 && !GoEscaped(c)
  }

  lemma EscapeCharSafe(c: char)
    ensures forall x :: x in EscapeChar(c, Go) ==> SafeChar(x)
  {}

  lemma {:induction false} PrintStringSafe(s: string)
    ensures forall x :: x in EscapeChars(s, Go) ==> SafeChar(x)
    ensures forall x :: x in PrintString(s, Go) ==> SafeChar(x)
  {
    if s != "" {
      EscapeCharSafe(s[0]);
      PrintStringSafe(s[1..]);
    }
  }

  /** Go-style text holds no control character, angle bracket, ampersand, U+2028 or U+2029. */
  lemma {:induction false} PrintSafe(v: Json)
    requires WellFormed(v)
    ensures forall x :: x in Print(v, Go) ==> SafeChar(x)
    decreases v, 1
  {
    match v
    case Num(lexeme) => assert forall x :: x in lexeme ==> IsNumberChar(x);
    case Str(s) => PrintStringSafe(s);
    case Arr(items) => PrintItemsSafe(items);
    case Obj(fields) => PrintFieldsSafe(fields);
    case _ =>
  }

  lemma {:induction false} PrintItemsSafe(items: seq<Json>)
    requires forall i :: 0 <= i < |items| ==> WellFormed(items[i])
    ensures forall x :: x in PrintItems(items, Go) ==> SafeChar(x)
    decreases items, 0
  {
    if items != [] {
      PrintSafe(items[0]);
      PrintItemsSafe(items[1..]);
    }
  }

  lemma {:induction false} PrintFieldsSafe(fields: seq<Field>)
    requires forall i :: 0 <= i < |fields| ==> WellFormed(fields[i].value)
    ensures forall x :: x in PrintFields(fields, Go) ==> SafeChar(x)
    decreases fields, 0
  {
    if fields != [] {
      PrintStringSafe(fields[0].key);
      PrintSafe(fields[0].value);
      assert forall x :: x in PrintField(fields[0], Go) ==> SafeChar(x);
      PrintFieldsSafe(fields[1..]);
    }
  }

  lemma CanonicalSafe(v: Json, o: KeyOrder)
    requires WellFormed(v)
    ensures forall x :: x in Canonical(v, Go, o) ==> SafeChar(x)
  {
    NormalizeWellFormed(v, o);
    PrintSafe(Normalize(v, o));
  }
}
