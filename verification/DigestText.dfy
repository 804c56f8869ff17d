/** What the delivery digests are computed over: objects printed in a fixed field order, and event fields. */
module DigestText {
  import opened Json
  import opened JsonRoundTrip
  import opened JsonCanonical

  /** The prefix that tells the uses of one hash apart; `Plain` texts are hashed as they are. */
  datatype Domain =
    | PlainText | EventIdentity | ManifestDigest | ProjectedEvents | BatchDigest | SealIdentity

  /** SHA-256 of a domain prefix and a text. */
  type Hash = (Domain, string) -> string

  /** The hash taken as collision-free. */
  ghost predicate Injective(sha: Hash) {
    forall d: Domain, a: string, b: string :: sha(d, a) == sha(d, b) ==> a == b
  }

  // ---------------------------------------------------------------- objects in a fixed field order

  /** The same keys in the same order, with values that have a JSON text. */
  ghost predicate Aligned(a: seq<Field>, b: seq<Field>) {
    && |a| == |b|
    && forall i :: 0 <= i < |a| ==> a[i].key == b[i].key && WellFormed(a[i].value) && WellFormed(b[i].value)
  }

  lemma CancelPrefix(p: string, x: string, y: string)
    requires p + x == p + y
    ensures x == y
  {
    assert x == (p + x)[|p|..] && y == (p + y)[|p|..];
  }

  lemma FieldThenRest(f: Field, g: Field, e: Escapes, r: string, s: string)
    requires f.key == g.key && WellFormed(f.value) && WellFormed(g.value) && Delimited(r) && Delimited(s)
    requires PrintField(f, e) + r == PrintField(g, e) + s
    ensures f == g && r == s
  {
    var k := PrintString(f.key, e) + ":";
    assert PrintField(f, e) + r == k + (Print(f.value, e) + r);
    assert PrintField(g, e) + s == k + (Print(g.value, e) + s);
    CancelPrefix(k, Print(f.value, e) + r, Print(g.value, e) + s);
    ValueReads(f.value, e, r);
    ValueReads(g.value, e, s);
  }

  /** Objects printed in one fixed field order have equal texts only when every field agrees. */
  lemma {:induction false} AlignedInjective(a: seq<Field>, b: seq<Field>, e: Escapes)
    requires Aligned(a, b) && PrintFields(a, e) == PrintFields(b, e)
    ensures a == b
  {
    if |a| == 1 {
      assert PrintField(a[0], e) + "" == PrintField(b[0], e) + "";
      FieldThenRest(a[0], b[0], e, "", "");
    } else if |a| > 1 {
      var r, s := "," + PrintFields(a[1..], e), "," + PrintFields(b[1..], e);
      assert PrintFields(a, e) == PrintField(a[0], e) + r && PrintFields(b, e) == PrintField(b[0], e) + s;
      FieldThenRest(a[0], b[0], e, r, s);
      CancelPrefix(",", PrintFields(a[1..], e), PrintFields(b[1..], e));
      AlignedInjective(a[1..], b[1..], e);
      assert a == [a[0]] + a[1..] && b == [b[0]] + b[1..];
    }
  }

  function Zip(keys: seq<string>, values: seq<Json>): (r: seq<Field>)
    requires |keys| == |values|
    ensures |r| == |keys|
    ensures forall i :: 0 <= i < |keys| ==> r[i] == Field(keys[i], values[i])
  {
    seq(|keys|, i requires 0 <= i < |keys| => Field(keys[i], values[i]))
  }

  /** An object literal's text: its fields in the order they are written. */
  function ObjectText(keys: seq<string>, values: seq<Json>): string
    requires |keys| == |values|
  {
    "{" + PrintFields(Zip(keys, values), Go) + "}"
  }

  predicate Readable(values: seq<Json>) {
    forall i :: 0 <= i < |values| ==> WellFormed(values[i])
  }

  lemma ObjectTextInjective(keys: seq<string>, v: seq<Json>, w: seq<Json>)
    requires |keys| == |v| == |w| && Readable(v) && Readable(w)
    requires ObjectText(keys, v) == ObjectText(keys, w)
    ensures v == w
  {
    var a, b := Zip(keys, v), Zip(keys, w);
    var x, y := PrintFields(a, Go), PrintFields(b, Go);
    assert ("{" + x + "}")[1..|x| + 1] == x && ("{" + y + "}")[1..|y| + 1] == y;
    AlignedInjective(a, b, Go);
    forall i | 0 <= i < |v| ensures v[i] == w[i] {
      assert a[i].value == b[i].value;
    }
  }

  // ---------------------------------------------------------------- integers

  function Digit(n: nat): char
    requires n < 10
  {
    ('0' as int + n) as char
  }

  /** The decimal text of a safe integer. */
  function Decimal(n: nat): (r: string)
    ensures r != ""
  {
    if n < 10 then [Digit(n)] else Decimal(n / 10) + [Digit(n % 10)]
  }

  function DecimalValue(s: string): int {
    if s == "" then 0 else 10 * DecimalValue(s[..|s| - 1]) + (s[|s| - 1] as int - '0' as int)
  }

  lemma {:induction false} DecimalReads(n: nat)
    ensures DecimalValue(Decimal(n)) == n
    ensures forall i :: 0 <= i < |Decimal(n)| ==> IsDigit(Decimal(n)[i])
    ensures n > 0 ==> Decimal(n)[0] != '0'
  {
    if n < 10 {
      assert Decimal(n)[..0] == "";
    } else {
      DecimalReads(n / 10);
      assert Decimal(n)[..|Decimal(n)| - 1] == Decimal(n / 10);
    }
  }

  lemma {:induction false} AllDigits(s: string)
    requires forall i :: 0 <= i < |s| ==> IsDigit(s[i])
    ensures SkipDigits(s) == ""
  {
    if s != "" {
      AllDigits(s[1..]);
    }
  }

  lemma DecimalIsNumber(n: nat)
    ensures IsNumberText(Decimal(n))
  {
    DecimalReads(n);
    AllDigits(Decimal(n));
    if n == 0 {
      assert Decimal(0)[1..] == "";
    }
  }

  function Number(n: nat): (v: Json)
    ensures WellFormed(v)
  {
    DecimalIsNumber(n);
    Num(Decimal(n))
  }

  lemma NumberInjective(m: nat, n: nat)
    requires Number(m) == Number(n)
    ensures m == n
  {
    DecimalReads(m);
    DecimalReads(n);
  }

  // ---------------------------------------------------------------- event fields

  /** An object has a field with this value. Keys are distinct, so it has no other value for the key. */
  predicate Has(v: Json, key: string, value: Json) {
    v.Obj? && Field(key, value) in v.fields
  }

  lemma HasOne(v: Json, key: string, x: Json, y: Json)
    requires WellFormed(v) && Has(v, key, x) && Has(v, key, y)
    ensures x == y
  {
    var i :| 0 <= i < |v.fields| && v.fields[i] == Field(key, x);
    var j :| 0 <= j < |v.fields| && v.fields[j] == Field(key, y);
    assert i == j;
  }

  /** An object without some of its keys, as after `delete`. */
  function Without(fields: seq<Field>, keys: set<string>): (r: seq<Field>)
    ensures forall f :: f in r <==> f in fields && f.key !in keys
  {
    if fields == [] then []
    else (if fields[0].key in keys then [] else [fields[0]]) + Without(fields[1..], keys)
  }

  lemma {:induction false} WithoutWellFormed(fields: seq<Field>, keys: set<string>)
    requires WellFormed(Obj(fields))
    ensures WellFormed(Obj(Without(fields, keys)))
  {
    if fields != [] {
      var rest := Without(fields[1..], keys);
      assert WellFormed(Obj(fields[1..]));
      WithoutWellFormed(fields[1..], keys);
      forall i | 0 <= i < |rest| ensures rest[i].key != fields[0].key {
        assert rest[i] in fields[1..];
      }
    }
  }

  lemma {:induction false} SameReflexive(v: Json)
    requires WellFormed(v)
    ensures Same(v, v)
  {
    match v
    case Arr(items) =>
      forall i | 0 <= i < |items| ensures Same(items[i], items[i]) {
        SameReflexive(items[i]);
      }
    case Obj(fields) =>
      forall i, j | 0 <= i < |fields| && 0 <= j < |fields| && fields[i].key == fields[j].key
        ensures Same(fields[i].value, fields[j].value)
      {
        SameReflexive(fields[i].value);
      }
    case _ =>
  }

  /** Both objects have the same value for each of the keys. */
  ghost predicate Agree(v: Json, w: Json, keys: set<string>) {
    forall key :: key in keys ==> AgreeAt(v, w, key)
  }

  ghost predicate AgreeAt(v: Json, w: Json, key: string) {
    exists x :: Has(v, key, x) && Has(w, key, x)
  }

  lemma HasKey(v: Json, key: string, x: Json)
    requires Has(v, key, x)
    ensures key in Keys(v.fields)
  {
    var i :| 0 <= i < |v.fields| && v.fields[i] == Field(key, x);
    assert Keys(v.fields)[i] == key;
  }

  lemma KeysFollow(v: Json, w: Json, keys: set<string>, key: string)
    requires v.Obj? && w.Obj? && Same(Obj(Without(v.fields, keys)), Obj(Without(w.fields, keys)))
    requires Agree(v, w, keys) && key in Keys(v.fields)
    ensures key in Keys(w.fields)
  {
    if key in keys {
      assert AgreeAt(v, w, key);
      var x :| Has(v, key, x) && Has(w, key, x);
      HasKey(w, key, x);
    } else {
      var a, b := Without(v.fields, keys), Without(w.fields, keys);
      var i :| 0 <= i < |v.fields| && Keys(v.fields)[i] == key;
      assert v.fields[i] in a;
      var m :| 0 <= m < |a| && a[m] == v.fields[i];
      assert Keys(a)[m] == key && key in Keys(a) && key in Keys(b);
      var n :| 0 <= n < |b| && Keys(b)[n] == key;
      assert b[n] in w.fields;
      var j :| 0 <= j < |w.fields| && w.fields[j] == b[n];
      assert Keys(w.fields)[j] == key;
    }
  }

  lemma ValuesFollow(v: Json, w: Json, keys: set<string>, i: nat, j: nat)
    requires v.Obj? && w.Obj? && WellFormed(v) && WellFormed(w)
    requires Same(Obj(Without(v.fields, keys)), Obj(Without(w.fields, keys))) && Agree(v, w, keys)
    requires i < |v.fields| && j < |w.fields| && v.fields[i].key == w.fields[j].key
    ensures Same(v.fields[i].value, w.fields[j].value)
  {
    if v.fields[i].key in keys {
      assert AgreeAt(v, w, v.fields[i].key);
      var x :| Has(v, v.fields[i].key, x) && Has(w, v.fields[i].key, x);
      HasOne(v, v.fields[i].key, x, v.fields[i].value);
      HasOne(w, w.fields[j].key, x, w.fields[j].value);
      SameReflexive(x);
    } else {
      var a, b := Without(v.fields, keys), Without(w.fields, keys);
      assert v.fields[i] in a && w.fields[j] in b;
      var m :| 0 <= m < |a| && a[m] == v.fields[i];
      var n :| 0 <= n < |b| && b[n] == w.fields[j];
      assert Same(a[m].value, b[n].value);
    }
  }

  lemma AgreeBack(v: Json, w: Json, keys: set<string>)
    requires Agree(v, w, keys)
    ensures Agree(w, v, keys)
  {
    forall key | key in keys ensures AgreeAt(w, v, key) {
      assert AgreeAt(v, w, key);
    }
  }

  /** Objects that are the same without some keys, and agree on those, are the same. */
  lemma SameFromParts(v: Json, w: Json, keys: set<string>)
    requires v.Obj? && w.Obj? && WellFormed(v) && WellFormed(w)
    requires Same(Obj(Without(v.fields, keys)), Obj(Without(w.fields, keys)))
    requires Agree(v, w, keys)
    ensures Same(v, w)
  {
    forall key ensures key in Keys(v.fields) <==> key in Keys(w.fields) {
      if key in Keys(v.fields) {
        KeysFollow(v, w, keys, key);
      }
      if key in Keys(w.fields) {
        SameBack(Obj(Without(v.fields, keys)), Obj(Without(w.fields, keys)));
        AgreeBack(v, w, keys);
        KeysFollow(w, v, keys, key);
      }
    }
    forall i, j | 0 <= i < |v.fields| && 0 <= j < |w.fields| && v.fields[i].key == w.fields[j].key
      ensures Same(v.fields[i].value, w.fields[j].value)
    {
      ValuesFollow(v, w, keys, i, j);
    }
  }

  lemma {:induction false} SameBack(v: Json, w: Json)
    requires Same(v, w)
    ensures Same(w, v)
    decreases v
  {
    match v
    case Arr(items) =>
      forall i | 0 <= i < |items| ensures Same(w.items[i], items[i]) {
        SameBack(items[i], w.items[i]);
      }
    case Obj(fields) =>
      forall i, j | 0 <= i < |w.fields| && 0 <= j < |fields| && w.fields[i].key == fields[j].key
        ensures Same(w.fields[i].value, fields[j].value)
      {
        SameBack(fields[j].value, w.fields[i].value);
      }
    case _ =>
  }

  predicate IsNumbered(event: Json, n: nat) {
    Has(event, "seq", Number(n))
  }

  /** Events numbered one by one from `first` carry exactly the numbers from `first` on, each once. */
  lemma NumberedExactly(events: seq<Json>, first: nat, n: nat)
    requires AreEvents(events) && forall i :: 0 <= i < |events| ==> IsNumbered(events[i], first + i)
    ensures first <= n < first + |events| <==> exists i :: 0 <= i < |events| && IsNumbered(events[i], n)
    ensures forall i :: 0 <= i < |events| && IsNumbered(events[i], n) ==> i == n - first
  {
    if first <= n < first + |events| {
      assert IsNumbered(events[n - first], first + (n - first));
    }
    forall i | 0 <= i < |events| && IsNumbered(events[i], n) ensures i == n - first {
      assert IsNumbered(events[i], first + i);
      HasOne(events[i], "seq", Number(n), Number(first + i));
      NumberInjective(n, first + i);
    }
  }

  /** The same list of events. */
  ghost predicate SameEvents(a: seq<Json>, b: seq<Json>) {
    |a| == |b| && forall i :: 0 <= i < |a| ==> Same(a[i], b[i])
  }

  predicate AreEvents(events: seq<Json>) {
    forall i :: 0 <= i < |events| ==> events[i].Obj? && WellFormed(events[i])
  }

  lemma EventsIdentified(a: seq<Json>, b: seq<Json>, o: KeyOrder)
    requires AreEvents(a) && AreEvents(b)
    ensures Canonical(Arr(a), Go, o) == Canonical(Arr(b), Go, o) <==> SameEvents(a, b)
  {
    CanonicalIdentifies(Arr(a), Arr(b), Go, o);
  }
}
