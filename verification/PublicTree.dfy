/**
 The size limits on a public delivery batch. One traversal counts nodes and text bytes as it goes
 and stops at the first excess; it accepts exactly the trees whose total measures fit.
 */
module PublicTree {
  import opened Json

  const MAX_TEXT_BYTES: nat := 0x10_0000
  const MAX_AGGREGATE_TEXT_BYTES: nat := 0x80_0000
  const MAX_DEPTH: nat := 64
  const MAX_NODES: nat := 10_000

  /** The length of a string in UTF-8. */
  function Utf8Length(s: string): nat {
    if s == "" then 0
    else (var n := s[0] as int; if n < 0x80 then 1 else if n < 0x800 then 2 else if n < 0x1_0000 then 3 else 4)
         + Utf8Length(s[1..])
  }

  function Nodes(v: Json): (n: nat)
    ensures n >= 1
    decreases v, 1
  {
    match v
    case Arr(items) => 1 + ItemNodes(items)
    case Obj(fields) => 1 + FieldNodes(fields)
    case _ => 1
  }

  function ItemNodes(items: seq<Json>): (n: nat)
    ensures n >= |items|
    decreases items, 0
  {
    if items == [] then 0 else Nodes(items[0]) + ItemNodes(items[1..])
  }

  function FieldNodes(fields: seq<Field>): (n: nat)
    ensures n >= |fields|
    decreases fields, 0
  {
    if fields == [] then 0 else Nodes(fields[0].value) + FieldNodes(fields[1..])
  }

  function Bytes(v: Json): nat
    decreases v, 1
  {
    match v
    case Str(s) => Utf8Length(s)
    case Arr(items) => ItemBytes(items)
    case Obj(fields) => FieldBytes(fields)
    case _ => 0
  }

  function ItemBytes(items: seq<Json>): nat
    decreases items, 0
  {
    if items == [] then 0 else Bytes(items[0]) + ItemBytes(items[1..])
  }

  function FieldBytes(fields: seq<Field>): nat
    decreases fields, 0
  {
    if fields == [] then 0 else Utf8Length(fields[0].key) + Bytes(fields[0].value) + FieldBytes(fields[1..])
  }

  /** Nothing lies deeper than the limit, and no single string or key is too long. */
  predicate Shallow(v: Json, depth: nat)
    decreases v
  {
    && depth <= MAX_DEPTH
    && match v
       case Str(s) => Utf8Length(s) <= MAX_TEXT_BYTES
       case Arr(items) => forall i :: 0 <= i < |items| ==> Shallow(items[i], depth + 1)
       case Obj(fields) => forall i :: 0 <= i < |fields| ==>
                             Utf8Length(fields[i].key) <= MAX_TEXT_BYTES && Shallow(fields[i].value, depth + 1)
       case _ => true
  }

  /** The limits, stated on the whole tree. */
  predicate Fits(v: Json) {
    Shallow(v, 0) && Nodes(v) <= MAX_NODES && Bytes(v) <= MAX_AGGREGATE_TEXT_BYTES
  }

  /** The counters of one traversal. */
  class Traversal {
    var nodes: nat
    var textBytes: nat

    constructor ()
      ensures nodes == 0 && textBytes == 0
    {
      nodes, textBytes := 0, 0;
    }

    method ConsumeText(text: string) returns (ok: bool)
      requires textBytes <= MAX_AGGREGATE_TEXT_BYTES
      modifies this`textBytes
      ensures ok <==> Utf8Length(text) <= MAX_TEXT_BYTES
                      && old(textBytes) + Utf8Length(text) <= MAX_AGGREGATE_TEXT_BYTES
      ensures textBytes == if ok then old(textBytes) + Utf8Length(text) else old(textBytes)
    {
      var bytes := Utf8Length(text);
      if bytes > MAX_TEXT_BYTES || textBytes > MAX_AGGREGATE_TEXT_BYTES - bytes {
        return false;
      }
      textBytes := textBytes + bytes;
      return true;
    }

    /** Visits a value: it is accepted exactly when what it adds still fits, and then it is counted. */
    method Visit(v: Json, depth: nat) returns (ok: bool)
      requires nodes <= MAX_NODES && textBytes <= MAX_AGGREGATE_TEXT_BYTES
      modifies this
      ensures ok <==> Shallow(v, depth) && old(nodes) + Nodes(v) <= MAX_NODES
                      && old(textBytes) + Bytes(v) <= MAX_AGGREGATE_TEXT_BYTES
      ensures ok ==> nodes == old(nodes) + Nodes(v) && textBytes == old(textBytes) + Bytes(v)
      decreases v, 1
    {
      if depth > MAX_DEPTH || nodes >= MAX_NODES {
        return false;
      }
      nodes := nodes + 1;
      match v
      case Str(s) => ok := ConsumeText(s);
      case Arr(items) =>
        if |items| > MAX_NODES {
          return false;
        }
        ok := VisitItems(items, depth + 1);
      case Obj(fields) =>
        if |fields| > MAX_NODES {
          return false;
        }
        ok := VisitFields(fields, depth + 1);
      case _ => ok := true;
    }

    method VisitItems(items: seq<Json>, depth: nat) returns (ok: bool)
      requires nodes <= MAX_NODES && textBytes <= MAX_AGGREGATE_TEXT_BYTES
      modifies this
      ensures ok <==> (forall i :: 0 <= i < |items| ==> Shallow(items[i], depth))
                      && old(nodes) + ItemNodes(items) <= MAX_NODES
                      && old(textBytes) + ItemBytes(items) <= MAX_AGGREGATE_TEXT_BYTES
      ensures ok ==> nodes == old(nodes) + ItemNodes(items) && textBytes == old(textBytes) + ItemBytes(items)
      decreases items, 0
    {
      var i := 0;
      assert items[0..] == items;
      while i < |items|
        invariant i <= |items| && nodes <= MAX_NODES && textBytes <= MAX_AGGREGATE_TEXT_BYTES
        invariant forall k :: 0 <= k < i ==> Shallow(items[k], depth)
        invariant nodes + ItemNodes(items[i..]) == old(nodes) + ItemNodes(items)
        invariant textBytes + ItemBytes(items[i..]) == old(textBytes) + ItemBytes(items)
      {
        assert items[i..][1..] == items[i + 1..];
        var more := Visit(items[i], depth);
        if !more {
          return false;
        }
        i := i + 1;
      }
      return true;
    }

    method VisitFields(fields: seq<Field>, depth: nat) returns (ok: bool)
      requires nodes <= MAX_NODES && textBytes <= MAX_AGGREGATE_TEXT_BYTES
      modifies this
      ensures ok <==> (forall i :: 0 <= i < |fields| ==>
                         Utf8Length(fields[i].key) <= MAX_TEXT_BYTES && Shallow(fields[i].value, depth))
                      && old(nodes) + FieldNodes(fields) <= MAX_NODES
                      && old(textBytes) + FieldBytes(fields) <= MAX_AGGREGATE_TEXT_BYTES
      ensures ok ==> nodes == old(nodes) + FieldNodes(fields) && textBytes == old(textBytes) + FieldBytes(fields)
      decreases fields, 0
    {
      var i := 0;
      assert fields[0..] == fields;
      while i < |fields|
        invariant i <= |fields| && nodes <= MAX_NODES && textBytes <= MAX_AGGREGATE_TEXT_BYTES
        invariant forall k :: 0 <= k < i ==>
                    Utf8Length(fields[k].key) <= MAX_TEXT_BYTES && Shallow(fields[k].value, depth)
        invariant nodes + FieldNodes(fields[i..]) == old(nodes) + FieldNodes(fields)
        invariant textBytes + FieldBytes(fields[i..]) == old(textBytes) + FieldBytes(fields)
      {
        assert fields[i..][1..] == fields[i + 1..];
        var more := ConsumeText(fields[i].key);
        if more {
          more := Visit(fields[i].value, depth);
        }
        if !more {
          return false;
        }
        i := i + 1;
      }
      return true;
    }
  }

  method HasBoundedTree(v: Json) returns (ok: bool)
    ensures ok <==> Fits(v)
  {
    var traversal := new Traversal();
    ok := traversal.Visit(v, 0);
  }
}
