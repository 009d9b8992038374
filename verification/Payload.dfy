/** Tool payloads, their merge and the length of their list field. */
module Payload {
  import opened Text

  /** A JSON value as far as merging looks at it. */
  datatype Value =
    | Array(items: seq<Value>)
    | Object(fields: map<string, Value>)
    | Text(text: string)
    | Flag(on: bool)
    | Whole(number: int)           // a number denoting an integer
    | Scalar(code: int)            // null, or any other number

  type Payload = map<string, Value>

  /** The fields of a nested object, none if there is none. */
  function FieldsAt(target: Payload, key: string): Payload {
    if key in target && target[key].Object? then target[key].fields else map[]
  }

  // ------------------------------------------------------------------- merging

  function MergeValue(a: Value, b: Value): Value {
    if a.Array? && b.Array? then Array(a.items + b.items)
    else if a.Object? && b.Object? then Object(a.fields + b.fields)
    else b
  }

  /** What two payloads merge to, field by field. */
  function Merge(a: Payload, b: Payload): (m: Payload)
    ensures m.Keys == a.Keys + b.Keys
  {
    map k | k in a.Keys + b.Keys ::
      if k !in b then a[k] else if k !in a then b[k] else MergeValue(a[k], b[k])
  }

  /** `mergePayloads`: copies the base, then the other's fields in whatever order the
      map is ranged over. */
  method MergePayloads(base: Payload, next: Payload) returns (result: Payload)
    ensures result == Merge(base, next)
  {
    result := base;
    var todo := next.Keys;
    while todo != {}
      invariant todo <= next.Keys
      invariant result.Keys == base.Keys + (next.Keys - todo)
      invariant forall k :: k in result ==>
        result[k] == (if k !in next || k in todo then base[k] else Merge(base, next)[k])
    {
      var k :| k in todo;
      todo := todo - {k};
      var v := next[k];
      if k !in result {
        result := result[k := v];
        continue;
      }
      var existing := result[k];
      if existing.Array? && v.Array? {
        result := result[k := Array(existing.items + v.items)];
        continue;
      }
      if existing.Object? && v.Object? {
        result := result[k := Object(existing.fields + v.fields)];
        continue;
      }
      result := result[k := v];
    }
  }

  datatype Kind = ArrayKind | ObjectKind | OtherKind

  function KindOf(v: Value): Kind {
    if v.Array? then ArrayKind else if v.Object? then ObjectKind else OtherKind
  }

  /** Every field of the payload has the kind the shape gives it. */
  ghost predicate Fits(shape: string -> Kind, p: Payload) {
    forall k :: k in p ==> KindOf(p[k]) == shape(k)
  }

  lemma MergeValueAssociative(a: Value, b: Value, c: Value)
    requires KindOf(a) == KindOf(b) == KindOf(c)
    ensures MergeValue(MergeValue(a, b), c) == MergeValue(a, MergeValue(b, c))
    ensures KindOf(MergeValue(a, b)) == KindOf(a)
  {
    if a.Array? {
      assert (a.items + b.items) + c.items == a.items + (b.items + c.items);
    } else if a.Object? {
      assert (a.fields + b.fields) + c.fields == a.fields + (b.fields + c.fields);
    }
  }

  /** Merging payloads of one shape is associative, and keeps the shape. */
  lemma MergeAssociative(shape: string -> Kind, a: Payload, b: Payload, c: Payload)
    requires Fits(shape, a) && Fits(shape, b) && Fits(shape, c)
    ensures Merge(Merge(a, b), c) == Merge(a, Merge(b, c))
    ensures Fits(shape, Merge(a, b))
  {
    var l, r := Merge(Merge(a, b), c), Merge(a, Merge(b, c));
    hide MergeValue;
    forall k | k in Merge(a, b) ensures KindOf(Merge(a, b)[k]) == shape(k) {
      if k in a && k in b { MergeValueAssociative(a[k], b[k], b[k]); }
    }
    forall k | k in l ensures l[k] == r[k] {
      if k in a && k in b && k in c { MergeValueAssociative(a[k], b[k], c[k]); }
    }
    assert l.Keys == r.Keys;
  }

  /** One field changing its type is enough to lose that. */
  lemma MergeNotAssociative() returns (a: Payload, b: Payload, c: Payload)
    ensures Merge(Merge(a, b), c) != Merge(a, Merge(b, c))
  {
    a, b, c := map["list" := Array([Scalar(1)])], map["list" := Scalar(0)], map["list" := Array([Scalar(2)])];
    assert Merge(Merge(a, b), c)["list"] == Array([Scalar(2)]);
    assert Merge(a, Merge(b, c))["list"] == Array([Scalar(1), Scalar(2)]) by {
      assert Merge(b, c)["list"] == Array([Scalar(2)]);
      assert [Scalar(1)] + [Scalar(2)] == [Scalar(1), Scalar(2)];
    }
    assert Array([Scalar(2)]) != Array([Scalar(1), Scalar(2)]) by { assert |[Scalar(2)]| != |[Scalar(1), Scalar(2)]|; }
  }

  /** The payloads merged from left to right. */
  function MergeAll(pages: seq<Payload>): Payload
    requires pages != []
  {
    if |pages| == 1 then pages[0] else Merge(MergeAll(pages[..|pages| - 1]), pages[|pages| - 1])
  }

  ghost predicate AllFit(shape: string -> Kind, pages: seq<Payload>) {
    forall i :: 0 <= i < |pages| ==> Fits(shape, pages[i])
  }

  lemma {:induction false} MergeAllFits(shape: string -> Kind, pages: seq<Payload>)
    requires pages != [] && AllFit(shape, pages)
    ensures Fits(shape, MergeAll(pages))
  {
    if |pages| > 1 {
      var n := |pages| - 1;
      MergeAllFits(shape, pages[..n]);
      MergeAssociative(shape, MergeAll(pages[..n]), pages[n], pages[n]);
    }
  }

  /** Merging in two blocks is merging in one go. */
  lemma {:induction false} MergeAllConcat(shape: string -> Kind, a: seq<Payload>, b: seq<Payload>)
    requires a != [] && b != [] && AllFit(shape, a) && AllFit(shape, b)
    ensures MergeAll(a + b) == Merge(MergeAll(a), MergeAll(b))
  {
    hide Fits, Merge;
    var n := |b| - 1;
    assert (a + b)[..|a| + n] == a + b[..n];
    if n == 0 {
      assert a + b[..n] == a;
    } else {
      MergeAllConcat(shape, a, b[..n]);
      MergeAllFits(shape, a);
      MergeAllFits(shape, b[..n]);
      MergeAssociative(shape, MergeAll(a), MergeAll(b[..n]), b[n]);
    }
  }

  lemma MergeWithout(a: Payload, b: Payload, key: string)
    ensures Merge(a, b) - {key} == Merge(a - {key}, b - {key})
  {}

  // ---------------------------------------------------------------- list field

  const LIST_FIELD_PRIORITY: seq<string> := ["list", "items", "data"]

  predicate IsList(m: Payload, k: string) { k in m && m[k].Array? }

  /** The i-th of the priority fields is the first that holds an array. */
  predicate FirstList(m: Payload, i: nat)
    requires i < 3
  {
    IsList(m, LIST_FIELD_PRIORITY[i]) && forall j :: 0 <= j < i ==> !IsList(m, LIST_FIELD_PRIORITY[j])
  }

  /** The length of the first priority field that holds an array; without one, of any
      array; without any, 0. */
  ghost predicate IsLength(m: Payload, n: nat) {
    && (forall i :: 0 <= i < 3 && FirstList(m, i) ==> n == |m[LIST_FIELD_PRIORITY[i]].items|)
    && ((exists k :: IsList(m, k) && n == |m[k].items|) || (n == 0 && forall k :: !IsList(m, k)))
  }

  /** The length is that of `list`, without that of `items`, without that of `data`, without
      that of any array, and 0 without any. */
  lemma LengthOrder(m: Payload, n: nat)
    requires IsLength(m, n)
    ensures if IsList(m, "list") then n == |m["list"].items|
            else if IsList(m, "items") then n == |m["items"].items|
            else if IsList(m, "data") then n == |m["data"].items|
            else (exists k :: IsList(m, k) && n == |m[k].items|) || (n == 0 && forall k :: !IsList(m, k))
  {
    assert FirstList(m, 0) <==> IsList(m, "list");
    assert FirstList(m, 1) <==> IsList(m, "items") && !IsList(m, "list");
    assert FirstList(m, 2) <==> IsList(m, "data") && !IsList(m, "list") && !IsList(m, "items") by {
      hide IsList;
      assert LIST_FIELD_PRIORITY[0] == "list" && LIST_FIELD_PRIORITY[1] == "items";
    }
  }

  /** `getListLength`; without a priority field, the first array met in any order. */
  method GetListLength(m: Payload) returns (n: nat)
    ensures IsLength(m, n)
  {
    for i := 0 to |LIST_FIELD_PRIORITY|
      invariant forall j :: 0 <= j < i ==> !IsList(m, LIST_FIELD_PRIORITY[j])
    {
      if IsList(m, LIST_FIELD_PRIORITY[i]) { return |m[LIST_FIELD_PRIORITY[i]].items|; }
    }
    var todo := m.Keys;
    while todo != {}
      invariant todo <= m.Keys && forall k :: k in m.Keys - todo ==> !IsList(m, k)
    {
      var k :| k in todo;
      todo := todo - {k};
      if IsList(m, k) { return |m[k].items|; }
    }
    return 0;
  }

  /** `f` is the field the length is taken from, in every payload of the shape. */
  ghost predicate Leads(shape: string -> Kind, f: string) {
    && shape(f) == ArrayKind
    && (f == "items" || f == "data" ==> shape("list") != ArrayKind)
    && (f == "data" ==> shape("items") != ArrayKind)
    && (f !in LIST_FIELD_PRIORITY ==> forall k :: shape(k) == ArrayKind ==> k == f)
  }

  ghost predicate WellShaped(shape: string -> Kind, f: string, p: Payload) {
    Leads(shape, f) && Fits(shape, p) && f in p
  }

  function ListOf(p: Payload, f: string): seq<Value> {
    if IsList(p, f) then p[f].items else []
  }

  lemma LengthIs(shape: string -> Kind, f: string, m: Payload, n: nat)
    requires WellShaped(shape, f, m) && IsLength(m, n)
    ensures n == |ListOf(m, f)|
  {
    assert IsList(m, f);
    if f in LIST_FIELD_PRIORITY {
      var i :| 0 <= i < 3 && LIST_FIELD_PRIORITY[i] == f;
      assert FirstList(m, i);
    } else {
      var k :| IsList(m, k) && n == |m[k].items|;
      assert shape(k) == ArrayKind;
    }
  }

  /** The length of a well-shaped payload's list. */
  method ListLength(m: Payload, ghost shape: string -> Kind, ghost f: string) returns (n: nat)
    requires WellShaped(shape, f, m)
    ensures n == |ListOf(m, f)|
  {
    n := GetListLength(m);
    LengthIs(shape, f, m, n);
  }

  /** The lists of the pages, one after the other. */
  function Lists(pages: seq<Payload>, f: string): seq<Value> {
    if pages == [] then [] else Lists(pages[..|pages| - 1], f) + ListOf(pages[|pages| - 1], f)
  }

  /** An array field of the merge holds the items of all pages, in their order. */
  lemma {:induction false} ArraysConcatenate(shape: string -> Kind, key: string, pages: seq<Payload>)
    requires pages != [] && AllFit(shape, pages) && shape(key) == ArrayKind
    ensures ListOf(MergeAll(pages), key) == Lists(pages, key)
  {
    var n := |pages| - 1;
    if n == 0 {
      assert Lists(pages[..0], key) == [];
    } else {
      ArraysConcatenate(shape, key, pages[..n]);
      MergeAllFits(shape, pages[..n]);
    }
  }

  lemma ListOfMergeAll(shape: string -> Kind, f: string, pages: seq<Payload>)
    requires pages != [] && forall i :: 0 <= i < |pages| ==> WellShaped(shape, f, pages[i])
    ensures WellShaped(shape, f, MergeAll(pages)) && ListOf(MergeAll(pages), f) == Lists(pages, f)
  {
    hide Lists, ListOf, MergeAll;
    assert WellShaped(shape, f, pages[0]);
    ArraysConcatenate(shape, f, pages);
    MergeAllFits(shape, pages);
    FieldsOfMerge(pages, f);
  }

  /** The merge has the fields that some page has. */
  lemma {:induction false} FieldsOfMerge(pages: seq<Payload>, key: string)
    requires pages != []
    ensures key in MergeAll(pages) <==> exists i :: 0 <= i < |pages| && key in pages[i]
  {
    if |pages| > 1 {
      var n := |pages| - 1;
      FieldsOfMerge(pages[..n], key);
      assert forall i :: 0 <= i < n ==> pages[..n][i] == pages[i];
    }
  }

  /** Of a field that is neither array nor object the last page that has it wins. */
  lemma {:induction false} LastPageWins(pages: seq<Payload>, key: string, i: nat)
    requires i < |pages| && key in pages[i] && KindOf(pages[i][key]) == OtherKind
    requires forall j :: i < j < |pages| ==> key !in pages[j]
    ensures key in MergeAll(pages) && MergeAll(pages)[key] == pages[i][key]
  {
    var n := |pages| - 1;
    if i < n { LastPageWins(pages[..n], key, i); }
  }

  /** Page `i` is the last whose object `key` has the field `name`. */
  predicate LastNested(pages: seq<Payload>, key: string, name: string, i: nat) {
    && i < |pages| && name in FieldsAt(pages[i], key)
    && forall j :: i < j < |pages| ==> name !in FieldsAt(pages[j], key)
  }

  /** A nested object of the merge takes each of its fields from the last page that has it. */
  lemma {:induction false} LastNestedWins(shape: string -> Kind, pages: seq<Payload>, key: string, name: string)
    requires pages != [] && AllFit(shape, pages) && shape(key) == ObjectKind
    ensures var nested := FieldsAt(MergeAll(pages), key);
            && (name in nested <==> exists i: nat :: LastNested(pages, key, name, i))
            && forall i: nat :: LastNested(pages, key, name, i) ==> nested[name] == FieldsAt(pages[i], key)[name]
  {
    var n := |pages| - 1;
    if n == 0 {
      assert name in FieldsAt(pages[0], key) ==> LastNested(pages, key, name, 0);
    } else {
      LastNestedWins(shape, pages[..n], key, name);
      MergeAllFits(shape, pages[..n]);
      hide LastNested;
      LastNestedStep(pages, key, name);
    }
  }

  lemma LastNestedStep(pages: seq<Payload>, key: string, name: string)
    requires |pages| > 1
    ensures var n := |pages| - 1;
            && (LastNested(pages, key, name, n) <==> name in FieldsAt(pages[n], key))
            && forall i: nat :: i != n ==>
                 (LastNested(pages, key, name, i) <==>
                  LastNested(pages[..n], key, name, i) && name !in FieldsAt(pages[n], key))
  {}

  /** `getString`. */
  function GetString(m: Payload, key: string): string {
    if key in m && m[key].Text? then TrimSpace(m[key].text) else ""
  }
}
