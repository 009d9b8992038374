/** Nested Go maps as cells of a memory that code walks and writes in place.

    Each cell is marked with the address it was made for, so that a write at one address
    leaves alone whatever hangs below another. */
module JsonMemory {
  import opened Payload

  /** A value as Go holds it: a map by reference, lists and atoms by value. */
  datatype Ref = Atom(leaf: Value) | Map(at: nat) | List(items: seq<Ref>)

  type Cell = map<string, Ref>
  type Heap = seq<Cell>

  predicate RefOk(n: nat, r: Ref) {
    match r
    case Atom(_) => true
    case Map(at) => at < n
    case List(items) => forall i :: 0 <= i < |items| ==> RefOk(n, items[i])
  }

  predicate CellOk(n: nat, c: Cell) { forall k :: k in c ==> RefOk(n, c[k]) }

  /** No reference dangles. */
  predicate Valid(h: Heap) { forall x :: 0 <= x < |h| ==> CellOk(|h|, h[x]) }

  lemma CellIsOk(h: Heap, x: nat)
    requires Valid(h) && x < |h|
    ensures CellOk(|h|, h[x])
  {}

  predicate IsLeaf(v: Value) { !v.Object? && !v.Array? }

  type Leaf = v: Value | IsLeaf(v) witness Scalar(0)

  /** The reference stands for the value, over cells before the `n`-th. */
  ghost predicate Denotes(h: Heap, n: nat, r: Ref, v: Value)
    requires n <= |h|
    decreases v
  {
    match v
    case Object(fields) =>
      && r.Map? && r.at < n && h[r.at].Keys == fields.Keys
      && forall k :: k in fields ==> Denotes(h, n, h[r.at][k], fields[k])
    case Array(items) =>
      && r.List? && |r.items| == |items|
      && forall i :: 0 <= i < |items| ==> Denotes(h, n, r.items[i], items[i])
    case _ => r == Atom(v)
  }

  lemma {:induction false} DenotesFrame(h: Heap, n: nat, h': Heap, n': nat, r: Ref, v: Value)
    requires n <= |h| && n <= n' <= |h'| && h[..n] == h'[..n] && Denotes(h, n, r, v)
    ensures Denotes(h', n', r, v)
    decreases v
  {
    match v
    case Object(fields) =>
      assert h[r.at] == h[..n][r.at] == h'[..n][r.at];
      forall k | k in fields ensures Denotes(h', n', h[r.at][k], fields[k]) {
        DenotesFrame(h, n, h', n', h[r.at][k], fields[k]);
      }
    case Array(items) =>
      forall i | 0 <= i < |items| ensures Denotes(h', n', r.items[i], items[i]) {
        DenotesFrame(h, n, h', n', r.items[i], items[i]);
      }
    case _ =>
  }

  lemma {:induction false} DenotesOk(h: Heap, n: nat, r: Ref, v: Value)
    requires n <= |h| && Denotes(h, n, r, v)
    ensures RefOk(n, r)
    decreases v
  {
    if v.Array? {
      forall i | 0 <= i < |r.items| ensures RefOk(n, r.items[i]) { DenotesOk(h, n, r.items[i], v.items[i]); }
    }
  }

  /** What a later memory makes of an old reference, the earlier one made of it. */
  lemma {:induction false} DenotesBack(h: Heap, h': Heap, r: Ref, v: Value)
    requires Valid(h) && h <= h' && RefOk(|h|, r) && Denotes(h', |h'|, r, v)
    ensures Denotes(h, |h|, r, v)
    decreases v
  {
    match v
    case Object(fields) =>
      CellIsOk(h, r.at);
      assert h'[r.at] == h[r.at];
      forall k | k in fields ensures Denotes(h, |h|, h[r.at][k], fields[k]) {
        DenotesBack(h, h', h[r.at][k], fields[k]);
      }
    case Array(items) =>
      forall i | 0 <= i < |items| ensures Denotes(h, |h|, r.items[i], items[i]) {
        DenotesBack(h, h', r.items[i], items[i]);
      }
    case _ =>
  }

  // ------------------------------------------------------------ writing in place

  lemma {:induction false} RefOkMore(n: nat, n': nat, r: Ref)
    requires n <= n' && RefOk(n, r)
    ensures RefOk(n', r)
    decreases r
  {
    if r.List? {
      forall i | 0 <= i < |r.items| ensures RefOk(n', r.items[i]) { RefOkMore(n, n', r.items[i]); }
    }
  }

  /** An entry of a map is assigned. */
  function Written(h: Heap, t: nat, key: string, r: Ref): (h': Heap)
    requires Valid(h) && t < |h| && RefOk(|h|, r)
    ensures Valid(h') && |h'| == |h|
  {
    h[t := h[t][key := r]]
  }

  lemma WriteAgain(h: Heap, t: nat, key: string, r: Ref)
    requires Valid(h) && t < |h| && RefOk(|h|, r) && key in h[t] && h[t][key] == r
    ensures Written(h, t, key, r) == h
  {
    assert h[t][key := r] == h[t];
  }

  /** A new empty map. */
  function Grown(h: Heap): (h': Heap)
    requires Valid(h)
    ensures Valid(h') && |h'| == |h| + 1
  {
    GrownOk(h);
    h + [map[]]
  }

  lemma GrownOk(h: Heap)
    requires Valid(h)
    ensures Valid(h + [map[]])
  {
    var h' := h + [map[]];
    forall x | 0 <= x < |h'| ensures CellOk(|h'|, h'[x]) {
      forall k | k in h'[x] ensures RefOk(|h'|, h'[x][k]) { assert CellOk(|h|, h[x]); RefOkMore(|h|, |h'|, h[x][k]); }
    }
  }

  datatype Place = Place(heap: Heap, at: nat)

  /** The map under a key, or a new one put there. */
  function ChildAt(h: Heap, t: nat, key: string): (p: Place)
    requires Valid(h) && t < |h|
    ensures Valid(p.heap) && p.at < |p.heap| && |h| <= |p.heap|
  {
    if key in h[t] && h[t][key].Map? then
      assert CellOk(|h|, h[t]);
      Place(h, h[t][key].at)
    else Place(Written(Grown(h), t, key, Map(|h|)), |h|)
  }

  class Memory {
    var cells: Heap

    constructor ()
      ensures cells == []
    {
      cells := [];
    }

    method New() returns (at: nat)
      requires Valid(cells)
      modifies this
      ensures cells == Grown(old(cells)) && at == |old(cells)|
    {
      at := |cells|;
      cells := cells + [map[]];
    }

    method Set(t: nat, key: string, r: Ref)
      requires Valid(cells) && t < |cells| && RefOk(|cells|, r)
      modifies this
      ensures cells == Written(old(cells), t, key, r)
    {
      cells := cells[t := cells[t][key := r]];
    }

    /** The map under a key, made if there is none. */
    method Child(t: nat, key: string) returns (at: nat)
      requires Valid(cells) && t < |cells|
      modifies this
      ensures cells == ChildAt(old(cells), t, key).heap && at == ChildAt(old(cells), t, key).at
    {
      if key in cells[t] && cells[t][key].Map? { return cells[t][key].at; }
      at := New();
      Set(t, key, Map(at));
    }
  }

  // ------------------------------------------------------------ who owns a cell

  datatype Step = Field(name: string) | Item(index: nat)

  type Address = seq<Step>

  /** A memory each of whose cells is marked with the address it was made for. */
  datatype Marked = Marked(heap: Heap, marks: seq<Address>)

  predicate Intact(m: Marked) { Valid(m.heap) && |m.marks| == |m.heap| }

  lemma IntactValid(m: Marked)
    requires Intact(m)
    ensures Valid(m.heap)
  {}

  predicate Under(here: Address, a: Address) { |here| <= |a| && a[..|here|] == here }

  lemma UnderStep(here: Address, step: Step, a: Address)
    ensures Under(here + [step], a) <==> Under(here, a) && |here| < |a| && a[|here|] == step
  {
    if |here| < |a| { assert a[..|here| + 1] == a[..|here|] + [a[|here|]]; }
  }

  /** A part of what is at and below an address: all of it, what is at the address, that and
      one entry, or the items from one on. */
  datatype Zone =
    | Below(here: Address)
    | Only(here: Address)
    | Entry(here: Address, key: string)
    | Items(here: Address, first: nat)

  predicate Covers(z: Zone, a: Address) {
    && Under(z.here, a)
    && match z
       case Below(_) => true
       case Only(here) => |a| == |here|
       case Entry(here, key) => |a| == |here| || a[|here|] == Field(key)
       case Items(here, first) => |a| > |here| && a[|here|].Item? && first <= a[|here|].index
  }

  /** Between two memories only cells of the zone were written, none before the `n`-th, and
      only cells of the zone were made. */
  ghost predicate Confined(m: Marked, m': Marked, n: nat, z: Zone) {
    && Intact(m) && Intact(m') && m.marks <= m'.marks
    && (forall x :: 0 <= x < |m.heap| && m'.heap[x] != m.heap[x] ==> n <= x && Covers(z, m.marks[x]))
    && (forall x :: |m.heap| <= x < |m'.heap| ==> Covers(z, m'.marks[x]))
  }

  ghost predicate Inside(z: Zone, w: Zone) { forall a :: Covers(z, a) ==> Covers(w, a) }

  lemma ConfinedBoth(m: Marked, m': Marked, m'': Marked, n: nat, z: Zone, z': Zone, w: Zone)
    requires Confined(m, m', n, z) && Confined(m', m'', n, z') && Inside(z, w) && Inside(z', w)
    ensures Confined(m, m'', n, w)
  {
    hide Valid, Covers;
    forall x | 0 <= x < |m.heap| && m''.heap[x] != m.heap[x] ensures n <= x && Covers(w, m.marks[x]) {
      assert m'.marks[x] == m.marks[x];
    }
    forall x | |m.heap| <= x < |m''.heap| ensures Covers(w, m''.marks[x]) {
      if x < |m'.heap| { assert m''.marks[x] == m'.marks[x]; }
    }
  }

  lemma ConfinedWider(m: Marked, m': Marked, n: nat, z: Zone, w: Zone)
    requires Confined(m, m', n, z) && Inside(z, w)
    ensures Confined(m, m', n, w)
  {
    hide Valid, Covers;
  }

  lemma AboveStays(m: Marked, m': Marked, n: nat, here: Address, step: Step, x: nat)
    requires Confined(m, m', n, Below(here + [step])) && x < |m.heap| && m.marks[x] == here
    ensures m'.heap[x] == m.heap[x] && m'.marks[x] == here
  {}

  /** The zone has nothing below this address. */
  ghost predicate Misses(z: Zone, here: Address) { forall a :: Under(here, a) ==> !Covers(z, a) }

  lemma MissesStep(z: Zone, here: Address, step: Step)
    requires Misses(z, here)
    ensures Misses(z, here + [step])
  {
    forall a | Under(here + [step], a) ensures !Covers(z, a) { UnderStep(here, step, a); }
  }

  lemma ZoneFacts(here: Address, key: string, other: string, i: nat, j: nat)
    ensures Inside(Entry(here, key), Below(here)) && Inside(Below(here + [Field(key)]), Entry(here, key))
    ensures Inside(Only(here), Entry(here, key)) && Misses(Only(here), here + [Field(key)])
    ensures other != key ==> Misses(Entry(here, key), here + [Field(other)])
    ensures Inside(Below(here + [Item(i)]), Items(here, i)) && Inside(Items(here, i + 1), Items(here, i))
    ensures j > i ==> Misses(Below(here + [Item(i)]), here + [Item(j)])
    ensures j < i ==> Misses(Items(here, i), here + [Item(j)])
    ensures Inside(Items(here, i), Below(here))
  {
    forall a: Address
      ensures Under(here + [Field(key)], a) <==> Under(here, a) && |here| < |a| && a[|here|] == Field(key)
      ensures Under(here + [Field(other)], a) <==> Under(here, a) && |here| < |a| && a[|here|] == Field(other)
      ensures Under(here + [Item(i)], a) <==> Under(here, a) && |here| < |a| && a[|here|] == Item(i)
      ensures Under(here + [Item(j)], a) <==> Under(here, a) && |here| < |a| && a[|here|] == Item(j)
    {
      UnderStep(here, Field(key), a);
      UnderStep(here, Field(other), a);
      UnderStep(here, Item(i), a);
      UnderStep(here, Item(j), a);
    }
    hide Under;
  }

  // ------------------------------------------------------------------- trees

  /** The reference stands for the value, in cells of its own: each is marked with its address,
      so no cell is part of it twice. */
  ghost predicate Tree(m: Marked, here: Address, r: Ref, v: Value)
    requires |m.marks| == |m.heap|
    decreases v
  {
    match v
    case Object(fields) =>
      && r.Map? && r.at < |m.heap| && m.marks[r.at] == here && m.heap[r.at].Keys == fields.Keys
      && forall k :: k in fields ==> Tree(m, here + [Field(k)], m.heap[r.at][k], fields[k])
    case Array(items) =>
      && r.List? && |r.items| == |items|
      && forall i :: 0 <= i < |items| ==> Tree(m, here + [Item(i)], r.items[i], items[i])
    case _ => r == Atom(v)
  }

  lemma {:induction false} TreeDenotes(m: Marked, here: Address, r: Ref, v: Value)
    requires |m.marks| == |m.heap| && Tree(m, here, r, v)
    ensures Denotes(m.heap, |m.heap|, r, v)
    decreases v
  {
    match v
    case Object(fields) =>
      forall k | k in fields ensures Denotes(m.heap, |m.heap|, m.heap[r.at][k], fields[k]) {
        TreeDenotes(m, here + [Field(k)], m.heap[r.at][k], fields[k]);
      }
    case Array(items) =>
      forall i | 0 <= i < |items| ensures Denotes(m.heap, |m.heap|, r.items[i], items[i]) {
        TreeDenotes(m, here + [Item(i)], r.items[i], items[i]);
      }
    case _ =>
  }

  /** What is written elsewhere leaves a tree as it is. */
  lemma {:induction false} TreeFrame(m: Marked, m': Marked, n: nat, z: Zone, here: Address, r: Ref, v: Value)
    requires Confined(m, m', n, z) && Misses(z, here) && Tree(m, here, r, v)
    ensures Tree(m', here, r, v)
    decreases v
  {
    hide Covers, Valid;
    match v
    case Object(fields) =>
      assert Under(here, m.marks[r.at]);
      forall k | k in fields ensures Tree(m', here + [Field(k)], m'.heap[r.at][k], fields[k]) {
        MissesStep(z, here, Field(k));
        TreeFrame(m, m', n, z, here + [Field(k)], m.heap[r.at][k], fields[k]);
      }
    case Array(items) =>
      forall i | 0 <= i < |items| ensures Tree(m', here + [Item(i)], r.items[i], items[i]) {
        MissesStep(z, here, Item(i));
        TreeFrame(m, m', n, z, here + [Item(i)], r.items[i], items[i]);
      }
    case _ =>
  }

  /** A tree with one entry replaced by a tree. */
  lemma TreeEntry(m: Marked, m': Marked, here: Address, t: nat, fields: Payload, key: string, r: Ref, v: Value)
    requires |m.marks| == |m.heap| && Tree(m, here, Map(t), Object(fields))
    requires Confined(m, m', 0, Entry(here, key))
    requires m'.heap[t] == m.heap[t][key := r] && Tree(m', here + [Field(key)], r, v)
    ensures Tree(m', here, Map(t), Object(fields[key := v]))
  {
    hide Covers, Valid;
    var fields' := fields[key := v];
    forall k | k in fields' ensures Tree(m', here + [Field(k)], m'.heap[t][k], fields'[k]) {
      if k != key {
        ZoneFacts(here, key, k, 0, 0);
        TreeFrame(m, m', 0, Entry(here, key), here + [Field(k)], m.heap[t][k], fields[k]);
      }
    }
    assert m'.heap[t].Keys == fields'.Keys;
  }

  /** Assigning an entry of a map. */
  lemma WriteConfined(m: Marked, n: nat, t: nat, key: string, r: Ref)
    requires Intact(m) && n <= t < |m.heap| && RefOk(|m.heap|, r)
    ensures Confined(m, Marked(Written(m.heap, t, key, r), m.marks), n, Only(m.marks[t]))
  {}

  /** Making room for an entry. */
  lemma ChildConfined(m: Marked, n: nat, t: nat, key: string) returns (m': Marked)
    requires Intact(m) && n <= t < |m.heap|
    ensures var here := m.marks[t];
            && m'.heap == ChildAt(m.heap, t, key).heap && Confined(m, m', n, Entry(here, key))
            && (key in m.heap[t] && m.heap[t][key].Map? ==> m' == m)
            && (!(key in m.heap[t] && m.heap[t][key].Map?) ==>
                  && m'.heap[|m.heap|] == map[] && m'.marks[|m.heap|] == here + [Field(key)]
                  && m'.heap[t] == m.heap[t][key := Map(|m.heap|)])
  {
    if key in m.heap[t] && m.heap[t][key].Map? {
      m' := m;
    } else {
      m' := Marked(ChildAt(m.heap, t, key).heap, m.marks + [m.marks[t] + [Field(key)]]);
    }
  }

  /** The cell is the root of an object held in cells of its own. */
  ghost predicate IsTree(h: Heap, at: nat, fields: Payload) {
    exists marks :: Intact(Marked(h, marks)) && Tree(Marked(h, marks), [], Map(at), Object(fields))
  }

  lemma TreeOf(h: Heap, at: nat, fields: Payload)
    requires IsTree(h, at, fields)
    ensures Valid(h) && at < |h| && Denotes(h, |h|, Map(at), Object(fields))
  {
    var marks :| Intact(Marked(h, marks)) && Tree(Marked(h, marks), [], Map(at), Object(fields));
    TreeDenotes(Marked(h, marks), [], Map(at), Object(fields));
  }

  lemma NewTree(h: Heap)
    requires Valid(h)
    ensures IsTree(Grown(h), |h|, map[])
  {
    var marks: seq<Address> := seq(|h| + 1, i => []);
    assert Tree(Marked(Grown(h), marks), [], Map(|h|), Object(map[]));
  }
}
