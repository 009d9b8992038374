/** One path by itself gives its projection exactly on clean data.

    A path put into an empty map writes nothing but that map and what it makes, so what it
    makes can be compared with the projection step by step. */
module CleanPaths {
  import opened Accumulation
  import opened Decimal
  import opened FieldPaths
  import opened JsonMemory
  import opened Payload

  // ---------------------------------------------------- what one path writes

  /** The reference leads to the first `n` cells or to those from `m` on. */
  predicate RefFrom(n: nat, m: nat, r: Ref) {
    match r
    case Atom(_) => true
    case Map(at) => at < n || m <= at
    case List(items) => forall i :: 0 <= i < |items| ==> RefFrom(n, m, items[i])
  }

  predicate CellFrom(n: nat, m: nat, c: Cell) { forall k :: k in c ==> RefFrom(n, m, c[k]) }

  lemma {:induction false} RefFromLater(n: nat, m: nat, m': nat, r: Ref)
    requires m <= m' && RefFrom(n, m', r)
    ensures RefFrom(n, m, r)
    decreases r
  {
    if r.List? {
      forall i | 0 <= i < |r.items| ensures RefFrom(n, m, r.items[i]) { RefFromLater(n, m, m', r.items[i]); }
    }
  }

  lemma {:induction false} RefFromOld(n: nat, m: nat, r: Ref)
    requires RefOk(n, r)
    ensures RefFrom(n, m, r)
    decreases r
  {
    if r.List? {
      forall i | 0 <= i < |r.items| ensures RefFrom(n, m, r.items[i]) { RefFromOld(n, m, r.items[i]); }
    }
  }

  /** Of the old cells none but `t` has changed, and `t` and the new cells lead to the first
      `n` cells and to new ones. */
  ghost predicate Grew(h: Heap, h': Heap, n: nat, t: nat) {
    && |h| <= |h'| && t < |h| && (forall x :: 0 <= x < |h| && x != t ==> h'[x] == h[x])
    && CellFrom(n, |h|, h'[t]) && forall x :: |h| <= x < |h'| ==> CellFrom(n, |h|, h'[x])
  }

  /** The old cells are as they were, and the new ones lead to the first `n` and to new ones. */
  ghost predicate Added(h: Heap, h': Heap, n: nat) {
    h <= h' && forall x :: |h| <= x < |h'| ==> CellFrom(n, |h|, h'[x])
  }

  lemma AddedBoth(h: Heap, h1: Heap, h2: Heap, n: nat)
    requires Added(h, h1, n) && Added(h1, h2, n)
    ensures Added(h, h2, n)
  {
    forall x | |h| <= x < |h2| ensures CellFrom(n, |h|, h2[x]) {
      if x >= |h1| {
        assert CellFrom(n, |h1|, h2[x]);
        forall k | k in h2[x] ensures RefFrom(n, |h|, h2[x][k]) { RefFromLater(n, |h|, |h1|, h2[x][k]); }
      }
    }
  }

  /** A new map under a key, grown. */
  lemma ChildGrew(h: Heap, h1: Heap, h2: Heap, n: nat, t: nat, key: string)
    requires t < |h| && |h1| == |h| + 1 && h1[t] == map[key := Map(|h|)]
    requires (forall x :: 0 <= x < |h| && x != t ==> h1[x] == h[x]) && Grew(h1, h2, n, |h|)
    ensures Grew(h, h2, n, t) && h2[t] == map[key := Map(|h|)]
  {
    hide RefFrom;
    assert RefFrom(n, |h|, Map(|h|)) by { NewRef(n, |h|); }
    forall x | |h| <= x < |h2| ensures CellFrom(n, |h|, h2[x]) {
      assert CellFrom(n, |h1|, h2[x]);
      forall k | k in h2[x] ensures RefFrom(n, |h|, h2[x][k]) { RefFromLater(n, |h|, |h1|, h2[x][k]); }
    }
  }

  lemma NewRef(n: nat, at: nat)
    ensures RefFrom(n, at, Map(at))
  {}

  lemma {:induction false} PutAway(h: Heap, n: nat, source: nat, path: Path, target: nat)
    requires Valid(h) && Closed(h, n) && source < n <= target < |h| && h[target] == map[]
    ensures Grew(h, PutHeap(h, source, path, target), n, target)
    decreases |path|, 0
  {
    hide Valid, PutField;
    CellIsOk(h, source);
    if path != [] && path[0] in h[source] {
      assert CellOk(n, h[source]);
      FieldAway(h, n, h[source][path[0]], path[1..], target, path[0]);
    }
  }

  lemma {:induction false} FieldAway(h: Heap, n: nat, next: Ref, rest: Path, target: nat, key: string)
    requires Valid(h) && Closed(h, n) && n <= target < |h| && h[target] == map[]
    requires RefOk(n, next) && RefOk(|h|, next)
    ensures Grew(h, PutField(h, next, rest, target, key), n, target)
    ensures next.Map? && rest != [] ==> PutField(h, next, rest, target, key)[target] == map[key := Map(|h|)]
    decreases |rest|, 3
  {
    hide Valid;
    RefFromOld(n, |h|, next);
    if rest != [] {
      FreshChild(h, n, target, key);
      match next
      case Map(from) =>
        var h1 := ChildAt(h, target, key).heap;
        PutAway(h1, n, from, rest, |h|);
        ChildGrew(h, h1, PutHeap(h1, from, rest, |h|), n, target, key);
      case List(items) =>
        if Atoi(rest[0]).Some? {
          ItemAway(h, n, items, rest, target, key);
        } else {
          BroadcastAway(h, n, items, rest, 0);
        }
      case Atom(_) =>
    }
  }

  lemma {:induction false} ItemAway(h: Heap, n: nat, items: seq<Ref>, rest: Path, target: nat, key: string)
    requires Valid(h) && Closed(h, n) && n <= target < |h| && h[target] == map[]
    requires RefsOk(n, items) && RefsOk(|h|, items) && rest != [] && Atoi(rest[0]).Some?
    ensures var h' := PutIndex(h, items, rest, Atoi(rest[0]).value, target, key);
            Grew(h, h', n, target) && (h'[target] == map[] || h'[target] == map[key := Map(|h|)])
    decreases |rest|, 2
  {
    hide Valid;
    var index := Atoi(rest[0]).value;
    if 0 <= index < |items| {
      FreshChild(h, n, target, key);
      var h1 := ChildAt(h, target, key).heap;
      RefFromOld(n, |h1|, items[index]);
      if |rest| > 1 && items[index].Map? {
        FreshChild(h1, n, |h|, rest[0]);
        var h2 := ChildAt(h1, |h|, rest[0]).heap;
        PutAway(h2, n, items[index].at, rest[1..], |h1|);
        ChildGrew(h1, h2, PutHeap(h2, items[index].at, rest[1..], |h1|), n, |h|, rest[0]);
      }
      ChildGrew(h, h1, PutIndex(h, items, rest, index, target, key), n, target, key);
    }
  }

  lemma {:induction false} BroadcastAway(h: Heap, n: nat, items: seq<Ref>, rest: Path, i: nat)
    requires Valid(h) && Closed(h, n) && RefsOk(n, items) && RefsOk(|h|, items) && i <= |items|
    ensures var r := Broadcast(h, items, rest, [], i);
            Added(h, r.heap, n) && forall j :: 0 <= j < |r.items| ==> RefFrom(n, |h|, r.items[j])
    decreases |rest|, 2, |items| - i
  {
    hide Valid, Broadcast, CellFrom;
    BroadcastSkip(h, items, rest, [], i);
    if i < |items| {
      if items[i].Map? {
        var h1 := RecordAway(h, n, items, rest, i);
        BroadcastAway(h1, n, items, rest, i + 1);
        var later := Broadcast(h1, items, rest, [], i + 1);
        BroadcastStep(h, items, rest, [], i, h1, later);
        AddedBoth(h, h1, later.heap, n);
        forall j | 0 <= j < |later.items| ensures RefFrom(n, |h|, later.items[j]) {
          RefFromLater(n, |h|, |h1|, later.items[j]);
        }
      } else {
        BroadcastAway(h, n, items, rest, i + 1);
      }
    }
  }

  /** The memory after one more record. */
  lemma {:induction false} RecordAway(h: Heap, n: nat, items: seq<Ref>, rest: Path, i: nat) returns (h1: Heap)
    requires Valid(h) && Closed(h, n) && RefsOk(n, items) && RefsOk(|h|, items) && i < |items| && items[i].Map?
    ensures RecordAt(h, [], i) == Place(Grown(h), |h|) && items[i].at < |Grown(h)|
    ensures h1 == PutHeap(Grown(h), items[i].at, rest, |h|) && Added(h, h1, n) && |h| < |h1|
    ensures Valid(h1) && Closed(h1, n) && RefsOk(|h1|, items)
    decreases |rest|, 1
  {
    hide Valid;
    var g := Grown(h);
    assert RefOk(n, items[i]);
    PutAway(g, n, items[i].at, rest, |h|);
    h1 := PutHeap(g, items[i].at, rest, |h|);
    RefsOkMore(n, |h1|, items);
    forall x | |h| <= x < |h1| ensures CellFrom(n, |h|, h1[x]) {
      assert CellFrom(n, |g|, h1[x]);
      forall k | k in h1[x] ensures RefFrom(n, |h|, h1[x][k]) { RefFromLater(n, |h|, |g|, h1[x][k]); }
    }
  }

  /** Cells that a reference does not lead to do not matter for what it stands for. */
  lemma {:induction false} DenotesApart(h: Heap, h': Heap, n: nat, m: nat, r: Ref, v: Value)
    requires |h| == |h'| && n <= |h| && RefFrom(n, m, r) && Denotes(h', |h'|, r, v)
    requires forall x :: 0 <= x < |h| && (x < n || m <= x) ==> h'[x] == h[x] && CellFrom(n, m, h[x])
    ensures Denotes(h, |h|, r, v)
    decreases v
  {
    match v
    case Object(fields) =>
      assert CellFrom(n, m, h[r.at]);
      forall k | k in fields ensures Denotes(h, |h|, h[r.at][k], fields[k]) {
        DenotesApart(h, h', n, m, h[r.at][k], fields[k]);
      }
    case Array(items) =>
      forall i | 0 <= i < |items| ensures Denotes(h, |h|, r.items[i], items[i]) {
        DenotesApart(h, h', n, m, r.items[i], items[i]);
      }
    case _ =>
  }

  // ------------------------------------------- what an unclean path fails to give

  lemma UncleanField(fields: Payload, path: Path)
    requires path != [] && !Clean(Object(fields), {path})
    ensures path[0] in fields && path[1..] != [] && !Clean(fields[path[0]], {path[1..]})
  {
    if path[0] !in fields || Clean(fields[path[0]], {path[1..]}) {
      forall k | k in fields ensures Clean(fields[k], Tails({path}, k)) {
        TailsOne(path, k);
        if k != path[0] { CleanNothing(fields[k], {}); }
      }
    }
    if path[0] in fields && path[1..] == [] { CleanNothing(fields[path[0]], {path[1..]}); }
  }

  /** A path that is not clean, put into an empty map, does not give its projection. */
  lemma {:induction false} PutUnclean(h: Heap, n: nat, source: nat, fields: Payload, path: Path, target: nat)
    requires Valid(h) && Closed(h, n) && source < n <= target < |h| && h[target] == map[]
    requires Denotes(h, n, Map(source), Object(fields)) && path != [] && !Clean(Object(fields), {path})
    ensures var h' := PutHeap(h, source, path, target);
            !Denotes(h', |h'|, Map(target), Object(KeepFields(fields, {path})))
    decreases |path|, 0
  {
    hide Valid, PutField, Clean;
    CellIsOk(h, source);
    assert CellOk(n, h[source]);
    UncleanField(fields, path);
    var key, rest := path[0], path[1..];
    TailsOne(path, key);
    FieldUnclean(h, n, h[source][key], fields[key], rest, target, key);
    var h' := PutHeap(h, source, path, target);
    if Denotes(h', |h'|, Map(target), Object(KeepFields(fields, {path}))) {
      assert key in KeepFields(fields, {path});
    }
  }

  /** What stands under the key is not the projection of the field. */
  lemma {:induction false} FieldUnclean(h: Heap, n: nat, next: Ref, v: Value, rest: Path, target: nat, key: string)
    requires Valid(h) && Closed(h, n) && n <= target < |h| && h[target] == map[]
    requires RefOk(n, next) && RefOk(|h|, next) && Denotes(h, n, next, v) && rest != [] && !Clean(v, {rest})
    ensures v.Object? || v.Array?
    ensures var h' := PutField(h, next, rest, target, key);
            !(key in h'[target] && Denotes(h', |h'|, h'[target][key], Keep(v, {rest})))
    decreases |rest|, 3
  {
    hide Valid;
    match v
    case Object(sub) =>
      FreshChild(h, n, target, key);
      FieldAway(h, n, next, rest, target, key);
      var h1 := ChildAt(h, target, key).heap;
      DenotesFrame(h, n, h1, n, next, v);
      PutUnclean(h1, n, next.at, sub, rest, |h|);
    case Array(items) =>
      if Atoi(rest[0]).Some? {
        ItemAway(h, n, next.items, rest, target, key);
      } else {
        BroadcastUnclean(h, n, next.items, items, rest, 0);
        BroadcastAway(h, n, next.items, rest, 0);
        WrittenList(h, n, Broadcast(h, next.items, rest, [], 0), target, key, Keep(v, {rest}));
        assert KeptFrom(items, rest, 0) == Keep(v, {rest}).items;
      }
    case _ =>
  }

  /** Putting the list under its key does not change what it stands for. */
  lemma WrittenList(h: Heap, n: nat, r: Records, target: nat, key: string, v: Value)
    requires Valid(h) && Closed(h, n) && n <= target < |h| && Valid(r.heap) && RefsOk(|r.heap|, r.items)
    requires Added(h, r.heap, n) && forall j :: 0 <= j < |r.items| ==> RefFrom(n, |h|, r.items[j])
    ensures var h' := Written(r.heap, target, key, List(r.items));
            Denotes(h', |h'|, List(r.items), v) ==> Denotes(r.heap, |r.heap|, List(r.items), v)
  {
    var h' := Written(r.heap, target, key, List(r.items));
    forall x | 0 <= x < |h'| && (x < n || |h| <= x) ensures h'[x] == r.heap[x] && CellFrom(n, |h|, r.heap[x]) {
      if x < n {
        assert CellOk(n, h[x]) && r.heap[x] == h[x];
        forall k | k in h[x] ensures RefFrom(n, |h|, h[x][k]) { RefFromOld(n, |h|, h[x][k]); }
      }
    }
    if Denotes(h', |h'|, List(r.items), v) { DenotesApart(r.heap, h', n, |h|, List(r.items), v); }
  }

  function KeptFrom(items: seq<Value>, rest: Path, i: nat): seq<Value>
    requires i <= |items|
  {
    seq(|items| - i, j requires 0 <= j < |items| - i => Keep(items[i + j], {rest}))
  }

  /** The items from `i` on are clean for the path. */
  ghost predicate CleanFrom(items: seq<Value>, rest: Path, i: nat) {
    forall j :: i <= j < |items| ==> items[j].Object? && Clean(items[j], {rest})
  }

  lemma {:induction false} BroadcastShort(h: Heap, refs: seq<Ref>, rest: Path, i: nat)
    requires Valid(h) && RefsOk(|h|, refs) && i <= |refs|
    ensures |Broadcast(h, refs, rest, [], i).items| <= |refs| - i
    decreases |refs| - i
  {
    hide Valid, Broadcast, PutHeap;
    BroadcastSkip(h, refs, rest, [], i);
    if i < |refs| {
      if refs[i].Map? {
        assert RefOk(|h|, refs[i]);
        var h1 := PutHeap(Grown(h), refs[i].at, rest, |h|);
        RefsOkMore(|h|, |h1|, refs);
        BroadcastShort(h1, refs, rest, i + 1);
        BroadcastStep(h, refs, rest, [], i, h1, Broadcast(h1, refs, rest, [], i + 1));
      } else {
        BroadcastShort(h, refs, rest, i + 1);
      }
    }
  }

  /** A list stands for these values if its first reference and the rest do. */
  lemma ListSplits(h: Heap, first: Ref, later: seq<Ref>, items: seq<Value>, rest: Path, i: nat)
    requires i < |items| && Denotes(h, |h|, List([first] + later), Array(KeptFrom(items, rest, i)))
    ensures Denotes(h, |h|, first, Keep(items[i], {rest}))
    ensures Denotes(h, |h|, List(later), Array(KeptFrom(items, rest, i + 1)))
  {
    var all, kept := [first] + later, KeptFrom(items, rest, i);
    assert kept[0] == Keep(items[i], {rest}) && all[0] == first;
    forall j | 0 <= j < |later| ensures Denotes(h, |h|, later[j], KeptFrom(items, rest, i + 1)[j]) {
      assert all[j + 1] == later[j] && kept[j + 1] == KeptFrom(items, rest, i + 1)[j];
    }
  }

  /** Records of an unclean array are not its projection. */
  lemma {:induction false} BroadcastUnclean(h: Heap, n: nat, refs: seq<Ref>, items: seq<Value>, rest: Path, i: nat)
    requires Valid(h) && Closed(h, n) && RefsOk(n, refs) && RefsOk(|h|, refs) && n <= |h|
    requires Denotes(h, n, List(refs), Array(items)) && rest != [] && i <= |items| && !CleanFrom(items, rest, i)
    ensures var r := Broadcast(h, refs, rest, [], i);
            !Denotes(r.heap, |r.heap|, List(r.items), Array(KeptFrom(items, rest, i)))
    decreases |rest|, 2, |items| - i
  {
    hide Valid, Broadcast, Clean, KeptFrom, PutHeap, Added;
    SameLength(h, n, refs, items);
    if items[i].Object? {
      var h1 := RecordAway(h, n, refs, rest, i);
      var later := Broadcast(h1, refs, rest, [], i + 1);
      BroadcastStep(h, refs, rest, [], i, h1, later);
      BroadcastAway(h1, n, refs, rest, i + 1);
      if Denotes(later.heap, |later.heap|, List([Map(|h|)] + later.items), Array(KeptFrom(items, rest, i))) {
        ListSplits(later.heap, Map(|h|), later.items, items, rest, i);
        AddedOld(h, h1, n, List(refs), Array(items));
        if Clean(items[i], {rest}) {
          BroadcastUnclean(h1, n, refs, items, rest, i + 1);
        } else {
          RecordUnclean(h, n, refs, items, rest, i);
          AddedOld(h1, later.heap, n, List(refs), Array(items));
          DenotesBack(h1, later.heap, Map(|h|), Keep(items[i], {rest}));
        }
      }
    } else {
      BroadcastSkip(h, refs, rest, [], i);
      BroadcastShort(h, refs, rest, i + 1);
      KeptLength(items, rest, i);
    }
  }

  lemma KeptLength(items: seq<Value>, rest: Path, i: nat)
    requires i <= |items|
    ensures |KeptFrom(items, rest, i)| == |items| - i
  {}

  lemma AddedOld(h: Heap, h1: Heap, n: nat, source: Ref, v: Value)
    requires Added(h, h1, n) && n <= |h| && Denotes(h, n, source, v)
    ensures h <= h1 && Denotes(h1, n, source, v)
  {
    DenotesFrame(h, n, h1, n, source, v);
  }

  lemma {:induction false} RecordUnclean(h: Heap, n: nat, refs: seq<Ref>, items: seq<Value>, rest: Path, i: nat)
    requires Valid(h) && Closed(h, n) && RefsOk(n, refs) && n <= |h| && Denotes(h, n, List(refs), Array(items))
    requires i < |items| && items[i].Object? && rest != [] && !Clean(items[i], {rest})
    ensures |refs| == |items| && refs[i].Map? && refs[i].at < |Grown(h)|
    ensures var h1 := PutHeap(Grown(h), refs[i].at, rest, |h|);
            !Denotes(h1, |h1|, Map(|h|), Keep(items[i], {rest}))
    decreases |rest|, 1
  {
    hide Valid, Clean, PutHeap;
    assert RefOk(n, refs[i]);
    DenotesFrame(h, n, Grown(h), n, refs[i], items[i]);
    PutUnclean(Grown(h), n, refs[i].at, items[i].fields, rest, |h|);
  }
}
