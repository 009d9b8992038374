/** `--select` over data in memory, against the projection of the data by the set of its
    paths. */
module Projection {
  import opened Accumulation
  import opened CleanPaths
  import opened Decimal
  import opened FieldPaths
  import opened JsonMemory
  import opened Options
  import opened Payload
  import opened Text

  // ------------------------------------------------------------ the operations

  /** The memory after all paths, one after the other. */
  function PutAll(h: Heap, source: nat, paths: seq<Path>, target: nat): (h': Heap)
    requires Valid(h) && source < |h| && target < |h|
    ensures Valid(h') && |h| <= |h'|
  {
    if paths == [] then h
    else PutHeap(PutAll(h, source, paths[..|paths| - 1], target), source, paths[|paths| - 1], target)
  }

  datatype Result = Result(heap: Heap, ref: Ref)

  /** The memory and the result after `projectValue`. */
  function ProjectHeap(h: Heap, r: Ref, paths: seq<Path>): (p: Result)
    requires Valid(h) && RefOk(|h|, r)
    ensures Valid(p.heap) && |h| <= |p.heap| && RefOk(|p.heap|, p.ref)
    decreases r, 1
  {
    match r
    case Map(source) => Result(PutAll(Grown(h), source, paths, |h|), Map(|h|))
    case List(_) =>
      var records := ProjectItems(h, r, paths, 0);
      Result(records.heap, List(records.items))
    case Atom(_) => Result(h, r)
  }

  function ProjectItems(h: Heap, r: Ref, paths: seq<Path>, i: nat): (p: Records)
    requires Valid(h) && r.List? && RefOk(|h|, r) && i <= |r.items|
    ensures Valid(p.heap) && |h| <= |p.heap| && RefsOk(|p.heap|, p.items)
    decreases r, 0, |r.items| - i
  {
    if i == |r.items| then Records(h, [])
    else
      var first := ProjectHeap(h, r.items[i], paths);
      RefOkMore(|h|, |first.heap|, r);
      var later := ProjectItems(first.heap, r, paths, i + 1);
      RefOkMore(|first.heap|, |later.heap|, first.ref);
      Records(later.heap, [first.ref] + later.items)
  }

  /** The target holds what some paths ask for of the source, whose cells are the first `n`. */
  ghost predicate Accumulated(h: Heap, n: nat, source: nat, target: nat, fields: Payload, paths: set<Path>) {
    exists marks, here ::
      && Intact(Marked(h, marks)) && n <= |h| && Denotes(h, n, Map(source), Object(fields))
      && Holds(Marked(h, marks), n, here, Map(target), Map(source), Object(fields), paths)
  }

  /** Whatever clean paths the target held, it holds one more, and the source is as it was. */
  ghost predicate Accumulates(h: Heap, h': Heap, source: nat, path: Path, target: nat) {
    forall n: nat, fields, paths ::
      Accumulated(h, n, source, target, fields, paths) && path != [] && [] !in paths
      && Clean(Object(fields), paths + {path}) ==>
        Accumulated(h', n, source, target, fields, paths + {path}) && h'[..n] == h[..n]
  }

  lemma PutAccumulates(h: Heap, source: nat, path: Path, target: nat)
    requires Valid(h) && source < |h| && target < |h|
    ensures Accumulates(h, PutHeap(h, source, path, target), source, path, target)
  {
    hide Clean, PutHeap;
    var h' := PutHeap(h, source, path, target);
    forall n: nat, fields, paths | Accumulated(h, n, source, target, fields, paths) && path != [] && [] !in paths
                              && Clean(Object(fields), paths + {path})
      ensures Accumulated(h', n, source, target, fields, paths + {path}) && h'[..n] == h[..n]
    {
      var marks, here :|
        && Intact(Marked(h, marks)) && n <= |h| && Denotes(h, n, Map(source), Object(fields))
        && Holds(Marked(h, marks), n, here, Map(target), Map(source), Object(fields), paths);
      var m' := PutHolds(Marked(h, marks), n, here, source, target, fields, path, paths);
      assert m' == Marked(h', m'.marks);
      SourceStays(Marked(h, marks), m', n, Below(here), Map(source), Object(fields));
    }
  }

  /** `projectMapPath`. */
  method ProjectMapPath(mem: Memory, source: nat, path: Path, target: nat)
    requires Valid(mem.cells) && source < |mem.cells| && target < |mem.cells|
    modifies mem
    ensures mem.cells == PutHeap(old(mem.cells), source, path, target)
    ensures Accumulates(old(mem.cells), mem.cells, source, path, target)
    decreases |path|, 0
  {
    PutAccumulates(mem.cells, source, path, target);
    hide Accumulates;
    if |path| == 0 { return; }
    var key := path[0];
    if key !in mem.cells[source] { return; }
    var next, remaining := mem.cells[source][key], path[1..];
    assert CellOk(|mem.cells|, mem.cells[source]);
    if |remaining| == 0 {
      mem.Set(target, key, next);
      return;
    }
    match next
    case Map(from) =>
      var child := mem.Child(target, key);
      ProjectMapPath(mem, from, remaining, child);
    case List(items) =>
      var index := Atoi(remaining[0]);
      if index.Some? {
        ProjectArrayIndex(mem, items, remaining, index.value, target, key);
      } else {
        ItemsOk(mem.cells, target, key);
        var records := ProjectArrayBroadcast(mem, items, remaining, ItemsAt(mem.cells[target], key));
        mem.Set(target, key, List(records));
      }
    case Atom(_) =>
  }

  /** `projectArrayIndex`. */
  method ProjectArrayIndex(mem: Memory, items: seq<Ref>, remaining: Path, index: int, target: nat, key: string)
    requires Valid(mem.cells) && target < |mem.cells| && RefsOk(|mem.cells|, items) && remaining != []
    modifies mem
    ensures mem.cells == PutIndex(old(mem.cells), items, remaining, index, target, key)
    decreases |remaining|, 1
  {
    hide Accumulates;
    if index < 0 || index >= |items| { return; }
    var child := mem.Child(target, key);
    RefsOkMore(|old(mem.cells)|, |mem.cells|, items);
    if |remaining| == 1 {
      mem.Set(child, remaining[0], items[index]);
      return;
    }
    if !items[index].Map? { return; }
    var inner := mem.Child(child, remaining[0]);
    ProjectMapPath(mem, items[index].at, remaining[1..], inner);
  }

  /** `projectArrayBroadcast`. */
  method ProjectArrayBroadcast(mem: Memory, items: seq<Ref>, remaining: Path, existing: seq<Ref>)
    returns (out: seq<Ref>)
    requires Valid(mem.cells) && RefsOk(|mem.cells|, items) && RefsOk(|mem.cells|, existing)
    modifies mem
    ensures Broadcast(old(mem.cells), items, remaining, existing, 0) == Records(mem.cells, out)
    ensures RefsOk(|mem.cells|, out)
    decreases |remaining|, 1
  {
    hide PutHeap, Accumulates, Valid, Broadcast;
    out := [];
    for i := 0 to |items|
      invariant Valid(mem.cells) && RefsOk(|mem.cells|, items) && RefsOk(|mem.cells|, existing)
      invariant RefsOk(|mem.cells|, out)
      invariant var later := Broadcast(mem.cells, items, remaining, existing, i);
                Broadcast(old(mem.cells), items, remaining, existing, 0) == Records(later.heap, out + later.items)
    {
      ghost var before, done := mem.cells, out;
      BroadcastSkip(before, items, remaining, existing, i);
      if !items[i].Map? { continue; }
      var record: nat;
      if i < |existing| && existing[i].Map? {
        record := existing[i].at;
      } else {
        record := mem.New();
      }
      ProjectMapPath(mem, items[i].at, remaining, record);
      out := out + [Map(record)];
      RefsOkMore(|before|, |mem.cells|, items);
      RefsOkMore(|before|, |mem.cells|, existing);
      RefsOkMore(|before|, |mem.cells|, done);
      ghost var later := Broadcast(mem.cells, items, remaining, existing, i + 1);
      BroadcastStep(before, items, remaining, existing, i, mem.cells, later);
      assert done + ([Map(record)] + later.items) == out + later.items;
    }
    BroadcastSkip(mem.cells, items, remaining, existing, |items|);
  }

  /** `projectValue`. */
  method ProjectValue(mem: Memory, value: Ref, paths: seq<Path>) returns (r: Ref)
    requires Valid(mem.cells) && RefOk(|mem.cells|, value)
    modifies mem
    ensures ProjectHeap(old(mem.cells), value, paths) == Result(mem.cells, r)
    decreases value
  {
    hide PutHeap, Accumulates, Valid;
    match value
    case Map(source) =>
      var out := mem.New();
      ghost var start := mem.cells;
      for k := 0 to |paths|
        invariant Valid(mem.cells) && |start| <= |mem.cells| && mem.cells == PutAll(start, source, paths[..k], out)
      {
        assert paths[..k + 1][..k] == paths[..k];
        ProjectMapPath(mem, source, paths[k], out);
      }
      assert paths[..|paths|] == paths;
      r := Map(out);
    case List(items) =>
      var out: seq<Ref> := [];
      for i := 0 to |items|
        invariant Valid(mem.cells) && |old(mem.cells)| <= |mem.cells| && RefOk(|mem.cells|, value)
        invariant var later := ProjectItems(mem.cells, value, paths, i);
                  ProjectItems(old(mem.cells), value, paths, 0) == Records(later.heap, out + later.items)
      {
        ghost var before := mem.cells;
        var item := ProjectValue(mem, items[i], paths);
        RefOkMore(|before|, |mem.cells|, value);
        out := out + [item];
      }
      r := List(out);
    case Atom(_) => r := value;
  }

  /** One path selected from any object whatever: where it leads in the data, an array
      position being a step like any other, is what stands under its segments in the result,
      and the data is not touched. */
  lemma OnePathFound(h: Heap, source: nat, path: Path)
    requires Valid(h) && source < |h| && path != [] && Resolve(h, source, path).Some?
    ensures var p := ProjectHeap(h, Map(source), [path]);
            p.ref == Map(|h|) && Found(p.heap, |h|, path) == Resolve(h, source, path) && h <= p.heap
  {
    hide Valid, PutHeap, Resolve, Found;
    var start := Grown(h);
    OldIsClosed(h);
    ResolveInto(h, start, |h|, source, path);
    PathFound(start, |h|, source, path, |h|);
    assert [path][..0] == [] && PutAll(start, source, [], |h|) == start;
    assert PutAll(start, source, [path], |h|) == PutHeap(start, source, path, |h|);
  }

  lemma OldIsClosed(h: Heap)
    requires Valid(h)
    ensures Closed(h, |h|) && Closed(Grown(h), |h|) && Grown(h)[..|h|] == h[..|h|]
  {}

  // ------------------------------------------------------------------ the laws

  lemma {:induction false} PutAllHolds(m: Marked, n: nat, s: nat, t: nat, fields: Payload, paths: seq<Path>)
    returns (m': Marked)
    requires [] !in paths && Clean(Object(fields), PathSet(paths))
    requires Intact(m) && n <= |m.heap| && s < |m.heap| && t < |m.heap| && Denotes(m.heap, n, Map(s), Object(fields))
    requires Holds(m, n, [], Map(t), Map(s), Object(fields), {})
    ensures m'.heap == PutAll(m.heap, s, paths, t) && Confined(m, m', n, Below([]))
    ensures Denotes(m'.heap, n, Map(s), Object(fields))
    ensures Holds(m', n, [], Map(t), Map(s), Object(fields), PathSet(paths))
  {
    hide Clean, Holds, Denotes, PutHeap, Valid, Covers;
    if paths == [] {
      m' := m;
      assert PathSet(paths) == {};
    } else {
      var k := |paths| - 1;
      LastOfSet(paths);
      CleanMono(Object(fields), PathSet(paths[..k]), PathSet(paths));
      var m1 := PutAllHolds(m, n, s, t, fields, paths[..k]);
      NoEmptyPath(paths[..k]);
      m' := PutHolds(m1, n, [], s, t, fields, paths[k], PathSet(paths[..k]));
      ConfinedBoth(m, m1, m', n, Below([]), Below([]), Below([]));
    }
  }

  /** One object of the data, projected into a new map. */
  lemma ObjectKept(h: Heap, s: nat, fields: Payload, paths: seq<Path>)
    requires Valid(h) && s < |h| && Denotes(h, |h|, Map(s), Object(fields))
    requires [] !in paths && Clean(Object(fields), PathSet(paths))
    ensures var h' := PutAll(Grown(h), s, paths, |h|);
            h <= h' && Denotes(h', |h'|, Map(|h|), Object(KeepFields(fields, PathSet(paths))))
  {
    hide Clean, PutAll, Valid, Covers;
    var m := Marked(Grown(h), seq(|h| + 1, i => []));
    DenotesFrame(h, |h|, m.heap, |h|, Map(s), Object(fields));
    KeepNothing(fields);
    var m' := PutAllHolds(m, |h|, s, |h|, fields, paths);
    SourceStays(m, m', |h|, Below([]), Map(s), Object(fields));
    HoldsDenotes(m', |h|, [], Map(|h|), Map(s), Object(fields), PathSet(paths));
    NoEmptyPath(paths);
    assert Keep(Object(fields), PathSet(paths)) == Object(KeepFields(fields, PathSet(paths)));
  }

  /** What `projectValue` makes of data in memory: the data is as it was, cell by cell, and the
      result is the projection by the set of paths. */
  lemma {:induction false} ProjectedIsKeep(h: Heap, r: Ref, v: Value, paths: seq<Path>)
    requires Valid(h) && RefOk(|h|, r) && Denotes(h, |h|, r, v)
    requires [] !in paths && CleanTop(v, PathSet(paths))
    ensures var p := ProjectHeap(h, r, paths);
            h <= p.heap && Denotes(p.heap, |p.heap|, p.ref, KeepTop(v, PathSet(paths)))
    decreases r, 1
  {
    hide Clean, PutAll, Valid, PathSet, KeepFields;
    match v
    case Object(fields) => ObjectKept(h, r.at, fields, paths);
    case Array(items) =>
      ItemsKept(h, r, items, paths, 0);
      assert KeepTop(v, PathSet(paths)).Array?;
    case _ =>
  }

  lemma {:induction false} ItemsKept(h: Heap, r: Ref, items: seq<Value>, paths: seq<Path>, i: nat)
    requires Valid(h) && r.List? && RefOk(|h|, r) && Denotes(h, |h|, r, Array(items)) && i <= |items|
    requires [] !in paths && CleanTop(Array(items), PathSet(paths))
    ensures |r.items| == |items| && h <= ProjectItems(h, r, paths, i).heap
    ensures AllKept(ProjectItems(h, r, paths, i), items, PathSet(paths), i)
    decreases r, 0, |items| - i
  {
    hide Clean, Valid, PathSet, KeepTop, ProjectHeap, AllKept;
    if i == |items| {
      NoneKept(h, items, PathSet(paths));
    } else {
      var first := ProjectHeap(h, r.items[i], paths);
      ProjectedIsKeep(h, r.items[i], items[i], paths);
      RefOkMore(|h|, |first.heap|, r);
      DenotesFrame(h, |h|, first.heap, |first.heap|, r, Array(items));
      ItemsKept(first.heap, r, items, paths, i + 1);
      OneMoreKept(first, ProjectItems(first.heap, r, paths, i + 1), items, PathSet(paths), i);
    }
  }

  /** These are the projections of the items from `i` on. */
  ghost predicate AllKept(p: Records, items: seq<Value>, paths: set<Path>, i: nat) {
    && |p.items| == |items| - i
    && forall j :: i <= j < |items| ==> Denotes(p.heap, |p.heap|, p.items[j - i], KeepTop(items[j], paths))
  }

  lemma NoneKept(h: Heap, items: seq<Value>, paths: set<Path>)
    ensures AllKept(Records(h, []), items, paths, |items|)
  {}

  lemma OneMoreKept(first: Result, later: Records, items: seq<Value>, paths: set<Path>, i: nat)
    requires i < |items| && first.heap <= later.heap && AllKept(later, items, paths, i + 1)
    requires Denotes(first.heap, |first.heap|, first.ref, KeepTop(items[i], paths))
    ensures AllKept(Records(later.heap, [first.ref] + later.items), items, paths, i)
  {
    hide KeepTop, Denotes;
    DenotesFrame(first.heap, |first.heap|, later.heap, |later.heap|, first.ref, KeepTop(items[i], paths));
    var out := [first.ref] + later.items;
    forall j | i <= j < |items| ensures Denotes(later.heap, |later.heap|, out[j - i], KeepTop(items[j], paths)) {
      if j > i { assert out[j - i] == later.items[j - (i + 1)]; }
    }
  }

  /** A reference stands for one value. */
  lemma {:induction false} DenotesOnce(h: Heap, n: nat, r: Ref, v: Value, w: Value)
    requires n <= |h| && Denotes(h, n, r, v) && Denotes(h, n, r, w)
    ensures v == w
    decreases v
  {
    match v
    case Object(fields) =>
      forall k | k in fields ensures fields[k] == w.fields[k] {
        DenotesOnce(h, n, h[r.at][k], fields[k], w.fields[k]);
      }
      assert fields == w.fields;
    case Array(items) =>
      forall i | 0 <= i < |items| ensures items[i] == w.items[i] {
        DenotesOnce(h, n, r.items[i], items[i], w.items[i]);
      }
      assert items == w.items;
    case _ =>
  }

  /** Selecting these paths from the data yields this value. */
  ghost predicate Yields(h: Heap, r: Ref, paths: seq<Path>, w: Value)
    requires Valid(h) && RefOk(|h|, r)
  {
    var p := ProjectHeap(h, r, paths);
    Denotes(p.heap, |p.heap|, p.ref, w)
  }

  lemma YieldsKeep(h: Heap, r: Ref, v: Value, paths: seq<Path>, w: Value)
    requires Valid(h) && RefOk(|h|, r) && Denotes(h, |h|, r, v)
    requires [] !in paths && CleanTop(v, PathSet(paths))
    ensures Yields(h, r, paths, w) <==> w == KeepTop(v, PathSet(paths))
  {
    hide KeepTop, CleanTop, ProjectHeap, PathSet, Denotes;
    ProjectedIsKeep(h, r, v, paths);
    var p := ProjectHeap(h, r, paths);
    if Yields(h, r, paths, w) { DenotesOnce(p.heap, |p.heap|, p.ref, w, KeepTop(v, PathSet(paths))); }
  }

  lemma OnePut(h: Heap, source: nat, path: Path)
    requires Valid(h) && source < |h|
    ensures PutAll(Grown(h), source, [path], |h|) == PutHeap(Grown(h), source, path, |h|)
  {
    hide Valid, PutHeap;
    assert [path][..0] == [] && PutAll(Grown(h), source, [], |h|) == Grown(h);
  }

  /** One path leaves the data as it was, clean or not. */
  lemma {:induction false} OnePathAway(h: Heap, r: Ref, path: Path)
    requires Valid(h) && RefOk(|h|, r)
    ensures h <= ProjectHeap(h, r, [path]).heap
    decreases r, 1
  {
    hide Valid, PutAll;
    match r
    case Map(source) =>
      OldIsClosed(h);
      OnePut(h, source, path);
      PutAway(Grown(h), |h|, source, path, |h|);
    case List(_) => ItemsAway(h, r, path, 0);
    case Atom(_) =>
  }

  lemma {:induction false} ItemsAway(h: Heap, r: Ref, path: Path, i: nat)
    requires Valid(h) && r.List? && RefOk(|h|, r) && i <= |r.items|
    ensures h <= ProjectItems(h, r, [path], i).heap
    decreases r, 0, |r.items| - i
  {
    hide Valid, ProjectHeap;
    if i < |r.items| {
      var first := ProjectHeap(h, r.items[i], [path]);
      OnePathAway(h, r.items[i], path);
      RefOkMore(|h|, |first.heap|, r);
      ItemsAway(first.heap, r, path, i + 1);
    }
  }

  lemma {:induction false} OnePathUnclean(h: Heap, r: Ref, v: Value, path: Path)
    requires Valid(h) && RefOk(|h|, r) && Denotes(h, |h|, r, v) && path != [] && !CleanTop(v, {path})
    ensures !Yields(h, r, [path], KeepTop(v, {path}))
    decreases r, 1
  {
    hide Valid, PutAll, Clean;
    match v
    case Object(fields) =>
      OldIsClosed(h);
      OnePut(h, r.at, path);
      DenotesFrame(h, |h|, Grown(h), |h|, r, v);
      PutUnclean(Grown(h), |h|, r.at, fields, path, |h|);
    case Array(items) => ItemsUnclean(h, r, items, path, 0);
    case _ =>
  }

  lemma {:induction false} ItemsUnclean(h: Heap, r: Ref, items: seq<Value>, path: Path, i: nat)
    requires Valid(h) && r.List? && RefOk(|h|, r) && Denotes(h, |h|, r, Array(items)) && i <= |items| && path != []
    requires exists j :: i <= j < |items| && !CleanTop(items[j], {path})
    ensures |r.items| == |items| && !AllKept(ProjectItems(h, r, [path], i), items, {path}, i)
    decreases r, 0, |items| - i
  {
    hide Valid, ProjectHeap, KeepTop, CleanTop;
    var first := ProjectHeap(h, r.items[i], [path]);
    OnePathAway(h, r.items[i], path);
    RefOkMore(|h|, |first.heap|, r);
    var later := ProjectItems(first.heap, r, [path], i + 1);
    ItemsAway(first.heap, r, path, i + 1);
    var all := Records(later.heap, [first.ref] + later.items);
    if AllKept(all, items, {path}, i) {
      assert Denotes(all.heap, |all.heap|, all.items[0], KeepTop(items[i], {path}));
      DenotesBack(first.heap, later.heap, first.ref, KeepTop(items[i], {path}));
      if !CleanTop(items[i], {path}) {
        OnePathUnclean(h, r.items[i], items[i], path);
      } else {
        DenotesFrame(h, |h|, first.heap, |first.heap|, r, Array(items));
        ItemsUnclean(first.heap, r, items, path, i + 1);
      }
    }
  }

  /** Clean data is exactly the data from which each of the paths, by itself, selects its
      projection; from such data all of them together do (`ProjectedIsKeep`). */
  lemma CleanIff(h: Heap, r: Ref, v: Value, paths: seq<Path>)
    requires Valid(h) && RefOk(|h|, r) && Denotes(h, |h|, r, v) && [] !in paths
    ensures CleanTop(v, PathSet(paths)) <==> forall p :: p in paths ==> Yields(h, r, [p], KeepTop(v, {p}))
  {
    hide Yields, KeepTop, CleanTop, Denotes, Valid;
    CleanTopEach(v, PathSet(paths));
    forall p | p in paths ensures Yields(h, r, [p], KeepTop(v, {p})) <==> CleanTop(v, {p}) {
      assert PathSet([p]) == {p};
      if CleanTop(v, {p}) {
        YieldsKeep(h, r, v, [p], KeepTop(v, {p}));
      } else {
        OnePathUnclean(h, r, v, p);
      }
    }
  }

  /** `FieldSelectorHook.Process`: each expression is split at its dots. On clean data the
      result is the projection by the set of paths, and the data itself is not touched. */
  method Process(mem: Memory, select: seq<string>, data: Ref, ghost v: Value) returns (r: Ref)
    requires Valid(mem.cells) && RefOk(|mem.cells|, data) && Denotes(mem.cells, |mem.cells|, data, v)
    modifies mem
    ensures select == [] ==> r == data && mem.cells == old(mem.cells)
    ensures select != [] ==> ProjectHeap(old(mem.cells), data, Paths(select)) == Result(mem.cells, r)
    ensures select != [] && CleanTop(v, PathSet(Paths(select))) ==>
              && old(mem.cells) <= mem.cells
              && Denotes(mem.cells, |mem.cells|, r, KeepTop(v, PathSet(Paths(select))))
  {
    hide ProjectHeap, PathSet, CleanTop, KeepTop, Valid;
    if |select| == 0 { return data; }
    var paths: seq<Path> := [];
    for k := 0 to |select|
      invariant paths == Paths(select[..k])
    {
      assert select[..k + 1] == select[..k] + [select[k]];
      paths := paths + [Split(select[k], '.')];
    }
    assert select[..|select|] == select;
    if CleanTop(v, PathSet(paths)) { ProjectedIsKeep(mem.cells, data, v, paths); }
    r := ProjectValue(mem, data, paths);
  }

  /** Neither the order of the expressions nor repeating one matters. */
  lemma OrderIrrelevant(h: Heap, r: Ref, v: Value, a: seq<string>, b: seq<string>, w: Value)
    requires Valid(h) && RefOk(|h|, r) && Denotes(h, |h|, r, v)
    requires (forall e :: e in a <==> e in b) && CleanTop(v, PathSet(Paths(a)))
    ensures Yields(h, r, Paths(a), w) <==> Yields(h, r, Paths(b), w)
  {
    hide Yields, CleanTop, Valid, Denotes;
    var pa, pb := Paths(a), Paths(b);
    assert PathSet(pa) == PathSet(pb) by {
      SamePaths(a, b);
      SamePaths(b, a);
    }
    YieldsKeep(h, r, v, pa, w);
    YieldsKeep(h, r, v, pb, w);
  }

  /** Selecting again from what was selected changes nothing. */
  lemma Idempotent(h: Heap, r: Ref, v: Value, paths: seq<Path>, w: Value)
    requires Valid(h) && RefOk(|h|, r) && Denotes(h, |h|, r, v)
    requires [] !in paths && CleanTop(v, PathSet(paths)) && Yields(h, r, paths, w)
    ensures var once := ProjectHeap(h, r, paths); Yields(once.heap, once.ref, paths, w)
  {
    hide ProjectHeap, KeepTop, CleanTop, PathSet, Denotes, Valid;
    NoEmptyPath(paths);
    var once := ProjectHeap(h, r, paths);
    YieldsKeep(h, r, v, paths, w);
    KeepTopTwice(v, PathSet(paths));
    YieldsKeep(once.heap, once.ref, w, paths, w);
  }

  /** A leaf of the data is in the result, at its address, exactly when some path is a prefix
      of its field names. Leaves of a list at the top have none and stay. */
  lemma LeafStays(h: Heap, r: Ref, v: Value, paths: seq<Path>, w: Value, address: Address)
    requires Valid(h) && RefOk(|h|, r) && Denotes(h, |h|, r, v)
    requires [] !in paths && paths != [] && CleanTop(v, PathSet(paths)) && Yields(h, r, paths, w)
    requires At(v, address).Some? && IsLeaf(At(v, address).value)
    ensures At(w, address) ==
            if Names(address) == [] || Covered(PathSet(paths), Names(address)) then At(v, address) else None
  {
    hide Yields, CleanTop, KeepTop, Denotes, Valid, At;
    YieldsKeep(h, r, v, paths, w);
    assert paths[0] in PathSet(paths);
    LeafKeptTop(v, PathSet(paths), address);
  }

  /** The result contains source values only, where they were. */
  lemma OnlySourceValues(h: Heap, r: Ref, v: Value, paths: seq<Path>, w: Value)
    requires Valid(h) && RefOk(|h|, r) && Denotes(h, |h|, r, v)
    requires [] !in paths && CleanTop(v, PathSet(paths)) && Yields(h, r, paths, w)
    ensures Within(w, v)
  {
    hide Yields, CleanTop, KeepTop, Denotes, Valid, Within, PathSet;
    YieldsKeep(h, r, v, paths, w);
    NoEmptyPath(paths);
    KeepTopWithin(v, PathSet(paths));
  }

  // ---------------------------------------- arrays that hold more than objects

  lemma PutOne(h: Heap, source: nat, key: string, target: nat)
    requires Valid(h) && source < |h| && target < |h| && key in h[source]
    ensures RefOk(|h|, h[source][key]) && PutHeap(h, source, [key], target) == Written(h, target, key, h[source][key])
  {
    assert CellOk(|h|, h[source]);
  }

  lemma PutList(h: Heap, source: nat, key: string, field: string, target: nat, r: Records)
    requires Valid(h) && source < |h| && target < |h| && key in h[source] && h[source][key].List? && Atoi(field).None?
    requires RefsOk(|h|, h[source][key].items) && RefsOk(|h|, ItemsAt(h[target], key))
    requires r == Broadcast(h, h[source][key].items, [field], ItemsAt(h[target], key), 0)
    ensures PutHeap(h, source, [key, field], target) == Written(r.heap, target, key, List(r.items))
  {
    assert [key, field][1..] == [field];
    assert CellOk(|h|, h[source]);
  }

  lemma PutTwo(h: Heap, source: nat, p: Path, q: Path, target: nat)
    requires Valid(h) && source < |h| && target < |h|
    ensures PutAll(h, source, [p, q], target) == PutHeap(PutHeap(h, source, p, target), source, q, target)
  {
    hide Valid, PutHeap;
    assert [p, q][..1] == [p] && [p][..0] == [];
    assert PutAll(h, source, [p], target) == PutHeap(PutAll(h, source, [], target), source, p, target);
  }

  lemma PutThree(h: Heap, source: nat, p: Path, q: Path, r: Path, target: nat)
    requires Valid(h) && source < |h| && target < |h|
    ensures var two := PutHeap(PutHeap(h, source, p, target), source, q, target);
            PutAll(h, source, [p, q, r], target) == PutHeap(two, source, r, target)
  {
    hide Valid, PutHeap;
    PutTwo(h, source, p, q, target);
    assert [p, q, r][..2] == [p, q];
  }

  /** With anything but objects in an array the order of the paths does matter: `l,l.x` and
      `l.x,l` on `{"l":[1]}`. */
  lemma OrderMattersForMixedArrays(h: Heap)
    requires h == [map["l" := List([Atom(Scalar(1))])]]
    ensures Valid(h)
    ensures Yields(h, Map(0), [["l"], ["l", "x"]], Object(map["l" := Array([])]))
    ensures Yields(h, Map(0), [["l", "x"], ["l"]], Object(map["l" := Array([Scalar(1)])]))
  {
    hide PutAll, PutHeap, Broadcast;
    var list, start := [Atom(Scalar(1))], Grown(h);
    PutOne(start, 0, "l", 1);
    var whole, none := Written(start, 1, "l", List(list)), Written(start, 1, "l", List([]));
    MixedPut(whole, list);
    MixedPut(start, list);
    PutOne(none, 0, "l", 1);
    assert whole[1]["l" := List([])] == none[1] && none[1]["l" := List(list)] == whole[1];
    assert Written(whole, 1, "l", List([])) == none && Written(none, 1, "l", List(list)) == whole;
    PutTwo(start, 0, ["l"], ["l", "x"], 1);
    PutTwo(start, 0, ["l", "x"], ["l"], 1);
  }

  lemma MixedPut(h: Heap, list: seq<Ref>)
    requires list == [Atom(Scalar(1))] && Valid(h) && |h| == 2 && h[0] == map["l" := List(list)]
    requires ItemsAt(h[1], "l") == list || ItemsAt(h[1], "l") == []
    ensures PutHeap(h, 0, ["l", "x"], 1) == Written(h, 1, "l", List([]))
  {
    hide Valid, PutHeap, Broadcast;
    var existing := ItemsAt(h[1], "l");
    BroadcastSkip(h, list, ["x"], existing, 0);
    BroadcastSkip(h, list, ["x"], existing, 1);
    PutList(h, 0, "l", "x", 1, Records(h, []));
  }

  /** `l,l.x,l.y` on `{"l":[1,{"x":1,"y":2},{"x":3}]}`. After `l.x` the records are the data's
      own, moved one place down, so `l.y` writes the first record's field into the second,
      and then reads it there. */
  lemma RecordsMixedUp(h: Heap)
    requires IsMixed(h)
    ensures Valid(h)
    ensures var paths := [["l"], ["l", "x"], ["l", "y"]];
            && ProjectHeap(h, Map(0), paths).heap[2] == h[2]["y" := Atom(Scalar(2))]
            && Yields(h, Map(0), paths,
                      Object(map["l" := Array([Object(map["x" := Scalar(3), "y" := Scalar(2)]),
                                               Object(map["y" := Scalar(2)])])]))
  {
    hide PutAll, PutHeap, Broadcast;
    var start := Grown(h);
    PutOne(start, 0, "l", 3);
    var a := Written(start, 3, "l", List(MIXED));
    ThenX(a);
    var b := Written(a, 3, "l", List([Map(1), Map(2)]));
    ThenY(b);
    PutThree(start, 0, ["l"], ["l", "x"], ["l", "y"], 3);
    MixedResult(PutHeap(b, 0, ["l", "y"], 3));
    hide Denotes;
  }

  lemma MixedResult(h: Heap)
    requires |h| == 5 && h[2] == map["x" := Atom(Scalar(3)), "y" := Atom(Scalar(2))]
    requires h[3] == map["l" := List([Map(2), Map(4)])] && h[4] == map["y" := Atom(Scalar(2))]
    ensures Denotes(h, |h|, Map(3), Object(map["l" := Array([Object(map["x" := Scalar(3), "y" := Scalar(2)]),
                                                             Object(map["y" := Scalar(2)])])]))
  {
    var first, second := Object(map["x" := Scalar(3), "y" := Scalar(2)]), Object(map["y" := Scalar(2)]);
    assert Denotes(h, |h|, Map(2), first) && Denotes(h, |h|, Map(4), second);
    assert Denotes(h, |h|, List([Map(2), Map(4)]), Array([first, second]));
  }

  const MIXED: seq<Ref> := [Atom(Scalar(1)), Map(1), Map(2)]

  /** The data of that example. */
  predicate IsMixed(h: Heap) {
    h == [map["l" := List(MIXED)], map["x" := Atom(Scalar(1)), "y" := Atom(Scalar(2))], map["x" := Atom(Scalar(3))]]
  }

  lemma ThenX(a: Heap)
    requires Valid(a) && |a| == 4 && IsMixed(a[..3]) && ItemsAt(a[3], "l") == MIXED
    ensures PutHeap(a, 0, ["l", "x"], 3) == Written(a, 3, "l", List([Map(1), Map(2)]))
  {
    hide Valid, PutHeap, Broadcast;
    assert a[..3][0] == a[0] && a[..3][1] == a[1] && a[..3][2] == a[2];
    PutOne(a, 1, "x", 1);
    PutOne(a, 2, "x", 2);
    WriteAgain(a, 1, "x", Atom(Scalar(1)));
    WriteAgain(a, 2, "x", Atom(Scalar(3)));
    BroadcastSkip(a, MIXED, ["x"], MIXED, 3);
    BroadcastStep(a, MIXED, ["x"], MIXED, 2, a, Records(a, []));
    BroadcastStep(a, MIXED, ["x"], MIXED, 1, a, Records(a, [Map(2)]));
    BroadcastSkip(a, MIXED, ["x"], MIXED, 0);
    PutList(a, 0, "l", "x", 3, Records(a, [Map(1), Map(2)]));
  }

  lemma ThenY(b: Heap)
    requires Valid(b) && |b| == 4 && IsMixed(b[..3]) && b[3] == map["l" := List([Map(1), Map(2)])]
    ensures var h := PutHeap(b, 0, ["l", "y"], 3);
            && |h| == 5 && h[2] == map["x" := Atom(Scalar(3)), "y" := Atom(Scalar(2))]
            && h[3] == map["l" := List([Map(2), Map(4)])] && h[4] == map["y" := Atom(Scalar(2))]
  {
    hide Valid, PutHeap, Broadcast;
    assert b[..3][0] == b[0] && b[..3][1] == b[1] && b[..3][2] == b[2];
    var moved := [Map(1), Map(2)];
    MiddleRecord(b, moved);
    var c := Written(b, 2, "y", Atom(Scalar(2)));
    var d := Written(Grown(c), 4, "y", Atom(Scalar(2)));
    BroadcastSkip(b, MIXED, ["y"], moved, 0);
    PutList(b, 0, "l", "y", 3, Records(d, [Map(2), Map(4)]));
  }

  lemma MiddleRecord(b: Heap, moved: seq<Ref>)
    requires Valid(b) && |b| == 4 && "y" in b[1] && b[1]["y"] == Atom(Scalar(2)) && moved == [Map(1), Map(2)]
    ensures var d := Written(Grown(Written(b, 2, "y", Atom(Scalar(2)))), 4, "y", Atom(Scalar(2)));
            Broadcast(b, MIXED, ["y"], moved, 1) == Records(d, [Map(2), Map(4)])
  {
    hide Valid, PutHeap, Broadcast;
    PutOne(b, 1, "y", 2);
    var c := Written(b, 2, "y", Atom(Scalar(2)));
    LastRecord(c, moved);
    BroadcastStep(b, MIXED, ["y"], moved, 1, c, Records(Written(Grown(c), 4, "y", Atom(Scalar(2))), [Map(4)]));
  }

  lemma LastRecord(c: Heap, moved: seq<Ref>)
    requires Valid(c) && |c| == 4 && "y" in c[2] && c[2]["y"] == Atom(Scalar(2)) && moved == [Map(1), Map(2)]
    ensures Broadcast(c, MIXED, ["y"], moved, 2) == Records(Written(Grown(c), 4, "y", Atom(Scalar(2))), [Map(4)])
  {
    hide Valid, PutHeap, Broadcast;
    PutOne(Grown(c), 2, "y", 4);
    var d := Written(Grown(c), 4, "y", Atom(Scalar(2)));
    BroadcastSkip(d, MIXED, ["y"], moved, 3);
    BroadcastStep(c, MIXED, ["y"], moved, 2, d, Records(d, []));
  }
}
