/** Field paths accumulated one after the other into a map in memory.

    What a path asks for as a whole is put into the result as it is, so result and source
    share maps, and a later path may walk into them. */
module Accumulation {
  import opened Decimal
  import opened FieldPaths
  import opened JsonMemory
  import opened Options
  import opened Payload

  // --------------------------------------------------------------- accumulation

  function ItemsAt(c: Cell, key: string): seq<Ref> {
    if key in c && c[key].List? then c[key].items else []
  }

  predicate RefsOk(n: nat, items: seq<Ref>) { forall i :: 0 <= i < |items| ==> RefOk(n, items[i]) }

  lemma RefsOkMore(n: nat, n': nat, items: seq<Ref>)
    requires n <= n' && RefsOk(n, items)
    ensures RefsOk(n', items)
  {
    forall i | 0 <= i < |items| ensures RefOk(n', items[i]) { RefOkMore(n, n', items[i]); }
  }

  lemma ItemsOk(h: Heap, t: nat, key: string)
    requires Valid(h) && t < |h|
    ensures RefsOk(|h|, ItemsAt(h[t], key))
  {
    assert CellOk(|h|, h[t]);
  }

  /** The memory after `projectMapPath`. */
  function PutHeap(h: Heap, source: nat, path: Path, target: nat): (h': Heap)
    requires Valid(h) && source < |h| && target < |h|
    ensures Valid(h') && |h| <= |h'|
    decreases |path|, 1
  {
    if path == [] || path[0] !in h[source] then h
    else
      assert CellOk(|h|, h[source]);
      PutField(h, h[source][path[0]], path[1..], target, path[0])
  }

  /** For a field that is there. */
  function PutField(h: Heap, next: Ref, rest: Path, target: nat, key: string): (h': Heap)
    requires Valid(h) && target < |h| && RefOk(|h|, next)
    ensures Valid(h') && |h| <= |h'|
    decreases |rest|, 3
  {
    if rest == [] then Written(h, target, key, next) else
      match next
      case Map(from) =>
        var child := ChildAt(h, target, key);
        PutHeap(child.heap, from, rest, child.at)
      case List(items) =>
        if Atoi(rest[0]).Some? then PutIndex(h, items, rest, Atoi(rest[0]).value, target, key)
        else
          ItemsOk(h, target, key);
          var records := Broadcast(h, items, rest, ItemsAt(h[target], key), 0);
          Written(records.heap, target, key, List(records.items))
      case Atom(_) => h
  }

  /** The memory after `projectArrayIndex`. */
  function PutIndex(h: Heap, items: seq<Ref>, rest: Path, index: int, target: nat, key: string): (h': Heap)
    requires Valid(h) && target < |h| && RefsOk(|h|, items) && rest != []
    ensures Valid(h') && |h| <= |h'|
    decreases |rest|, 2
  {
    if !(0 <= index < |items|) then h else
      var child := ChildAt(h, target, key);
      RefsOkMore(|h|, |child.heap|, items);
      if |rest| == 1 then Written(child.heap, child.at, rest[0], items[index])
      else if !items[index].Map? then child.heap
      else
        var inner := ChildAt(child.heap, child.at, rest[0]);
        PutHeap(inner.heap, items[index].at, rest[1..], inner.at)
  }

  datatype Records = Records(heap: Heap, items: seq<Ref>)

  /** The record an earlier path left at this position, or a new one. */
  function RecordAt(h: Heap, existing: seq<Ref>, i: nat): (p: Place)
    requires Valid(h) && RefsOk(|h|, existing)
    ensures Valid(p.heap) && p.at < |p.heap| && |h| <= |p.heap|
  {
    if i < |existing| && existing[i].Map? then Place(h, existing[i].at) else Place(Grown(h), |h|)
  }

  /** The memory and the list after `projectArrayBroadcast`, from item `i` on. */
  function Broadcast(h: Heap, items: seq<Ref>, rest: Path, existing: seq<Ref>, i: nat): (r: Records)
    requires Valid(h) && RefsOk(|h|, items) && RefsOk(|h|, existing) && i <= |items|
    ensures Valid(r.heap) && |h| <= |r.heap| && RefsOk(|r.heap|, r.items)
    decreases |rest|, 2, |items| - i
  {
    if i == |items| then Records(h, [])
    else if !items[i].Map? then Broadcast(h, items, rest, existing, i + 1)
    else
      var record := RecordAt(h, existing, i);
      var h1 := PutHeap(record.heap, items[i].at, rest, record.at);
      RefsOkMore(|h|, |h1|, items);
      RefsOkMore(|h|, |h1|, existing);
      var later := Broadcast(h1, items, rest, existing, i + 1);
      Records(later.heap, [Map(record.at)] + later.items)
  }

  // ----------------------------------------------- writing over what is shared

  lemma DenotesHere(h: Heap, n: nat, r: Ref, v: Value)
    requires n <= |h| && Denotes(h, n, r, v)
    ensures RefOk(|h|, r)
  {
    DenotesOk(h, n, r, v);
    RefOkMore(n, |h|, r);
  }

  /** Writing a path of the source into the source itself changes nothing. */
  lemma {:induction false} PutShared(h: Heap, n: nat, source: nat, fields: Payload, path: Path)
    requires Valid(h) && n <= |h| && Denotes(h, n, Map(source), Object(fields)) && Clean(Object(fields), {path})
    ensures PutHeap(h, source, path, source) == h
    decreases |path|, 0
  {
    if path != [] && path[0] in fields {
      var key, rest := path[0], path[1..];
      assert {path} == {} + {path};
      TailsAdd({}, path, key);
      assert Tails({}, key) + {rest} == {rest};
      assert Clean(fields[key], {rest});
      FieldShared(h, n, source, key, h[source][key], fields[key], rest);
    }
  }

  lemma {:induction false} FieldShared(h: Heap, n: nat, target: nat, key: string, source: Ref, v: Value, rest: Path)
    requires Valid(h) && n <= |h| && target < |h| && Denotes(h, n, source, v) && Clean(v, {rest})
    requires key in h[target] && h[target][key] == source
    ensures RefOk(|h|, source) && PutField(h, source, rest, target, key) == h
    decreases |rest|, 2
  {
    DenotesHere(h, n, source, v);
    WriteAgain(h, target, key, source);
    if rest != [] {
      match v
      case Object(fields) =>
        PutShared(h, n, source.at, fields, rest);
      case Array(items) =>
        assert rest in {rest};
        BroadcastShared(h, n, source.items, items, rest, 0);
        assert source.items[0..] == source.items;
      case _ =>
    }
  }

  lemma {:induction false} BroadcastShared(h: Heap, n: nat, refs: seq<Ref>, items: seq<Value>, rest: Path, i: nat)
    requires Valid(h) && n <= |h| && Denotes(h, n, List(refs), Array(items)) && RefsOk(|h|, refs)
    requires i <= |items| && rest != [] && Clean(Array(items), {rest})
    ensures Broadcast(h, refs, rest, refs, i) == Records(h, refs[i..])
    decreases |rest|, 1, |items| - i
  {
    if i < |items| {
      assert rest in {rest} && items[i].Object? && Clean(items[i], {rest});
      PutShared(h, n, refs[i].at, items[i].fields, rest);
      BroadcastShared(h, n, refs, items, rest, i + 1);
      assert refs[i..] == [refs[i]] + refs[i + 1..];
    }
  }

  // ------------------------------------------------- what a target holds so far

  /** The reference holds the projection by these paths: what some path asks for as a whole
      is the source's own, and everything around it is in cells of its own, after the first
      `n`, each marked with its address. */
  ghost predicate Holds(m: Marked, n: nat, here: Address, r: Ref, source: Ref, v: Value, paths: set<Path>)
    requires |m.marks| == |m.heap| && n <= |m.heap| && Denotes(m.heap, n, source, v)
    decreases v
  {
    if [] in paths then r == source else
      match v
      case Object(fields) =>
        && r.Map? && n <= r.at < |m.heap| && m.marks[r.at] == here
        && (forall k :: k in m.heap[r.at] <==> k in fields && Shown(fields[k], Tails(paths, k)))
        && forall k :: k in m.heap[r.at] ==>
             Holds(m, n, here + [Field(k)], m.heap[r.at][k], m.heap[source.at][k], fields[k], Tails(paths, k))
      case Array(items) =>
        && r.List? && |r.items| == |items|
        && forall i :: 0 <= i < |items| ==> Holds(m, n, here + [Item(i)], r.items[i], source.items[i], items[i], paths)
      case _ => r == source
  }

  lemma {:induction false} HoldsDenotes(m: Marked, n: nat, here: Address, r: Ref, source: Ref, v: Value,
                                        paths: set<Path>)
    requires |m.marks| == |m.heap| && n <= |m.heap| && Denotes(m.heap, n, source, v)
    requires Holds(m, n, here, r, source, v, paths)
    ensures Denotes(m.heap, |m.heap|, r, Keep(v, paths))
    decreases v
  {
    hide Shown, Tails;
    if [] in paths {
      DenotesFrame(m.heap, n, m.heap, |m.heap|, source, v);
    } else {
      match v
      case Object(fields) =>
        forall k | k in m.heap[r.at]
          ensures Denotes(m.heap, |m.heap|, m.heap[r.at][k], Keep(fields[k], Tails(paths, k))) {
          HoldsDenotes(m, n, here + [Field(k)], m.heap[r.at][k], m.heap[source.at][k], fields[k], Tails(paths, k));
        }
        assert m.heap[r.at].Keys == Keep(v, paths).fields.Keys;
      case Array(items) =>
        forall i | 0 <= i < |items| ensures Denotes(m.heap, |m.heap|, r.items[i], Keep(items[i], paths)) {
          HoldsDenotes(m, n, here + [Item(i)], r.items[i], source.items[i], items[i], paths);
        }
      case _ =>
    }
  }

  lemma SourceStays(m: Marked, m': Marked, n: nat, z: Zone, source: Ref, v: Value)
    requires Confined(m, m', n, z) && n <= |m.heap| && Denotes(m.heap, n, source, v)
    ensures Denotes(m'.heap, n, source, v) && m.heap[..n] == m'.heap[..n]
  {
    assert m.heap[..n] == m'.heap[..n];
    DenotesFrame(m.heap, n, m'.heap, n, source, v);
  }

  /** What is written elsewhere leaves it as it is. */
  lemma {:induction false} HoldsFrame(m: Marked, m': Marked, n: nat, z: Zone, here: Address, r: Ref, source: Ref,
                                      v: Value, paths: set<Path>)
    requires Confined(m, m', n, z) && Misses(z, here) && n <= |m.heap| && Denotes(m.heap, n, source, v)
    requires Holds(m, n, here, r, source, v, paths)
    ensures Denotes(m'.heap, n, source, v) && Holds(m', n, here, r, source, v, paths)
    decreases v
  {
    hide Covers, Valid, Shown, Tails;
    SourceStays(m, m', n, z, source, v);
    if [] !in paths {
      match v
      case Object(fields) =>
        assert Under(here, m.marks[r.at]);
        assert m'.heap[source.at] == m'.heap[..n][source.at] == m.heap[..n][source.at];
        forall k | k in m.heap[r.at]
          ensures Holds(m', n, here + [Field(k)], m'.heap[r.at][k], m'.heap[source.at][k], fields[k], Tails(paths, k)) {
          MissesStep(z, here, Field(k));
          HoldsFrame(m, m', n, z, here + [Field(k)], m.heap[r.at][k], m.heap[source.at][k], fields[k], Tails(paths, k));
        }
      case Array(items) =>
        forall i | 0 <= i < |items|
          ensures Holds(m', n, here + [Item(i)], r.items[i], source.items[i], items[i], paths) {
          MissesStep(z, here, Item(i));
          HoldsFrame(m, m', n, z, here + [Item(i)], r.items[i], source.items[i], items[i], paths);
        }
      case _ =>
    }
  }

  // ------------------------------------------------------------ one more path

  /** After one field of the source was put under `key`: the entry holds the projection by
      one more path, and nothing else has moved. */
  ghost predicate FieldDone(m: Marked, m': Marked, n: nat, here: Address, t: nat, key: string, source: Ref, v: Value,
                            tails: set<Path>)
    requires |m.marks| == |m.heap| && |m'.marks| == |m'.heap| && t < |m.heap| <= |m'.heap| && n <= |m'.heap|
    requires Denotes(m'.heap, n, source, v)
  {
    && Confined(m, m', n, Entry(here, key))
    && if Shown(v, tails) then
         && key in m'.heap[t] && m'.heap[t] == m.heap[t][key := m'.heap[t][key]]
         && Holds(m', n, here + [Field(key)], m'.heap[t][key], source, v, tails)
       else m'.heap[t] == m.heap[t] && key !in m.heap[t]
  }

  /** The target after a field was put: it holds the projection by one more path. */
  lemma EntryHolds(m: Marked, m': Marked, n: nat, here: Address, t: nat, s: nat, fields: Payload, paths: set<Path>,
                   path: Path)
    requires Intact(m) && Intact(m') && n <= |m.heap| <= |m'.heap| && Denotes(m.heap, n, Map(s), Object(fields))
    requires Holds(m, n, here, Map(t), Map(s), Object(fields), paths) && [] !in paths && path != []
    requires path[0] in fields && Denotes(m'.heap, n, m.heap[s][path[0]], fields[path[0]])
    requires FieldDone(m, m', n, here, t, path[0], m.heap[s][path[0]], fields[path[0]],
                       Tails(paths, path[0]) + {path[1..]})
    ensures Denotes(m'.heap, n, Map(s), Object(fields))
    ensures Holds(m', n, here, Map(t), Map(s), Object(fields), paths + {path})
  {
    hide Covers, Valid, Shown, Tails;
    var key := path[0];
    SourceStays(m, m', n, Entry(here, key), Map(s), Object(fields));
    assert m'.heap[s] == m'.heap[..n][s] == m.heap[..n][s];
    forall k ensures Tails(paths + {path}, k) == if k == key then Tails(paths, k) + {path[1..]} else Tails(paths, k) {
      TailsAdd(paths, path, k);
    }
    forall k | k in m'.heap[t]
      ensures k in fields &&
              Holds(m', n, here + [Field(k)], m'.heap[t][k], m'.heap[s][k], fields[k], Tails(paths + {path}, k)) {
      if k != key {
        ZoneFacts(here, key, k, 0, 0);
        HoldsFrame(m, m', n, Entry(here, key), here + [Field(k)], m.heap[t][k], m.heap[s][k], fields[k],
                   Tails(paths, k));
      }
    }
  }

  /** A path that leads nowhere adds nothing. */
  lemma MissHolds(m: Marked, n: nat, here: Address, t: nat, s: nat, fields: Payload, paths: set<Path>, path: Path)
    requires Intact(m) && n <= |m.heap| && Denotes(m.heap, n, Map(s), Object(fields))
    requires Holds(m, n, here, Map(t), Map(s), Object(fields), paths) && [] !in paths && path != []
    requires path[0] !in fields
    ensures Holds(m, n, here, Map(t), Map(s), Object(fields), paths + {path})
  {
    hide Valid, Shown, Tails;
    forall k | k in fields ensures Tails(paths + {path}, k) == Tails(paths, k) { TailsAdd(paths, path, k); }
  }

  /** One more path into a target that holds the projection by the paths before: it holds the
      projection by one more. Nothing of the source, and nothing outside the target, moves. */
  lemma {:induction false} PutHolds(m: Marked, n: nat, here: Address, s: nat, t: nat, fields: Payload, path: Path,
                                    paths: set<Path>) returns (m': Marked)
    requires path != [] && [] !in paths && Clean(Object(fields), paths + {path})
    requires Intact(m) && n <= |m.heap| && Denotes(m.heap, n, Map(s), Object(fields))
    requires Holds(m, n, here, Map(t), Map(s), Object(fields), paths)
    ensures m'.heap == PutHeap(m.heap, s, path, t) && Confined(m, m', n, Below(here))
    ensures Denotes(m'.heap, n, Map(s), Object(fields))
    ensures Holds(m', n, here, Map(t), Map(s), Object(fields), paths + {path})
    decreases |path|, 0
  {
    var key, rest := path[0], path[1..];
    if key !in fields {
      m' := m;
      MissHolds(m, n, here, t, s, fields, paths, path);
    } else {
      TailsAdd(paths, path, key);
      assert Clean(fields[key], Tails(paths, key) + {rest});
      assert CellOk(|m.heap|, m.heap[s]);
      assert [] !in paths + {path};
      hide Clean, Valid, Shown, Tails, Covers, PutField;
      m' := FieldHolds(m, n, here, t, key, rest, m.heap[s][key], fields[key], Tails(paths, key));
      EntryHolds(m, m', n, here, t, s, fields, paths, path);
      ZoneFacts(here, key, key, 0, 0);
      ConfinedWider(m, m', n, Entry(here, key), Below(here));
    }
  }

  lemma {:induction false} FieldHolds(m: Marked, n: nat, here: Address, t: nat, key: string, rest: Path, source: Ref,
                                      v: Value, tails: set<Path>) returns (m': Marked)
    requires Intact(m) && n <= t < |m.heap| && m.marks[t] == here && Denotes(m.heap, n, source, v)
    requires Clean(v, tails + {rest}) && RefOk(|m.heap|, source)
    requires key in m.heap[t] <==> Shown(v, tails)
    requires key in m.heap[t] ==> Holds(m, n, here + [Field(key)], m.heap[t][key], source, v, tails)
    ensures m'.heap == PutField(m.heap, source, rest, t, key) && Intact(m')
    ensures Denotes(m'.heap, n, source, v) && FieldDone(m, m', n, here, t, key, source, v, tails + {rest})
    decreases |rest|, 2
  {
    if rest == [] {
      m' := WholeHolds(m, n, here, t, key, source, v, tails);
    } else if [] in tails {
      CleanMono(v, {rest}, tails + {rest});
      FieldShared(m.heap, n, t, key, source, v, rest);
      m' := m;
    } else {
      match v
      case Object(fields) => m' := MapHolds(m, n, here, t, key, rest, source, fields, tails);
      case Array(items) => m' := ListHolds(m, n, here, t, key, rest, source, items, tails);
      case _ => m' := m;
    }
  }

  lemma WholeHolds(m: Marked, n: nat, here: Address, t: nat, key: string, source: Ref, v: Value, tails: set<Path>)
    returns (m': Marked)
    requires Intact(m) && n <= t < |m.heap| && m.marks[t] == here && Denotes(m.heap, n, source, v)
    requires RefOk(|m.heap|, source)
    ensures m'.heap == Written(m.heap, t, key, source) && Intact(m')
    ensures Denotes(m'.heap, n, source, v) && FieldDone(m, m', n, here, t, key, source, v, tails + {[]})
  {
    hide Valid, Covers;
    m' := Marked(Written(m.heap, t, key, source), m.marks);
    WriteConfined(m, n, t, key, source);
    ZoneFacts(here, key, key, 0, 0);
    ConfinedWider(m, m', n, Only(here), Entry(here, key));
    SourceStays(m, m', n, Entry(here, key), source, v);
    assert [] in tails + {[]};
  }

  lemma {:induction false} MapHolds(m: Marked, n: nat, here: Address, t: nat, key: string, rest: Path, source: Ref,
                                    fields: Payload, tails: set<Path>) returns (m': Marked)
    requires Intact(m) && n <= t < |m.heap| && m.marks[t] == here && Denotes(m.heap, n, source, Object(fields))
    requires Clean(Object(fields), tails + {rest}) && RefOk(|m.heap|, source) && rest != [] && [] !in tails
    requires key in m.heap[t] <==> Shown(Object(fields), tails)
    requires key in m.heap[t] ==> Holds(m, n, here + [Field(key)], m.heap[t][key], source, Object(fields), tails)
    ensures m'.heap == PutField(m.heap, source, rest, t, key) && Intact(m')
    ensures Denotes(m'.heap, n, source, Object(fields))
    ensures FieldDone(m, m', n, here, t, key, source, Object(fields), tails + {rest})
    decreases |rest|, 1
  {
    hide Valid, Covers, Clean;
    var below := here + [Field(key)];
    var child := ChildAt(m.heap, t, key);
    var m1 := ChildConfined(m, n, t, key);
    SourceStays(m, m1, n, Entry(here, key), source, Object(fields));
    KeepNothing(fields);
    assert Holds(m1, n, below, Map(child.at), source, Object(fields), tails);
    m' := PutHolds(m1, n, below, source.at, child.at, fields, rest, tails);
    ZoneFacts(here, key, key, 0, 0);
    ConfinedBoth(m, m1, m', n, Entry(here, key), Below(below), Entry(here, key));
    AboveStays(m1, m', n, here, Field(key), t);
    assert rest in tails + {rest};
  }

  lemma {:induction false} ListHolds(m: Marked, n: nat, here: Address, t: nat, key: string, rest: Path, source: Ref,
                                     items: seq<Value>, tails: set<Path>) returns (m': Marked)
    requires Intact(m) && n <= t < |m.heap| && m.marks[t] == here && Denotes(m.heap, n, source, Array(items))
    requires Clean(Array(items), tails + {rest}) && RefOk(|m.heap|, source) && rest != [] && [] !in tails
    requires key in m.heap[t] <==> Shown(Array(items), tails)
    requires key in m.heap[t] ==> Holds(m, n, here + [Field(key)], m.heap[t][key], source, Array(items), tails)
    ensures m'.heap == PutField(m.heap, source, rest, t, key) && Intact(m')
    ensures Denotes(m'.heap, n, source, Array(items))
    ensures FieldDone(m, m', n, here, t, key, source, Array(items), tails + {rest})
    decreases |rest|, 1
  {
    assert rest in tails + {rest} && Atoi(rest[0]).None?;
    hide Valid, Covers, Clean;
    var existing := ItemsAt(m.heap[t], key);
    ItemsOk(m.heap, t, key);
    assert LeftFor(m, n, here + [Field(key)], existing, source.items, items, tails, 0);
    hide Holds, Shown, LeftFor;
    var m1, out := BroadcastHolds(m, n, here + [Field(key)], source.items, items, rest, tails, existing, 0);
    m' := ListDone(m, m1, n, here, t, key, source, items, tails + {rest}, out);
  }

  /** The list is put back under its key. */
  lemma ListDone(m: Marked, m1: Marked, n: nat, here: Address, t: nat, key: string, source: Ref, items: seq<Value>,
                 tails: set<Path>, out: seq<Ref>) returns (m': Marked)
    requires Intact(m) && n <= t < |m.heap| && m.marks[t] == here
    requires Confined(m, m1, n, Items(here + [Field(key)], 0)) && RefsOk(|m1.heap|, out)
    requires Denotes(m1.heap, n, source, Array(items))
    requires [] !in tails && tails != {}
    requires AllHold(m1, n, here + [Field(key)], out, source.items, items, tails, 0)
    ensures m'.heap == Written(m1.heap, t, key, List(out)) && Intact(m')
    ensures Denotes(m'.heap, n, source, Array(items))
    ensures FieldDone(m, m', n, here, t, key, source, Array(items), tails)
  {
    hide Valid, Covers;
    var below := here + [Field(key)];
    ZoneFacts(below, key, key, 0, 0);
    ZoneFacts(here, key, key, 0, 0);
    ConfinedWider(m, m1, n, Items(below, 0), Below(below));
    AboveStays(m, m1, n, here, Field(key), t);
    m' := Marked(Written(m1.heap, t, key, List(out)), m1.marks);
    WriteConfined(m1, n, t, key, List(out));
    ConfinedBoth(m, m1, m', n, Below(below), Only(here), Entry(here, key));
    SourceStays(m1, m', n, Only(here), source, Array(items));
    forall i | 0 <= i < |items|
      ensures Holds(m', n, below + [Item(i)], out[i], source.items[i], items[i], tails) {
      MissesStep(Only(here), below, Item(i));
      HoldsFrame(m1, m', n, Only(here), below + [Item(i)], out[i], source.items[i], items[i], tails);
    }
  }

  /** These references hold the projections of the items from `i` on. */
  ghost predicate AllHold(m: Marked, n: nat, here: Address, out: seq<Ref>, refs: seq<Ref>, items: seq<Value>,
                          paths: set<Path>, i: nat)
    requires |m.marks| == |m.heap| && n <= |m.heap| && Denotes(m.heap, n, List(refs), Array(items))
  {
    && |out| == |items| - i
    && forall j :: i <= j < |items| ==> Holds(m, n, here + [Item(j)], out[j - i], refs[j], items[j], paths)
  }

  /** What an earlier path left for the items from `i` on. */
  ghost predicate LeftFor(m: Marked, n: nat, here: Address, existing: seq<Ref>, refs: seq<Ref>, items: seq<Value>,
                          tails: set<Path>, i: nat)
    requires |m.marks| == |m.heap| && n <= |m.heap| && Denotes(m.heap, n, List(refs), Array(items))
  {
    if tails == {} then existing == []
    else
      && |existing| == |items|
      && forall j :: i <= j < |items| ==> Holds(m, n, here + [Item(j)], existing[j], refs[j], items[j], tails)
  }

  lemma {:induction false} BroadcastHolds(m: Marked, n: nat, here: Address, refs: seq<Ref>, items: seq<Value>,
                                          rest: Path, tails: set<Path>, existing: seq<Ref>, i: nat)
    returns (m': Marked, out: seq<Ref>)
    requires Intact(m) && n <= |m.heap| && Denotes(m.heap, n, List(refs), Array(items)) && i <= |items|
    requires RefsOk(|m.heap|, refs) && RefsOk(|m.heap|, existing)
    requires Clean(Array(items), tails + {rest}) && rest != [] && [] !in tails
    requires LeftFor(m, n, here, existing, refs, items, tails, i)
    ensures Confined(m, m', n, Items(here, i)) && Denotes(m'.heap, n, List(refs), Array(items))
    ensures Broadcast(m.heap, refs, rest, existing, i) == Records(m'.heap, out)
    ensures AllHold(m', n, here, out, refs, items, tails + {rest}, i)
    decreases |rest|, 1, |items| - i
  {
    hide *;
    IntactValid(m);
    if i == |items| {
      m', out := m, [];
      SameLength(m.heap, n, refs, items);
      BroadcastSkip(m.heap, refs, rest, existing, i);
      NothingHolds(m, n, here, refs, items, tails + {rest});
    } else {
      CleanItem(m.heap, n, refs, items, rest, tails + {rest}, i);
      var m1, later;
      m1 := ItemHolds(m, n, here, refs, items, rest, tails, existing, i);
      m', later := BroadcastHolds(m1, n, here, refs, items, rest, tails, existing, i + 1);
      var record := RecordAt(m.heap, existing, i).at;
      out := [Map(record)] + later;
      OneMoreHolds(m, m1, m', n, here, record, later, refs, items, tails + {rest}, i);
      BroadcastStep(m.heap, refs, rest, existing, i, m1.heap, Records(m'.heap, later));
    }
  }

  lemma CleanItem(h: Heap, n: nat, refs: seq<Ref>, items: seq<Value>, rest: Path, paths: set<Path>, i: nat)
    requires n <= |h| && Denotes(h, n, List(refs), Array(items)) && Clean(Array(items), paths) && i < |items|
    requires rest in paths && rest != []
    ensures items[i].Object? && |refs| == |items| && refs[i].Map?
  {}

  lemma NothingHolds(m: Marked, n: nat, here: Address, refs: seq<Ref>, items: seq<Value>, paths: set<Path>)
    requires Intact(m) && n <= |m.heap| && Denotes(m.heap, n, List(refs), Array(items))
    ensures Confined(m, m, n, Items(here, |items|)) && AllHold(m, n, here, [], refs, items, paths, |items|)
  {}

  lemma {:induction false} ItemHolds(m: Marked, n: nat, here: Address, refs: seq<Ref>, items: seq<Value>, rest: Path,
                                     tails: set<Path>, existing: seq<Ref>, i: nat) returns (m': Marked)
    requires Intact(m) && n <= |m.heap| && Denotes(m.heap, n, List(refs), Array(items)) && i < |items|
    requires RefsOk(|m.heap|, refs) && RefsOk(|m.heap|, existing) && refs[i].Map?
    requires Clean(Array(items), tails + {rest}) && rest != [] && [] !in tails
    requires LeftFor(m, n, here, existing, refs, items, tails, i)
    ensures refs[i].at < |RecordAt(m.heap, existing, i).heap| && Intact(m') && n <= |m'.heap|
    ensures Confined(m, m', n, Below(here + [Item(i)])) && RefsOk(|m'.heap|, refs) && RefsOk(|m'.heap|, existing)
    ensures Denotes(m'.heap, n, List(refs), Array(items)) && Denotes(m'.heap, n, refs[i], items[i])
    ensures LeftFor(m', n, here, existing, refs, items, tails, i + 1)
    ensures var record := RecordAt(m.heap, existing, i);
            && m'.heap == PutHeap(record.heap, refs[i].at, rest, record.at)
            && Holds(m', n, here + [Item(i)], Map(record.at), refs[i], items[i], tails + {rest})
    decreases |rest|, 1, 0
  {
    assert rest in tails + {rest} && items[i].Object? && Clean(items[i], tails + {rest});
    hide Clean, Valid, Covers, Holds, Confined, PutHeap, LeftFor, RecordAt, Tails;
    var record := RecordAt(m.heap, existing, i);
    var m1 := RecordHolds(m, n, here, existing, refs, items, tails, i);
    m' := PutHolds(m1, n, here + [Item(i)], refs[i].at, record.at, items[i].fields, rest, tails);
    BothBelow(m, m1, m', n, here, i, List(refs), Array(items));
    LeftForRest(m, m', n, here, existing, refs, items, tails, i);
    RefsOkMore(|m.heap|, |m'.heap|, refs);
    RefsOkMore(|m.heap|, |m'.heap|, existing);
  }

  lemma SameLength(h: Heap, n: nat, refs: seq<Ref>, items: seq<Value>)
    requires n <= |h| && Denotes(h, n, List(refs), Array(items))
    ensures |refs| == |items|
  {}

  /** What is no map is skipped. */
  lemma BroadcastSkip(h: Heap, items: seq<Ref>, rest: Path, existing: seq<Ref>, i: nat)
    requires Valid(h) && RefsOk(|h|, items) && RefsOk(|h|, existing) && i <= |items|
    ensures i == |items| ==> Broadcast(h, items, rest, existing, i) == Records(h, [])
    ensures i < |items| && !items[i].Map? ==>
              Broadcast(h, items, rest, existing, i) == Broadcast(h, items, rest, existing, i + 1)
  {}

  /** The first of the items from `i` on, and the rest. */
  lemma BroadcastStep(h: Heap, items: seq<Ref>, rest: Path, existing: seq<Ref>, i: nat, h1: Heap, later: Records)
    requires Valid(h) && RefsOk(|h|, items) && RefsOk(|h|, existing) && i < |items| && items[i].Map?
    requires items[i].at < |RecordAt(h, existing, i).heap|
    requires h1 == PutHeap(RecordAt(h, existing, i).heap, items[i].at, rest, RecordAt(h, existing, i).at)
    requires RefsOk(|h1|, items) && RefsOk(|h1|, existing) && later == Broadcast(h1, items, rest, existing, i + 1)
    ensures Broadcast(h, items, rest, existing, i) ==
            Records(later.heap, [Map(RecordAt(h, existing, i).at)] + later.items)
  {
    hide Valid, PutHeap, RecordAt;
  }

  lemma BothBelow(m: Marked, m1: Marked, m2: Marked, n: nat, here: Address, i: nat, source: Ref, v: Value)
    requires Confined(m, m1, n, Below(here + [Item(i)])) && Confined(m1, m2, n, Below(here + [Item(i)]))
    requires n <= |m.heap| && Denotes(m.heap, n, source, v)
    ensures Confined(m, m2, n, Below(here + [Item(i)])) && |m.heap| <= |m2.heap| && Intact(m2)
    ensures Denotes(m2.heap, n, source, v)
  {
    hide Valid, Covers;
    var at := Below(here + [Item(i)]);
    ConfinedBoth(m, m1, m2, n, at, at, at);
    SourceStays(m, m2, n, at, source, v);
  }

  lemma OneMoreHolds(m: Marked, m2: Marked, m': Marked, n: nat, here: Address, record: nat, later: seq<Ref>,
                     refs: seq<Ref>, items: seq<Value>, paths: set<Path>, i: nat)
    requires Confined(m, m2, n, Below(here + [Item(i)])) && Confined(m2, m', n, Items(here, i + 1))
    requires i < |items| && n <= |m2.heap|
    requires Denotes(m2.heap, n, List(refs), Array(items)) && Denotes(m'.heap, n, List(refs), Array(items))
    requires Holds(m2, n, here + [Item(i)], Map(record), refs[i], items[i], paths)
    requires AllHold(m', n, here, later, refs, items, paths, i + 1)
    ensures Confined(m, m', n, Items(here, i)) && AllHold(m', n, here, [Map(record)] + later, refs, items, paths, i)
  {
    hide Valid, Covers;
    ZoneFacts(here, "", "", i, i);
    ZoneFacts(here, "", "", i + 1, i);
    ConfinedBoth(m, m2, m', n, Below(here + [Item(i)]), Items(here, i + 1), Items(here, i));
    HoldsFrame(m2, m', n, Items(here, i + 1), here + [Item(i)], Map(record), refs[i], items[i], paths);
    var out := [Map(record)] + later;
    forall j | i <= j < |items| ensures Holds(m', n, here + [Item(j)], out[j - i], refs[j], items[j], paths) {
      if j > i { assert out[j - i] == later[j - (i + 1)]; }
    }
  }

  lemma RecordHolds(m: Marked, n: nat, here: Address, existing: seq<Ref>, refs: seq<Ref>, items: seq<Value>,
                    tails: set<Path>, i: nat) returns (m': Marked)
    requires Intact(m) && n <= |m.heap| && Denotes(m.heap, n, List(refs), Array(items))
    requires i < |items| && items[i].Object?
    requires RefsOk(|m.heap|, existing) && [] !in tails
    requires LeftFor(m, n, here, existing, refs, items, tails, i)
    ensures var record := RecordAt(m.heap, existing, i);
            && m'.heap == record.heap && Confined(m, m', n, Below(here + [Item(i)]))
            && Denotes(m'.heap, n, refs[i], items[i])
            && Holds(m', n, here + [Item(i)], Map(record.at), refs[i], items[i], tails)
  {
    var at := here + [Item(i)];
    hide Valid;
    if tails == {} {
      m' := Marked(Grown(m.heap), m.marks + [at]);
      KeepNothing(items[i].fields);
      assert Confined(m, m', n, Below(at));
      SourceStays(m, m', n, Below(at), refs[i], items[i]);
    } else {
      m' := m;
    }
  }

  lemma LeftForRest(m: Marked, m': Marked, n: nat, here: Address, existing: seq<Ref>, refs: seq<Ref>, items: seq<Value>,
                    tails: set<Path>, i: nat)
    requires Confined(m, m', n, Below(here + [Item(i)])) && i < |items|
    requires n <= |m.heap| && Denotes(m.heap, n, List(refs), Array(items))
    requires Denotes(m'.heap, n, List(refs), Array(items))
    requires LeftFor(m, n, here, existing, refs, items, tails, i)
    ensures LeftFor(m', n, here, existing, refs, items, tails, i + 1)
  {
    hide Valid, Covers, Shown, Tails;
    if tails != {} {
      forall j | i + 1 <= j < |items| ensures Holds(m', n, here + [Item(j)], existing[j], refs[j], items[j], tails) {
        ZoneFacts(here, "", "", i, j);
        HoldsFrame(m, m', n, Below(here + [Item(i)]), here + [Item(j)], existing[j], refs[j], items[j], tails);
      }
    }
  }

  // ------------------------------------------------------------ a path by itself

  /** Where a path leads in the source, over maps and array positions. */
  function Resolve(h: Heap, source: nat, path: Path): (r: Option<Ref>)
    requires Valid(h) && source < |h| && path != []
    ensures r.Some? ==> RefOk(|h|, r.value)
    decreases |path|, 1
  {
    if path[0] !in h[source] then None else
      assert CellOk(|h|, h[source]);
      ResolveField(h, h[source][path[0]], path[1..])
  }

  function ResolveField(h: Heap, next: Ref, rest: Path): (r: Option<Ref>)
    requires Valid(h) && RefOk(|h|, next)
    ensures r.Some? ==> RefOk(|h|, r.value)
    decreases |rest|, 2
  {
    if rest == [] then Some(next) else
      match next
      case Map(from) => Resolve(h, from, rest)
      case List(items) =>
        var index := Atoi(rest[0]);
        if index.None? || !(0 <= index.value < |items|) then None
        else if |rest| == 1 then Some(items[index.value])
        else if items[index.value].Map? then
          assert RefOk(|h|, items[index.value]);
          Resolve(h, items[index.value].at, rest[1..])
        else None
      case Atom(_) => None
  }

  /** What stands in the result under the segments of a path, each a key. */
  function Found(h: Heap, target: nat, path: Path): Option<Ref>
    requires Valid(h) && target < |h| && path != []
    decreases |path|
  {
    if path[0] !in h[target] then None
    else if |path| == 1 then Some(h[target][path[0]])
    else
      assert CellOk(|h|, h[target]);
      if h[target][path[0]].Map? then Found(h, h[target][path[0]].at, path[1..]) else None
  }

  /** The first `n` cells refer to each other only. */
  predicate Closed(h: Heap, n: nat) { n <= |h| && forall x :: 0 <= x < n ==> CellOk(n, h[x]) }

  lemma {:induction false} ResolveFrame(h: Heap, h': Heap, n: nat, next: Ref, rest: Path)
    requires Valid(h) && Valid(h') && Closed(h, n) && n <= |h'| && h'[..n] == h[..n] && RefOk(n, next)
    ensures RefOk(|h|, next) && RefOk(|h'|, next) && ResolveField(h', next, rest) == ResolveField(h, next, rest)
    decreases |rest|
  {
    RefOkMore(n, |h|, next);
    RefOkMore(n, |h'|, next);
    if rest != [] {
      if next.Map? { ResolveInto(h, h', n, next.at, rest); }
      if next.List? && |rest| > 1 && Atoi(rest[0]).Some? && 0 <= Atoi(rest[0]).value < |next.items| {
        var item := next.items[Atoi(rest[0]).value];
        if item.Map? { ResolveInto(h, h', n, item.at, rest[1..]); }
      }
    }
  }

  lemma {:induction false} ResolveInto(h: Heap, h': Heap, n: nat, source: nat, path: Path)
    requires Valid(h) && Valid(h') && Closed(h, n) && n <= |h'| && h'[..n] == h[..n] && source < n && path != []
    ensures Resolve(h', source, path) == Resolve(h, source, path)
    decreases |path|, 0
  {
    assert h[source] == h[..n][source] == h'[source] && CellOk(n, h[source]);
    if path[0] in h[source] { ResolveFrame(h, h', n, h[source][path[0]], path[1..]); }
  }

  lemma FreshChild(h: Heap, n: nat, target: nat, key: string)
    requires Valid(h) && Closed(h, n) && n <= target < |h| && h[target] == map[]
    ensures var p := ChildAt(h, target, key);
            && p.at == |h| && |p.heap| == |h| + 1 && p.heap[|h|] == map[] && p.heap[target] == map[key := Map(|h|)]
            && (forall x :: 0 <= x < |h| && x != target ==> p.heap[x] == h[x])
            && Closed(p.heap, n) && p.heap[..n] == h[..n]
  {
    hide Valid, RefOk;
  }

  /** A path put by itself: what it leads to in the source, an array position being a step
      like any other, is found under its segments in the result, and no old cell but the
      target is written. */
  lemma {:induction false} PathFound(h: Heap, n: nat, source: nat, path: Path, target: nat)
    requires Valid(h) && Closed(h, n) && source < n <= target < |h| && path != [] && h[target] == map[]
    requires Resolve(h, source, path).Some?
    ensures var h' := PutHeap(h, source, path, target);
            && Found(h', target, path) == Resolve(h, source, path)
            && forall x :: 0 <= x < |h| && x != target ==> h'[x] == h[x]
    decreases |path|, 0
  {
    hide Valid, PutField, Found;
    CellIsOk(h, source);
    FieldFound(h, n, h[source][path[0]], path, target);
  }

  lemma {:induction false} FieldFound(h: Heap, n: nat, next: Ref, path: Path, target: nat)
    requires Valid(h) && Closed(h, n) && n <= target < |h| && path != [] && h[target] == map[]
    requires RefOk(n, next) && RefOk(|h|, next) && ResolveField(h, next, path[1..]).Some?
    ensures var h' := PutField(h, next, path[1..], target, path[0]);
            && Found(h', target, path) == ResolveField(h, next, path[1..])
            && forall x :: 0 <= x < |h| && x != target ==> h'[x] == h[x]
    decreases |path| - 1, 2
  {
    var key, rest := path[0], path[1..];
    if rest != [] {
      FreshChild(h, n, target, key);
      var h1 := ChildAt(h, target, key).heap;
      ResolveFrame(h, h1, n, next, rest);
      if next.Map? {
        hide Valid, CellOk, ChildAt;
        PathFound(h1, n, next.at, rest, |h|);
      } else {
        ItemFound(h, n, next.items, path, target);
      }
    }
  }

  lemma {:induction false} ItemFound(h: Heap, n: nat, items: seq<Ref>, path: Path, target: nat)
    requires Valid(h) && Closed(h, n) && n <= target < |h| && |path| > 1 && h[target] == map[]
    requires RefOk(n, List(items)) && RefOk(|h|, List(items)) && Atoi(path[1]).Some?
    requires ResolveField(h, List(items), path[1..]).Some?
    ensures var h' := PutIndex(h, items, path[1..], Atoi(path[1]).value, target, path[0]);
            && Found(h', target, path) == ResolveField(h, List(items), path[1..])
            && forall x :: 0 <= x < |h| && x != target ==> h'[x] == h[x]
    decreases |path| - 1, 1
  {
    var key, rest := path[0], path[1..];
    FreshChild(h, n, target, key);
    var h1 := ChildAt(h, target, key).heap;
    var item := items[Atoi(rest[0]).value];
    if |rest| > 1 {
      FreshChild(h1, n, |h|, rest[0]);
      var h2 := ChildAt(h1, |h|, rest[0]).heap;
      ResolveInto(h, h2, n, item.at, rest[1..]);
      hide Valid, CellOk, ChildAt;
      PathFound(h2, n, item.at, rest[1..], |h1|);
    }
  }
}
