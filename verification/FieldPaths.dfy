/** Field paths and the projection of a value by a set of them.

    A path asks for everything below the field it names. Array positions are no part of a
    path, so a path that meets an array goes on in each of its items. */
module FieldPaths {
  import opened Decimal
  import opened JsonMemory
  import opened Options
  import opened Payload
  import opened Text

  type Path = seq<string>

  function Tails(paths: set<Path>, key: string): set<Path> {
    set p | p in paths && p != [] && p[0] == key :: p[1..]
  }

  predicate Shown(v: Value, tails: set<Path>) {
    tails != {} && ([] in tails || v.Object? || v.Array?)
  }

  /** The declarative projection of a value by a set of paths. */
  function Keep(v: Value, paths: set<Path>): Value
    decreases v
  {
    if [] in paths then v else
      match v
      case Object(fields) =>
        Object(map k | k in fields && Shown(fields[k], Tails(paths, k)) :: Keep(fields[k], Tails(paths, k)))
      case Array(items) => Array(seq(|items|, i requires 0 <= i < |items| => Keep(items[i], paths)))
      case _ => v
  }

  /** The part of a map that some path asks for. */
  function KeepFields(fields: Payload, paths: set<Path>): Payload {
    map k | k in fields && Shown(fields[k], Tails(paths, k)) :: Keep(fields[k], Tails(paths, k))
  }

  /** Where a path goes on below an array, the array holds objects only and the segment is
      no number. */
  ghost predicate Clean(v: Value, paths: set<Path>)
    decreases v
  {
    match v
    case Object(fields) => forall k :: k in fields ==> Clean(fields[k], Tails(paths, k))
    case Array(items) =>
      && (forall p :: p in paths && p != [] ==> Atoi(p[0]).None?)
      && forall i :: 0 <= i < |items| ==>
           ((exists p :: p in paths && p != []) ==> items[i].Object?) && Clean(items[i], paths)
    case _ => true
  }

  // ------------------------------------------------------------ path algebra

  lemma TailsAdd(paths: set<Path>, path: Path, key: string)
    requires path != []
    ensures Tails(paths + {path}, key) ==
            if path[0] == key then Tails(paths, key) + {path[1..]} else Tails(paths, key)
  {
    var l := Tails(paths + {path}, key);
    var r := if path[0] == key then Tails(paths, key) + {path[1..]} else Tails(paths, key);
    forall q | q in r ensures q in l {
      if q in Tails(paths, key) {
        var p :| p in paths && p != [] && p[0] == key && p[1..] == q;
        assert p in paths + {path};
      } else {
        assert path in paths + {path};
      }
    }
  }

  lemma TailsMono(a: set<Path>, b: set<Path>, key: string)
    requires a <= b
    ensures Tails(a, key) <= Tails(b, key)
  {}

  lemma {:induction false} CleanMono(v: Value, a: set<Path>, b: set<Path>)
    requires a <= b && Clean(v, b)
    ensures Clean(v, a)
    decreases v
  {
    match v
    case Object(fields) =>
      forall k | k in fields ensures Clean(fields[k], Tails(a, k)) {
        TailsMono(a, b, k);
        CleanMono(fields[k], Tails(a, k), Tails(b, k));
      }
    case Array(items) =>
      forall i | 0 <= i < |items| ensures Clean(items[i], a) { CleanMono(items[i], a, b); }
    case _ =>
  }

  lemma {:induction false} CleanNothing(v: Value, paths: set<Path>)
    requires forall p :: p in paths ==> p == []
    ensures Clean(v, paths)
    decreases v
  {
    match v
    case Object(fields) =>
      forall k | k in fields ensures Clean(fields[k], Tails(paths, k)) { CleanNothing(fields[k], Tails(paths, k)); }
    case Array(items) => forall i | 0 <= i < |items| ensures Clean(items[i], paths) { CleanNothing(items[i], paths); }
    case _ =>
  }

  lemma TailsOne(path: Path, key: string)
    requires path != []
    ensures Tails({path}, key) == if path[0] == key then {path[1..]} else {}
  {
    TailsAdd({}, path, key);
    assert {} + {path} == {path} && Tails({}, key) == {};
    assert Tails({}, key) + {path[1..]} == {path[1..]};
  }

  /** Paths are clean together exactly if each is. */
  lemma {:induction false} CleanEach(v: Value, paths: set<Path>)
    ensures Clean(v, paths) <==> forall p :: p in paths ==> Clean(v, {p})
    decreases v
  {
    if Clean(v, paths) {
      forall p | p in paths ensures Clean(v, {p}) { CleanMono(v, {p}, paths); }
    }
    if forall p :: p in paths ==> Clean(v, {p}) { CleanTogether(v, paths); }
  }

  lemma {:induction false} CleanTogether(v: Value, paths: set<Path>)
    requires forall p :: p in paths ==> Clean(v, {p})
    ensures Clean(v, paths)
    decreases v
  {
    match v
    case Object(fields) =>
      forall k | k in fields ensures Clean(fields[k], Tails(paths, k)) {
        forall q | q in Tails(paths, k) ensures Clean(fields[k], {q}) {
          var p :| p in paths && p != [] && p[0] == k && p[1..] == q;
          TailsOne(p, k);
          assert Clean(v, {p});
        }
        CleanTogether(fields[k], Tails(paths, k));
      }
    case Array(items) =>
      forall p | p in paths && p != [] ensures Atoi(p[0]).None? {
        assert Clean(v, {p}) && p in {p};
      }
      forall i | 0 <= i < |items|
        ensures ((exists p :: p in paths && p != []) ==> items[i].Object?) && Clean(items[i], paths) {
        if p :| p in paths && p != [] { assert Clean(v, {p}) && p in {p}; }
        forall p | p in paths ensures Clean(items[i], {p}) { assert Clean(v, {p}); }
        CleanTogether(items[i], paths);
      }
    case _ =>
  }

  lemma KeepNothing(fields: Payload)
    ensures KeepFields(fields, {}) == map[]
  {
    assert forall k :: Tails({}, k) == {};
  }

  // ----------------------------------------------------------- selected data

  function Paths(select: seq<string>): (paths: seq<Path>)
    ensures |paths| == |select| && forall i :: 0 <= i < |paths| ==> paths[i] == Split(select[i], '.')
  {
    seq(|select|, i requires 0 <= i < |select| => Split(select[i], '.'))
  }

  function PathSet(paths: seq<Path>): set<Path> { set p | p in paths }

  /** The projection by a set of paths; a list at the top is projected item by item. */
  function KeepTop(v: Value, paths: set<Path>): Value
    decreases v
  {
    match v
    case Object(fields) => Object(KeepFields(fields, paths))
    case Array(items) => Array(seq(|items|, i requires 0 <= i < |items| => KeepTop(items[i], paths)))
    case _ => v
  }

  ghost predicate CleanTop(v: Value, paths: set<Path>)
    decreases v
  {
    match v
    case Object(_) => Clean(v, paths)
    case Array(items) => forall i :: 0 <= i < |items| ==> CleanTop(items[i], paths)
    case _ => true
  }

  lemma {:induction false} CleanTopEach(v: Value, paths: set<Path>)
    ensures CleanTop(v, paths) <==> forall p :: p in paths ==> CleanTop(v, {p})
    decreases v
  {
    match v
    case Object(_) => CleanEach(v, paths);
    case Array(items) =>
      forall i | 0 <= i < |items|
        ensures CleanTop(items[i], paths) <==> forall p :: p in paths ==> CleanTop(items[i], {p}) {
        CleanTopEach(items[i], paths);
      }
      if forall p :: p in paths ==> CleanTop(v, {p}) {
        forall i | 0 <= i < |items| ensures CleanTop(items[i], paths) {
          forall p | p in paths ensures CleanTop(items[i], {p}) { assert CleanTop(v, {p}); }
        }
      }
    case _ =>
  }

  lemma NoEmptyPath(paths: seq<Path>)
    requires [] !in paths
    ensures [] !in PathSet(paths)
  {}

  lemma LastOfSet(paths: seq<Path>)
    requires paths != []
    ensures PathSet(paths) == PathSet(paths[..|paths| - 1]) + {paths[|paths| - 1]}
  {
    assert paths == paths[..|paths| - 1] + [paths[|paths| - 1]];
  }

  lemma SamePaths(a: seq<string>, b: seq<string>)
    requires forall e :: e in a ==> e in b
    ensures PathSet(Paths(a)) <= PathSet(Paths(b))
  {
    forall p | p in Paths(a) ensures p in Paths(b) {
      var i :| 0 <= i < |a| && Split(a[i], '.') == p;
      assert a[i] in b;
      var j :| 0 <= j < |b| && b[j] == a[i];
      assert Paths(b)[j] == p;
    }
  }

  // ------------------------------------------------- what a projection keeps

  lemma {:induction false} KeepTwice(v: Value, paths: set<Path>)
    requires Clean(v, paths)
    ensures Keep(Keep(v, paths), paths) == Keep(v, paths) && Clean(Keep(v, paths), paths)
    decreases v
  {
    if [] !in paths {
      match v
      case Object(fields) =>
        hide Tails;
        var once := KeepFields(fields, paths);
        forall k | k in once
          ensures Shown(once[k], Tails(paths, k)) && Keep(once[k], Tails(paths, k)) == once[k]
                  && Clean(once[k], Tails(paths, k)) {
          KeepTwice(fields[k], Tails(paths, k));
        }
        assert KeepFields(once, paths) == once;
      case Array(items) =>
        var once := Keep(v, paths).items;
        forall i | 0 <= i < |items|
          ensures Keep(once[i], paths) == once[i] && Clean(once[i], paths) && (items[i].Object? ==> once[i].Object?) {
          KeepTwice(items[i], paths);
        }
        assert Keep(Array(once), paths).items == once;
      case _ =>
    }
  }

  lemma {:induction false} KeepTopTwice(v: Value, paths: set<Path>)
    requires [] !in paths && CleanTop(v, paths)
    ensures KeepTop(KeepTop(v, paths), paths) == KeepTop(v, paths) && CleanTop(KeepTop(v, paths), paths)
    decreases v
  {
    match v
    case Object(fields) =>
      KeepTwice(v, paths);
      assert Keep(v, paths) == KeepTop(v, paths);
    case Array(items) =>
      hide KeepFields, Clean;
      var once := KeepTop(v, paths).items;
      forall i | 0 <= i < |items| ensures KeepTop(once[i], paths) == once[i] && CleanTop(once[i], paths) {
        KeepTopTwice(items[i], paths);
      }
      assert KeepTop(Array(once), paths).items == once;
    case _ =>
  }

  function At(v: Value, address: Address): Option<Value> {
    if address == [] then Some(v) else
      match address[0]
      case Field(name) => if v.Object? && name in v.fields then At(v.fields[name], address[1..]) else None
      case Item(index) => if v.Array? && index < |v.items| then At(v.items[index], address[1..]) else None
  }

  /** The field names of an address, array positions dropped. */
  function Names(address: Address): Path {
    if address == [] then []
    else (if address[0].Field? then [address[0].name] else []) + Names(address[1..])
  }

  /** Some path leads to the address or to something around it. */
  ghost predicate Covered(paths: set<Path>, names: Path) {
    exists p :: p in paths && p <= names
  }

  lemma CoveredStep(paths: set<Path>, names: Path)
    requires [] !in paths && names != []
    ensures Covered(paths, names) <==> Covered(Tails(paths, names[0]), names[1..])
  {
    if Covered(paths, names) {
      var p :| p in paths && p <= names;
      assert p[1..] in Tails(paths, names[0]) && p[1..] <= names[1..];
    }
    if Covered(Tails(paths, names[0]), names[1..]) {
      var q :| q in Tails(paths, names[0]) && q <= names[1..];
      var p :| p in paths && p != [] && p[0] == names[0] && p[1..] == q;
      assert p <= names;
    }
  }

  lemma {:induction false} LeafKept(v: Value, paths: set<Path>, address: Address)
    requires Clean(v, paths) && paths != {} && (IsLeaf(v) ==> [] in paths)
    requires At(v, address).Some? && IsLeaf(At(v, address).value)
    ensures At(Keep(v, paths), address) == if Covered(paths, Names(address)) then At(v, address) else None
    decreases |address|
  {
    if [] in paths {
      assert [] <= Names(address);
    } else {
      assert address != [];
      if address[0].Field? {
        var name := address[0].name;
        var next, tails := v.fields[name], Tails(paths, name);
        CoveredStep(paths, Names(address));
        assert Names(address)[1..] == Names(address[1..]);
        if Shown(next, tails) {
          LeafKept(next, tails, address[1..]);
        } else if tails != {} {
          LeafNotCovered(tails, address[1..]);
        }
      } else {
        var p :| p in paths;
        assert p in paths && p != [];
        LeafKept(v.items[address[0].index], paths, address[1..]);
      }
    }
  }

  lemma LeafNotCovered(paths: set<Path>, address: Address)
    requires [] !in paths && address == []
    ensures !Covered(paths, Names(address))
  {}

  lemma {:induction false} LeafKeptTop(v: Value, paths: set<Path>, address: Address)
    requires [] !in paths && paths != {} && CleanTop(v, paths)
    requires At(v, address).Some? && IsLeaf(At(v, address).value)
    ensures At(KeepTop(v, paths), address) ==
            if Names(address) == [] || Covered(paths, Names(address)) then At(v, address) else None
    decreases |address|
  {
    match v
    case Object(fields) =>
      LeafKept(v, paths, address);
      assert KeepTop(v, paths) == Keep(v, paths);
    case Array(items) => LeafKeptTop(items[address[0].index], paths, address[1..]);
    case _ =>
  }

  /** Every part of the result is, at the same address, part of the source. */
  ghost predicate Within(a: Value, b: Value)
    decreases a
  {
    match a
    case Object(fields) => b.Object? && forall k :: k in fields ==> k in b.fields && Within(fields[k], b.fields[k])
    case Array(items) =>
      b.Array? && |items| == |b.items| && forall i :: 0 <= i < |items| ==> Within(items[i], b.items[i])
    case _ => a == b
  }

  lemma {:induction false} WithinItself(v: Value)
    ensures Within(v, v)
    decreases v
  {
    match v
    case Object(fields) => forall k | k in fields ensures Within(fields[k], fields[k]) { WithinItself(fields[k]); }
    case Array(items) => forall i | 0 <= i < |items| ensures Within(items[i], items[i]) { WithinItself(items[i]); }
    case _ =>
  }

  lemma {:induction false} KeepWithin(v: Value, paths: set<Path>)
    ensures Within(Keep(v, paths), v)
    decreases v
  {
    if [] in paths {
      WithinItself(v);
    } else {
      match v
      case Object(fields) =>
        forall k | k in KeepFields(fields, paths) ensures Within(KeepFields(fields, paths)[k], fields[k]) {
          KeepWithin(fields[k], Tails(paths, k));
        }
      case Array(items) =>
        forall i | 0 <= i < |items| ensures Within(Keep(items[i], paths), items[i]) { KeepWithin(items[i], paths); }
      case _ =>
    }
  }

  lemma {:induction false} KeepTopWithin(v: Value, paths: set<Path>)
    requires [] !in paths
    ensures Within(KeepTop(v, paths), v)
    decreases v
  {
    match v
    case Object(fields) =>
      KeepWithin(v, paths);
      assert KeepTop(v, paths) == Keep(v, paths);
    case Array(items) =>
      forall i | 0 <= i < |items| ensures Within(KeepTop(items[i], paths), items[i]) { KeepTopWithin(items[i], paths); }
    case _ =>
  }
}
