/** `--params` and `--set` folded into the flags of a parsed command, and the spelling of
    structured flag names. */
module Params {
  import opened JsonMemory
  import opened Options
  import opened Payload
  import opened Text

  // ---------------------------------------------------------------- nested fields

  /** The target with a value at a path, maps made on the way. */
  function SetAt(target: Payload, path: seq<string>, value: Value): Payload
    requires path != []
    decreases |path|
  {
    if |path| == 1 then target[path[0] := value]
    else target[path[0] := Object(SetAt(FieldsAt(target, path[0]), path[1..], value))]
  }

  /** The memory after `setNestedField`. */
  function SetHeap(h: Heap, target: nat, path: seq<string>, value: Ref): (h': Heap)
    requires path != [] && Valid(h) && target < |h| && RefOk(|h|, value)
    ensures Valid(h') && |h| <= |h'|
    decreases |path|
  {
    if |path| == 1 then Written(h, target, path[0], value)
    else
      var next := ChildAt(h, target, path[0]);
      RefOkMore(|h|, |next.heap|, value);
      SetHeap(next.heap, next.at, path[1..], value)
  }

  /** On a tree that is the target with the value at the path. */
  lemma {:induction false} SetTree(m: Marked, here: Address, target: nat, fields: Payload, path: seq<string>,
                                   value: Value)
    returns (m': Marked)
    requires path != [] && Intact(m) && Tree(m, here, Map(target), Object(fields)) && IsLeaf(value)
    ensures m'.heap == SetHeap(m.heap, target, path, Atom(value)) && Confined(m, m', 0, Below(here))
    ensures Tree(m', here, Map(target), Object(SetAt(fields, path, value)))
    decreases |path|
  {
    hide Valid, Covers;
    var key := path[0];
    ZoneFacts(here, key, key, 0, 0);
    if |path| == 1 {
      m' := Marked(Written(m.heap, target, key, Atom(value)), m.marks);
      WriteConfined(m, 0, target, key, Atom(value));
      ConfinedWider(m, m', 0, Only(here), Entry(here, key));
      TreeEntry(m, m', here, target, fields, key, Atom(value), value);
      ConfinedWider(m, m', 0, Entry(here, key), Below(here));
    } else {
      var next := ChildAt(m.heap, target, key);
      var m1 := ChildConfined(m, 0, target, key);
      assert m1.heap[target] == m.heap[target][key := Map(next.at)];
      ChildTree(m, m1, here, target, fields, key);
      var child := FieldsAt(fields, key);
      m' := SetTree(m1, here + [Field(key)], next.at, child, path[1..], value);
      ConfinedBoth(m, m1, m', 0, Entry(here, key), Below(here + [Field(key)]), Entry(here, key));
      AboveStays(m1, m', 0, here, Field(key), target);
      ConfinedWider(m, m', 0, Entry(here, key), Below(here));
      TreeEntry(m, m', here, target, fields, key, Map(next.at), Object(SetAt(child, path[1..], value)));
    }
  }

  lemma ChildTree(m: Marked, m': Marked, here: Address, t: nat, fields: Payload, key: string)
    requires Intact(m) && Intact(m') && Tree(m, here, Map(t), Object(fields))
    requires if key in m.heap[t] && m.heap[t][key].Map? then m' == m
             else m'.heap == ChildAt(m.heap, t, key).heap
                  && m'.heap[|m.heap|] == map[] && m'.marks[|m.heap|] == here + [Field(key)]
    ensures Tree(m', here + [Field(key)], Map(ChildAt(m.heap, t, key).at), Object(FieldsAt(fields, key)))
  {
    hide Valid;
  }

  /** `setNestedField`: the walk down the maps, made where there are none, and the write. */
  method SetNestedField(mem: Memory, target: nat, path: seq<string>, value: Leaf)
    requires path != [] && Valid(mem.cells) && target < |mem.cells|
    modifies mem
    ensures mem.cells == SetHeap(old(mem.cells), target, path, Atom(value))
    ensures forall fields :: IsTree(old(mem.cells), target, fields) ==>
                               IsTree(mem.cells, target, SetAt(fields, path, value))
  {
    hide Valid, IsTree;
    var current: nat, index := target, 0;
    assert path[0..] == path;
    while index < |path| - 1
      invariant index < |path| && Valid(mem.cells) && current < |mem.cells|
      invariant SetHeap(mem.cells, current, path[index..], Atom(value)) ==
                SetHeap(old(mem.cells), target, path, Atom(value))
    {
      assert path[index..][1..] == path[index + 1..];
      current := mem.Child(current, path[index]);
      index := index + 1;
    }
    mem.Set(current, path[index], Atom(value));
    forall fields | IsTree(old(mem.cells), target, fields)
      ensures IsTree(mem.cells, target, SetAt(fields, path, value)) {
      SetIsTree(old(mem.cells), target, fields, path, value);
    }
  }

  lemma SetIsTree(h: Heap, target: nat, fields: Payload, path: seq<string>, value: Leaf)
    requires path != [] && Valid(h) && target < |h| && IsTree(h, target, fields)
    ensures IsTree(SetHeap(h, target, path, Atom(value)), target, SetAt(fields, path, value))
  {
    hide Valid, SetHeap, SetAt;
    var marks :| Intact(Marked(h, marks)) && Tree(Marked(h, marks), [], Map(target), Object(fields));
    var m' := SetTree(Marked(h, marks), [], target, fields, path, value);
    assert Marked(m'.heap, m'.marks) == m';
  }

  /** What is at a path. */
  function Get(fields: Payload, path: seq<string>): Option<Value>
    requires path != []
    decreases |path|
  {
    if path[0] !in fields then None
    else if |path| == 1 then Some(fields[path[0]])
    else if fields[path[0]].Object? then Get(fields[path[0]].fields, path[1..])
    else None
  }

  predicate Related(a: seq<string>, b: seq<string>) { a <= b || b <= a }

  /** A value set is there; what is at a path neither above nor below it stays. */
  lemma {:induction false} SetThenGet(target: Payload, path: seq<string>, value: Value, other: seq<string>)
    requires path != [] && other != []
    ensures Get(SetAt(target, path, value), path) == Some(value)
    ensures !Related(path, other) ==> Get(SetAt(target, path, value), other) == Get(target, other)
    decreases |path|
  {
    if |path| > 1 {
      var child := FieldsAt(target, path[0]);
      if |other| > 1 && other[0] == path[0] {
        SetThenGet(child, path[1..], value, other[1..]);
        assert path == [path[0]] + path[1..] && other == [other[0]] + other[1..];
        if Related(path[1..], other[1..]) { assert Related(path, other); }
      } else {
        SetThenGet(child, path[1..], value, path[1..]);
        if other[0] == path[0] { assert other <= path; }
      }
    } else if other[0] == path[0] {
      assert path <= other;
    }
  }

  // ------------------------------------------------------------- --set and --params

  datatype Assignment = Assignment(path: seq<string>, value: string)

  /** `parseSetKV`. */
  function ParseSetKV(item: string): (a: Option<Assignment>)
    ensures a.Some? ==> a.value.path != []
  {
    var cut := CutAt(item, '=');
    if !cut.found || TrimSpace(cut.before) == "" then None else Some(Assignment(Split(cut.before, '.'), cut.after))
  }

  /** What decoding a JSON text into a map gives. JSON `null` leaves no map at all. */
  datatype Decoded = NotJson | Null | Fields(fields: Payload)

  /** What the surroundings supply: the decoder, the files and the type inference. */
  datatype World = World(decode: string -> Decoded, readFile: string -> Option<string>, infer: string -> Leaf)

  /** A flag value: JSON, or the list of strings a repeatable flag collects. */
  datatype FlagValue = Json(value: Ref) | Strings(items: seq<string>)

  type FlagMap = map<string, FlagValue>

  datatype Outcome = Done | Failed(error: Error) | Panicked

  datatype Error = EmptyPath | Unreadable | InvalidJson | BadSet(item: string)

  function ParamsText(flags: FlagMap): Option<string> {
    if "params" in flags && flags["params"].Json? && flags["params"].value.Atom? && flags["params"].value.leaf.Text?
       && TrimSpace(flags["params"].value.leaf.text) != "" then Some(flags["params"].value.leaf.text)
    else None
  }

  function SetItems(flags: FlagMap): seq<string> {
    if "set" in flags && flags["set"].Strings? then flags["set"].items else []
  }

  /** `resolveParamsPayload`: the text, or the file after `@`. */
  function ParamsPayload(world: World, raw: string): Option<string> {
    if !HasPrefix(raw, '@') then Some(raw)
    else if TrimSpace(raw[1..]) == "" then None
    else world.readFile(raw[1..])
  }

  /** What `--params` contributes; nothing given is the empty map. */
  function Base(world: World, flags: FlagMap): Option<Decoded> {
    match ParamsText(flags)
    case None => Some(Fields(map[]))
    case Some(raw) =>
      if ParamsPayload(world, raw).None? then None else Some(world.decode(ParamsPayload(world, raw).value))
  }

  predicate SetsOk(items: seq<string>) {
    forall i :: 0 <= i < |items| ==> ParseSetKV(items[i]).Some?
  }

  /** The `--set` items on top of a map, in order. */
  function ApplySets(world: World, base: Payload, items: seq<string>): Payload
    requires SetsOk(items)
  {
    if items == [] then base else
      var n := |items| - 1;
      var a := ParseSetKV(items[n]).value;
      SetAt(ApplySets(world, base, items[..n]), a.path, world.infer(a.value))
  }

  /** The map that `--params` and `--set` make together. */
  function Contribution(world: World, flags: FlagMap): Payload
    requires SetsOk(SetItems(flags))
  {
    var base := Base(world, flags);
    ApplySets(world, if base.Some? && base.value.Fields? then base.value.fields else map[], SetItems(flags))
  }

  /** A parsed command's flags and those the user gave, whatever a flag's value is. */
  class ParsedCommand<V> {
    var flags: map<string, V>
    var explicit: map<string, V>

    constructor (flags: map<string, V>, explicit: map<string, V>)
      ensures this.flags == flags && this.explicit == explicit
    {
      this.flags, this.explicit := flags, explicit;
    }
  }

  /** The entries of `merged` that are not explicit, on top of `m`. */
  function Promote(m: FlagMap, explicit: FlagMap, merged: Cell): (r: FlagMap)
    ensures r.Keys == m.Keys + (merged.Keys - explicit.Keys)
  {
    map k | k in m.Keys + (merged.Keys - explicit.Keys) ::
      if k in merged && k !in explicit then Json(merged[k]) else m[k]
  }

  /** What is wrong with `--params` or with the first `--set` item that is no assignment. */
  ghost predicate Explains(world: World, flags: FlagMap, error: Error) {
    match error
    case EmptyPath =>
      ParamsText(flags).Some? && HasPrefix(ParamsText(flags).value, '@')
      && TrimSpace(ParamsText(flags).value[1..]) == ""
    case Unreadable =>
      ParamsText(flags).Some? && HasPrefix(ParamsText(flags).value, '@')
      && TrimSpace(ParamsText(flags).value[1..]) != "" && world.readFile(ParamsText(flags).value[1..]).None?
    case InvalidJson => Base(world, flags) == Some(NotJson)
    case BadSet(item) => FirstBad(SetItems(flags), item)
  }

  ghost predicate FirstBad(items: seq<string>, item: string) {
    exists k :: 0 <= k < |items| && items[k] == item && ParseSetKV(item).None? && SetsOk(items[..k])
  }

  method ResolveParams(world: World, flags: FlagMap) returns (base: Option<Decoded>, error: Option<Error>)
    ensures base == Base(world, flags) && (error.None? <==> base.Some? && !base.value.NotJson?)
    ensures error.Some? ==> Explains(world, flags, error.value) && !error.value.BadSet?
  {
    var text := ParamsText(flags);
    if text.None? { return Some(Fields(map[])), None; }
    if HasPrefix(text.value, '@') && TrimSpace(text.value[1..]) == "" { return None, Some(EmptyPath); }
    var payload := ParamsPayload(world, text.value);
    if payload.None? { return None, Some(Unreadable); }
    base := Some(world.decode(payload.value));
    error := if base.value.NotJson? then Some(InvalidJson) else None;
  }

  datatype Verdict = WillMerge | WillFail | WillPanic

  /** How a merge ends: `--set` items on top of a JSON `null` write into no map. */
  function Judge(world: World, flags: FlagMap): Verdict {
    var base, items := Base(world, flags), SetItems(flags);
    if base.None? || base.value.NotJson? then WillFail
    else if base.value.Null? && items != [] then if ParseSetKV(items[0]).None? then WillFail else WillPanic
    else if SetsOk(items) then WillMerge
    else WillFail
  }

  /** The loop over the `--set` items. */
  method CollectSets(world: World, mem: Memory, merged: nat, items: seq<string>, ghost base: Payload)
    returns (bad: Option<string>)
    requires IsTree(mem.cells, merged, base)
    modifies mem
    ensures bad.None? <==> SetsOk(items)
    ensures bad.None? ==> IsTree(mem.cells, merged, ApplySets(world, base, items))
    ensures bad.Some? ==> FirstBad(items, bad.value)
  {
    hide ParseSetKV, SetAt, SetHeap, IsTree;
    for k := 0 to |items|
      invariant SetsOk(items[..k]) && IsTree(mem.cells, merged, ApplySets(world, base, items[..k]))
    {
      var parsed := ParseSetKV(items[k]);
      if parsed.None? { return Some(items[k]); }
      assert items[..k + 1][..k] == items[..k];
      TreeOf(mem.cells, merged, ApplySets(world, base, items[..k]));
      SetNestedField(mem, merged, parsed.value.path, world.infer(parsed.value.value));
    }
    assert items[..|items|] == items;
    bad := None;
  }

  /** What the decoder made of `--params`, if anything, is in the memory. */
  ghost predicate DecodedAt(world: World, flags: FlagMap, h: Heap, at: nat) {
    var base := Base(world, flags);
    ParamsText(flags).Some? && base.Some? && base.value.Fields? ==> IsTree(h, at, base.value.fields)
  }

  /** What `MergeStructuredParams` makes of the flags: a map in memory that holds what
      `--params` and `--set` contribute, and the entries of it that were not explicit. */
  ghost predicate Merged(world: World, flags: FlagMap, explicit: FlagMap, h: Heap, at: nat, p: ParsedCommand<FlagValue>)
    requires SetsOk(SetItems(flags))
    reads p
  {
    && at < |h| && IsTree(h, at, Contribution(world, flags))
    && p.explicit == Promote(explicit, explicit, h[at])
    && p.flags == Promote(flags, explicit, h[at]) - {"params", "set"}
  }

  /** `MergeStructuredParams`. Where the decoder has put its map is part of its answer. */
  method MergeStructuredParams(world: World, p: ParsedCommand<FlagValue>, mem: Memory, decoded: nat)
    returns (outcome: Outcome)
    requires Valid(mem.cells) && DecodedAt(world, p.flags, mem.cells, decoded)
    modifies p, mem
    ensures match Judge(world, old(p.flags))
            case WillMerge => outcome.Done?
            case WillFail => outcome.Failed?
            case WillPanic => outcome.Panicked?
    ensures outcome.Failed? ==> Explains(world, old(p.flags), outcome.error)
    ensures !outcome.Done? ==> p.flags == old(p.flags) && p.explicit == old(p.explicit)
    ensures outcome.Done? ==> exists at :: Merged(world, old(p.flags), old(p.explicit), mem.cells, at, p)
  {
    hide ParseSetKV, Base, ApplySets, SetsOk, SetItems, Promote, IsTree, ParamsText;
    var base, error := ResolveParams(world, p.flags);
    if error.Some? { return Failed(error.value); }
    var items := SetItems(p.flags);
    if base.value.Null? && |items| > 0 {
      assert items[..0] == [];
      NoSets();
      return if ParseSetKV(items[0]).None? then Failed(BadSet(items[0])) else Panicked;
    }
    NoSets();
    ghost var start := if base.value.Fields? then base.value.fields else map[];
    var merged := decoded;
    if ParamsText(p.flags).None? || base.value.Null? {
      NewTree(mem.cells);
      merged := mem.New();
    }
    StartOf(world, p.flags);
    var bad := CollectSets(world, mem, merged, items, start);
    if bad.Some? { return Failed(BadSet(bad.value)); }
    TreeOf(mem.cells, merged, ApplySets(world, start, items));
    PromoteAll(p, mem.cells[merged]);
    p.flags := p.flags - {"params", "set"};
    assert Merged(world, old(p.flags), old(p.explicit), mem.cells, merged, p);
    outcome := Done;
  }

  lemma StartOf(world: World, flags: FlagMap)
    ensures ParamsText(flags).None? ==> Base(world, flags) == Some(Fields(map[]))
  {}

  lemma NoSets()
    ensures SetsOk([])
  {}

  /** The loop over the merged map, in whatever order it is ranged over. */
  method PromoteAll(p: ParsedCommand<FlagValue>, merged: Cell)
    modifies p
    ensures p.explicit == Promote(old(p.explicit), old(p.explicit), merged)
    ensures p.flags == Promote(old(p.flags), old(p.explicit), merged)
  {
    var todo := merged.Keys;
    ghost var flags, given := p.flags, p.explicit;
    PromoteNone(flags, given, merged);
    PromoteNone(given, given, merged);
    while todo != {}
      invariant todo <= merged.Keys
      invariant p.explicit == Promote(given, given, merged - todo)
      invariant p.flags == Promote(flags, given, merged - todo)
    {
      var key :| key in todo;
      PromoteOne(flags, given, merged, todo, key);
      PromoteOne(given, given, merged, todo, key);
      hide Promote;
      todo := todo - {key};
      if key in p.explicit { continue; }
      p.flags := p.flags[key := Json(merged[key])];
      p.explicit := p.explicit[key := Json(merged[key])];
    }
    assert merged - todo == merged;
  }

  lemma PromoteNone(m: FlagMap, explicit: FlagMap, merged: Cell)
    ensures Promote(m, explicit, merged - merged.Keys) == m
  {}

  lemma PromoteOne(m: FlagMap, explicit: FlagMap, merged: Cell, todo: set<string>, key: string)
    requires key in todo && todo <= merged.Keys
    ensures var before, after := Promote(m, explicit, merged - todo), Promote(m, explicit, merged - (todo - {key}));
            after == if key in explicit then before else before[key := Json(merged[key])]
    ensures key in Promote(explicit, explicit, merged - todo) <==> key in explicit
  {}

  // ------------------------------------------------------------------ precedence

  /** The path an item sets. */
  function PathOf(item: string): seq<string>
    requires ParseSetKV(item).Some?
  {
    ParseSetKV(item).value.path
  }

  lemma {:induction false} UnrelatedStays(world: World, base: Payload, items: seq<string>, path: seq<string>)
    requires SetsOk(items) && path != []
    requires forall i :: 0 <= i < |items| ==> !Related(PathOf(items[i]), path)
    ensures Get(ApplySets(world, base, items), path) == Get(base, path)
  {
    hide ParseSetKV, SetAt, Get, Related;
    if items != [] {
      var n := |items| - 1;
      UnrelatedStays(world, base, items[..n], path);
      var a := ParseSetKV(items[n]).value;
      SetThenGet(ApplySets(world, base, items[..n]), a.path, world.infer(a.value), path);
    }
  }

  /** A `--set` item holds against the earlier ones, and against later ones elsewhere. */
  lemma {:induction false} LastSetWins(world: World, base: Payload, items: seq<string>, i: nat)
    requires SetsOk(items) && i < |items|
    requires forall j :: i < j < |items| ==> !Related(PathOf(items[j]), PathOf(items[i]))
    ensures Get(ApplySets(world, base, items), PathOf(items[i])) == Some(world.infer(ParseSetKV(items[i]).value.value))
  {
    hide ParseSetKV, SetAt, Get, Related;
    var n := |items| - 1;
    var a := ParseSetKV(items[n]).value;
    if i < n { LastSetWins(world, base, items[..n], i); }
    SetThenGet(ApplySets(world, base, items[..n]), a.path, world.infer(a.value), PathOf(items[i]));
  }

  /** For one spelling an explicit flag beats `--set`, and `--set` beats `--params`. */
  lemma Precedence(world: World, flags: FlagMap, explicit: FlagMap, h: Heap, at: nat, key: string)
    requires Judge(world, flags).WillMerge? && key != "params" && key != "set"
    requires IsTree(h, at, Contribution(world, flags)) && at < |h|
    ensures var after := Promote(flags, explicit, h[at]) - {"params", "set"};
            var base, items := Base(world, flags).value, SetItems(flags);
            && (key in explicit ==> (key in after <==> key in flags) && (key in flags ==> after[key] == flags[key]))
            && (key !in explicit ==>
                  forall i :: 0 <= i < |items| && PathOf(items[i]) == [key]
                              && (forall j :: i < j < |items| ==> !Related(PathOf(items[j]), [key])) ==>
                    key in after && after[key] == Json(Atom(world.infer(ParseSetKV(items[i]).value.value))))
            && (key !in explicit && (forall j :: 0 <= j < |items| ==> !Related(PathOf(items[j]), [key])) ==>
                  if base.Fields? && key in base.fields then
                    key in after && after[key].Json? && Denotes(h, |h|, after[key].value, base.fields[key])
                  else (key in after <==> key in flags) && (key in flags ==> after[key] == flags[key]))
  {
    hide ParseSetKV, Related, Base, ApplySets, PathOf, IsTree;
    var base, items := Base(world, flags).value, SetItems(flags);
    var start: Payload := if base.Fields? then base.fields else map[];
    TreeOf(h, at, Contribution(world, flags));
    if key !in explicit {
      forall i | 0 <= i < |items| && PathOf(items[i]) == [key]
                 && (forall j :: i < j < |items| ==> !Related(PathOf(items[j]), [key]))
        ensures Get(ApplySets(world, start, items), [key]) == Some(world.infer(ParseSetKV(items[i]).value.value)) {
        LastSetWins(world, start, items, i);
      }
      if forall j :: 0 <= j < |items| ==> !Related(PathOf(items[j]), [key]) {
        UnrelatedStays(world, start, items, [key]);
      }
    }
  }

  /** A contributed key that is not given explicitly becomes explicit. It is among the flags,
      with the same value, iff it is neither `params` nor `set`, which are deleted from them. */
  lemma ContributedIff(flags: FlagMap, explicit: FlagMap, merged: Cell, key: string)
    requires key in merged && key !in explicit
    ensures var after := Promote(flags, explicit, merged) - {"params", "set"};
            var given := Promote(explicit, explicit, merged);
            && key in given && given[key] == Json(merged[key])
            && (key in after && after[key] == given[key] <==> key != "params" && key != "set")
            && ((forall k :: k in given ==> k in explicit || k in after) <==>
                (merged.Keys - explicit.Keys) * {"params", "set"} == {})
  {
    var after, given := Promote(flags, explicit, merged) - {"params", "set"}, Promote(explicit, explicit, merged);
    var added, reserved := merged.Keys - explicit.Keys, {"params", "set"};
    if added * reserved != {} {
      var k :| k in added * reserved;
      assert k in given && k !in explicit && k !in after;
    } else {
      forall k | k in given ensures k in explicit || k in after { assert k !in added * reserved; }
    }
  }

  /** `--params null --set a=1` panics. */
  lemma NullPanics(world: World, flags: FlagMap)
    requires world.decode("null").Null?
    requires flags == map["params" := Json(Atom(Value.Text("null"))), "set" := Strings(["a=1"])]
    ensures Judge(world, flags).WillPanic?
  {
    OneSet();
    hide ParseSetKV, SetsOk;
    assert TrimSpace("null") == "null" by { Unblank("null"); }
    assert SetItems(flags) == ["a=1"] && ParamsText(flags) == Some("null");
    assert Base(world, flags) == Some(Null);
  }

  lemma OneSet()
    ensures ParseSetKV("a=1").Some?
  {
    CutAtFirst("a", '=', "1");
    assert "a" + ['='] + "1" == "a=1";
    Unblank("a");
  }

  // ------------------------------------------------------- what the texts mean

  /** Keys that a `--set` item can name: no dot or equals sign in any, and not all blank. */
  predicate Nameable(path: seq<string>) {
    && path != [] && (forall i :: 0 <= i < |path| ==> '.' !in path[i] && '=' !in path[i])
    && exists i :: 0 <= i < |Joined(path, '.')| && !IsSpace(Joined(path, '.')[i])
  }

  /** An item is an assignment exactly if it is keys with dots between them, an equals sign,
      and the value, whatever that holds. */
  lemma AssignmentMeans(item: string, path: seq<string>, value: string)
    ensures ParseSetKV(item) == Some(Assignment(path, value)) <==>
            Nameable(path) && item == Joined(path, '.') + "=" + value
  {
    hide Split, Joined, TrimSpace, CutAt;
    var cut := CutAt(item, '=');
    if cut.found {
      JoinedOfSplit(cut.before, '.');
      KeysWithout(cut.before);
    }
    if Nameable(path) && item == Joined(path, '.') + "=" + value {
      SplitOfJoined(path, '.');
      NotInJoined(path, '.', '=');
      CutAtFirst(Joined(path, '.'), '=', value);
    }
  }

  lemma KeysWithout(key: string)
    requires '=' !in key
    ensures forall i :: 0 <= i < |Split(key, '.')| ==> '=' !in Split(key, '.')[i]
  {
    hide Split, Joined;
    JoinedOfSplit(key, '.');
    forall i | 0 <= i < |Split(key, '.')| ensures '=' !in Split(key, '.')[i] {
      if '=' in Split(key, '.')[i] { InJoined(Split(key, '.'), '.', i, '='); }
    }
  }

  /** The text of `--params` that counts: one that is not blank. */
  ghost predicate Gives(flags: FlagMap, text: string) {
    && "params" in flags && flags["params"] == Json(Atom(Text(text)))
    && exists i :: 0 <= i < |text| && !IsSpace(text[i])
  }

  /** `--params` contributes its text decoded, or that of the file named after an `@`; nothing
      if it is not given, and no answer if the name is blank or the file cannot be read. */
  lemma BaseMeans(world: World, flags: FlagMap)
    ensures (forall text :: !Gives(flags, text)) ==> Base(world, flags) == Some(Fields(map[]))
    ensures forall text :: Gives(flags, text) && text[0] != '@' ==> Base(world, flags) == Some(world.decode(text))
    ensures forall name :: Gives(flags, "@" + name) ==>
              Base(world, flags) ==
              if (forall i :: 0 <= i < |name| ==> IsSpace(name[i])) || world.readFile(name).None? then None
              else Some(world.decode(world.readFile(name).value))
  {
    hide IsSpace;
    if ParamsText(flags).Some? { assert Gives(flags, ParamsText(flags).value); }
    forall name | Gives(flags, "@" + name)
      ensures Base(world, flags) ==
              if (forall i :: 0 <= i < |name| ==> IsSpace(name[i])) || world.readFile(name).None? then None
              else Some(world.decode(world.readFile(name).value))
    {
      assert ("@" + name)[1..] == name;
    }
  }

  /** The item is no assignment. */
  ghost predicate Malformed(item: string) { forall path, value :: ParseSetKV(item) != Some(Assignment(path, value)) }

  /** A merge panics exactly if `--params` is JSON null and the first item an assignment, and
      comes through exactly if every item is one and `--params`, unless there is no item,
      gives a map. */
  lemma JudgeMeans(world: World, flags: FlagMap)
    ensures var base, items, verdict := Base(world, flags), SetItems(flags), Judge(world, flags);
            && (verdict == WillPanic <==> base == Some(Null) && items != [] && !Malformed(items[0]))
            && (verdict == WillMerge <==>
                && (forall i :: 0 <= i < |items| ==> !Malformed(items[i]))
                && base.Some? && (base.value.Fields? || (base.value.Null? && items == [])))
  {
    hide ParseSetKV, Base;
    var items := SetItems(flags);
    forall i | 0 <= i < |items| ensures Malformed(items[i]) <==> ParseSetKV(items[i]).None? {
      if ParseSetKV(items[i]).Some? {
        var a := ParseSetKV(items[i]).value;
        assert ParseSetKV(items[i]) == Some(Assignment(a.path, a.value));
      }
    }
  }

  // ------------------------------------------------------------------- spellings

  function Kebab(key: string): string { ReplaceAll(key, '_', '-') }

  predicate Renamed(known: set<string>, key: string) { Kebab(key) != key && Kebab(key) in known }

  /** The key with hyphens for underscores. */
  predicate Spells(key: string, kebab: string) {
    |kebab| == |key| && forall i :: 0 <= i < |key| ==> kebab[i] == if key[i] == '_' then '-' else key[i]
  }

  /** A key is renamed exactly if it has an underscore and its spelling with hyphens is known. */
  lemma RenamedMeans(known: set<string>, key: string)
    ensures Spells(key, Kebab(key))
    ensures Renamed(known, key) <==> '_' in key && exists kebab :: kebab in known && Spells(key, kebab)
  {
    forall kebab ensures Spells(key, kebab) <==> kebab == Kebab(key) {}
    if '_' !in key { assert Kebab(key) == key; }
  }

  datatype Flags<V> = Flags(all: map<string, V>, explicit: map<string, V>)

  /** One turn of the loop: the value moves to the kebab spelling unless that one is there. */
  function Rename<V>(known: set<string>, f: Flags<V>, key: string, value: V): Flags<V> {
    if !Renamed(known, key) then f else
      var moved := if Kebab(key) in f.explicit then f
                   else Flags(f.all[Kebab(key) := value], f.explicit[Kebab(key) := value]);
      Flags(moved.all - {key}, moved.explicit - {key})
  }

  /** The loop over the keys in a given order, each with the value it had at the start. */
  function RenameAll<V>(known: set<string>, f: Flags<V>, order: seq<string>): Flags<V>
    requires forall i :: 0 <= i < |order| ==> order[i] in f.explicit
  {
    if order == [] then f else
      var n := |order| - 1;
      Rename(known, RenameAll(known, f, order[..n]), order[n], f.explicit[order[n]])
  }

  /** Every key of the map, once each. */
  ghost predicate IsOrder(keys: set<string>, order: seq<string>) {
    && (forall k :: k in order <==> k in keys)
    && forall i, j :: 0 <= i < j < |order| ==> order[i] != order[j]
  }

  /** `normalizeStructuredFlagNames`: in whatever order the map is ranged over. A kebab
      spelling added on the way, if it is visited at all, is left alone. */
  method NormalizeStructuredFlagNames<V>(p: ParsedCommand<V>, known: set<string>) returns (ghost order: seq<string>)
    modifies p
    ensures IsOrder(old(p.explicit).Keys, order) && forall i :: 0 <= i < |order| ==> order[i] in old(p.explicit)
    ensures Flags(p.flags, p.explicit) == RenameAll(known, Flags(old(p.flags), old(p.explicit)), order)
  {
    hide *;
    order := [];
    var todo, values := p.explicit.Keys, p.explicit;
    ghost var start := Flags(p.flags, p.explicit);
    StartOrder(known, start);
    while todo != {}
      invariant todo <= start.explicit.Keys && start.explicit == values
      invariant Ordered(known, start, todo, order, Flags(p.flags, p.explicit))
    {
      var key :| key in todo;
      ExtendOrder(known, start, todo, order, key, Flags(p.flags, p.explicit));
      order := order + [key];
      todo := todo - {key};
      var kebab := Kebab(key);
      RenameIs(known, Flags(p.flags, p.explicit), key, values[key]);
      if key == kebab || kebab !in known { continue; }
      if kebab !in p.explicit {
        p.flags := p.flags[kebab := values[key]];
        p.explicit := p.explicit[kebab := values[key]];
      }
      p.flags := p.flags - {key};
      p.explicit := p.explicit - {key};
    }
    EndOrder(known, start, order, Flags(p.flags, p.explicit));
  }

  /** `order` is what was taken out of the keys so far, and `f` what that made. */
  ghost predicate Ordered<V>(known: set<string>, start: Flags<V>, todo: set<string>, order: seq<string>, f: Flags<V>) {
    && IsOrder(start.explicit.Keys - todo, order) && (forall i :: 0 <= i < |order| ==> order[i] in start.explicit)
    && f == RenameAll(known, start, order)
  }

  lemma StartOrder<V>(known: set<string>, start: Flags<V>)
    ensures Ordered(known, start, start.explicit.Keys, [], start)
  {}

  lemma EndOrder<V>(known: set<string>, start: Flags<V>, order: seq<string>, f: Flags<V>)
    requires Ordered(known, start, {}, order, f)
    ensures IsOrder(start.explicit.Keys, order) && (forall i :: 0 <= i < |order| ==> order[i] in start.explicit)
    ensures f == RenameAll(known, start, order)
  {
    assert start.explicit.Keys - {} == start.explicit.Keys;
  }

  lemma ExtendOrder<V>(known: set<string>, start: Flags<V>, todo: set<string>, order: seq<string>, key: string,
                       f: Flags<V>)
    requires todo <= start.explicit.Keys && key in todo && Ordered(known, start, todo, order, f)
    ensures Ordered(known, start, todo - {key}, order + [key], Rename(known, f, key, start.explicit[key]))
  {
    hide Rename;
    var longer := order + [key];
    assert longer[..|order|] == order && longer[|order|] == key;
    assert forall k :: k in longer <==> k in order || k == key;
  }

  lemma RenameIs<V>(known: set<string>, f: Flags<V>, key: string, value: V)
    ensures var kebab := Kebab(key);
            Rename(known, f, key, value) ==
            if key == kebab || kebab !in known then f
            else if kebab in f.explicit then Flags(f.all - {key}, f.explicit - {key})
            else Flags(f.all[kebab := value] - {key}, f.explicit[kebab := value] - {key})
  {}

  lemma KebabTwice(key: string)
    ensures Kebab(Kebab(key)) == Kebab(key)
  {}

  /** Some key of the order is renamed to `x`. */
  ghost predicate Arrives(known: set<string>, order: seq<string>, x: string) {
    exists k :: k in order && Renamed(known, k) && Kebab(k) == x
  }

  ghost predicate SameAt<V>(a: map<string, V>, b: map<string, V>, x: string) {
    (x in a <==> x in b) && (x in a ==> a[x] == b[x])
  }

  /** What a pass over part of the keys leaves at one key. */
  ghost predicate LeftAt<V>(known: set<string>, f: Flags<V>, order: seq<string>, r: Flags<V>, x: string)
    requires forall i :: 0 <= i < |order| ==> order[i] in f.explicit
  {
    if x in order && Renamed(known, x) then x !in r.explicit && x !in r.all
    else if x in f.explicit || !Arrives(known, order, x) then
      SameAt(r.explicit, f.explicit, x) && SameAt(r.all, f.all, x)
    else
      && x in r.explicit && x in r.all && r.explicit[x] == r.all[x]
      && exists k :: k in order && Renamed(known, k) && Kebab(k) == x && f.explicit[k] == r.all[x]
  }

  lemma LeftStep<V>(known: set<string>, f: Flags<V>, before: seq<string>, r: Flags<V>, key: string, x: string)
    requires key in f.explicit && forall i :: 0 <= i < |before| ==> before[i] in f.explicit
    requires LeftAt(known, f, before, r, x) && LeftAt(known, f, before, r, Kebab(key)) && key !in before
    ensures LeftAt(known, f, before + [key], Rename(known, r, key, f.explicit[key]), x)
  {
    KebabTwice(key);
    assert !Renamed(known, Kebab(key));
    hide Kebab, ReplaceAll;
    var order := before + [key];
    assert forall k :: k in order <==> k in before || k == key;
    assert Arrives(known, order, x) <==> Arrives(known, before, x) || (Renamed(known, key) && Kebab(key) == x);
  }

  lemma {:induction false} LeftAfter<V>(known: set<string>, f: Flags<V>, order: seq<string>, x: string)
    requires forall i :: 0 <= i < |order| ==> order[i] in f.explicit
    requires forall i, j :: 0 <= i < j < |order| ==> order[i] != order[j]
    ensures LeftAt(known, f, order, RenameAll(known, f, order), x)
    decreases |order|
  {
    hide Kebab, Renamed, Rename, LeftAt;
    if order == [] {
      LeftNothing(known, f, x);
    } else {
      var n := |order| - 1;
      LeftAfter(known, f, order[..n], x);
      LeftAfter(known, f, order[..n], Kebab(order[n]));
      assert order == order[..n] + [order[n]];
      LeftStep(known, f, order[..n], RenameAll(known, f, order[..n]), order[n], x);
    }
  }

  lemma LeftNothing<V>(known: set<string>, f: Flags<V>, x: string)
    ensures LeftAt(known, f, [], f, x)
  {}

  /** No two spellings of one known flag, itself not given, carry different values. */
  ghost predicate Unambiguous<V>(known: set<string>, explicit: map<string, V>) {
    forall a, b :: a in explicit && b in explicit && Competing(known, a, b) && Kebab(a) !in explicit ==>
      explicit[a] == explicit[b]
  }

  /** Two spellings of one known flag. */
  predicate Competing(known: set<string>, a: string, b: string) {
    Renamed(known, a) && Renamed(known, b) && Kebab(a) == Kebab(b)
  }

  lemma SameAtBoth<V>(known: set<string>, f: Flags<V>, a: seq<string>, b: seq<string>, x: string)
    requires Unambiguous(known, f.explicit) && IsOrder(f.explicit.Keys, a) && IsOrder(f.explicit.Keys, b)
    ensures var r, q := RenameAll(known, f, a), RenameAll(known, f, b);
            SameAt(r.explicit, q.explicit, x) && SameAt(r.all, q.all, x)
  {
    hide Renamed, Kebab, RenameAll;
    LeftAfter(known, f, a, x);
    LeftAfter(known, f, b, x);
    assert Arrives(known, a, x) <==> Arrives(known, b, x);
    if x !in f.explicit && Arrives(known, a, x) {
      var r, q := RenameAll(known, f, a), RenameAll(known, f, b);
      var k :| k in a && Renamed(known, k) && Kebab(k) == x && f.explicit[k] == r.all[x];
      var l :| l in b && Renamed(known, l) && Kebab(l) == x && f.explicit[l] == q.all[x];
      assert Competing(known, k, l);
    }
  }

  lemma SameResult<V>(known: set<string>, f: Flags<V>, a: seq<string>, b: seq<string>)
    requires Unambiguous(known, f.explicit) && IsOrder(f.explicit.Keys, a) && IsOrder(f.explicit.Keys, b)
    ensures RenameAll(known, f, a) == RenameAll(known, f, b)
  {
    hide Unambiguous, SameAt, RenameAll;
    var r, q := RenameAll(known, f, a), RenameAll(known, f, b);
    forall x ensures SameAt(r.explicit, q.explicit, x) && SameAt(r.all, q.all, x) {
      SameAtBoth(known, f, a, b, x);
    }
    SameMaps(r.explicit, q.explicit);
    SameMaps(r.all, q.all);
  }

  lemma SameMaps<V>(a: map<string, V>, b: map<string, V>)
    requires forall x :: SameAt(a, b, x)
    ensures a == b
  {
    assert forall x :: x in a ==> SameAt(a, b, x);
    assert forall x :: x in b ==> SameAt(a, b, x);
    assert a.Keys == b.Keys;
  }

  /** Some order of a set of keys, one of them first. */
  lemma {:induction false} OrderFrom(keys: set<string>, first: string) returns (order: seq<string>)
    requires first in keys
    ensures IsOrder(keys, order) && order[0] == first
    decreases |keys|
  {
    var rest := keys - {first};
    if rest == {} {
      order := [first];
      assert keys == {first};
    } else {
      var second :| second in rest;
      var later := OrderFrom(rest, second);
      order := [first] + later;
      assert forall k :: k in order <==> k == first || k in later;
    }
  }

  /** The spelling met first is the one kept. */
  lemma {:induction false} FirstKept<V>(known: set<string>, f: Flags<V>, order: seq<string>)
    requires order != [] && forall i :: 0 <= i < |order| ==> order[i] in f.explicit
    requires Renamed(known, order[0]) && Kebab(order[0]) !in f.explicit
    ensures var r, d := RenameAll(known, f, order), Kebab(order[0]);
            d in r.explicit && r.explicit[d] == f.explicit[order[0]]
  {
    KebabTwice(order[0]);
    hide Kebab, ReplaceAll;
    var n := |order| - 1;
    if n == 0 {
      assert RenameAll(known, f, order[..0]) == f;
    } else {
      FirstKept(known, f, order[..n]);
    }
  }

  /** The outcome is the same for every iteration order iff no two spellings of a known,
      not directly given flag carry different values. */
  lemma OrderIrrelevantIff<V>(known: set<string>, f: Flags<V>)
    ensures Unambiguous(known, f.explicit) <==>
            forall a, b :: IsOrder(f.explicit.Keys, a) && IsOrder(f.explicit.Keys, b) ==>
              RenameAll(known, f, a) == RenameAll(known, f, b)
  {
    hide RenameAll, Renamed, Kebab;
    if Unambiguous(known, f.explicit) {
      forall a, b | IsOrder(f.explicit.Keys, a) && IsOrder(f.explicit.Keys, b)
        ensures RenameAll(known, f, a) == RenameAll(known, f, b) {
        SameResult(known, f, a, b);
      }
    } else {
      var a, b :| a in f.explicit && b in f.explicit && Competing(known, a, b) && Kebab(a) !in f.explicit
                  && f.explicit[a] != f.explicit[b];
      var first := OrderFrom(f.explicit.Keys, a);
      var second := OrderFrom(f.explicit.Keys, b);
      FirstKept(known, f, first);
      FirstKept(known, f, second);
    }
  }
}
