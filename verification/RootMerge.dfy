/** Several command sources merged into one registry.

    Discovered commands never clash there, because the roots of the local tree are reserved. */
module RootMerge {
  import opened Options
  import opened Text
  import opened CommandTree
  import opened DynamicRegistry
  import opened AggregateTree

  /** What one source yields: an error, no tree, or a tree. */
  datatype Source = Failed | Absent | Tree(version: string, globalFlags: seq<string>, nodes: seq<Node>)

  datatype Merge =
    | Merged(version: string, globalFlags: seq<string>, nodes: seq<Node>)
    | SetupFailed(index: nat)
    | DuplicateRoot(name: string)

  function RootKey(name: string): string { ToLower(TrimSpace(name)) }

  /** The keys of the nodes' names and aliases, blank ones left out. */
  function RootKeys(nodes: seq<Node>): seq<string> {
    if nodes == [] then [] else
      var n := |nodes| - 1;
      RootKeys(nodes[..n]) + NonBlank([nodes[n].name] + nodes[n].aliases)
  }

  function NonBlank(names: seq<string>): seq<string> {
    if names == [] then [] else
      var n := |names| - 1;
      NonBlank(names[..n]) + if RootKey(names[n]) == "" then [] else [RootKey(names[n])]
  }

  function AllNodes(sources: seq<Source>): seq<Node> {
    if sources == [] then [] else
      var n := |sources| - 1;
      AllNodes(sources[..n]) + if sources[n].Tree? then sources[n].nodes else []
  }

  function AllFlags(sources: seq<Source>): seq<string> {
    if sources == [] then [] else
      var n := |sources| - 1;
      AllFlags(sources[..n]) + if sources[n].Tree? then sources[n].globalFlags else []
  }

  /** The versions that are not empty, joined by `+`. */
  function AllVersions(sources: seq<Source>): string {
    if sources == [] then "" else
      var n := |sources| - 1;
      var before := AllVersions(sources[..n]);
      if !sources[n].Tree? || sources[n].version == "" then before
      else if before == "" then sources[n].version
      else before + "+" + sources[n].version
  }

  ghost predicate Same(keys: set<string>, all: seq<string>) {
    forall k :: k in keys <==> k in all
  }

  /** Adds a node's keys, and stops at one already there. */
  method AddRoot(rootNames: set<string>, node: Node, ghost before: seq<string>)
    returns (names: set<string>, duplicate: Option<string>)
    requires Same(rootNames, before) && Distinct(before)
    ensures var all := before + NonBlank([node.name] + node.aliases);
            && (duplicate.None? <==> Distinct(all))
            && (duplicate.None? ==> Same(names, all))
  {
    hide NonBlank, RootKey;
    var list := [node.name] + node.aliases;
    names := rootNames;
    assert before + NonBlank(list[..0]) == before by { assert NonBlank([]) == [] by { NonBlankOne([], ""); } }
    for j := 0 to |list|
      invariant Distinct(before + NonBlank(list[..j])) && Same(names, before + NonBlank(list[..j]))
    {
      var key := RootKey(list[j]);
      assert list[..j + 1] == list[..j] + [list[j]];
      NonBlankOne(list[..j], list[j]);
      if key == "" {
        assert before + NonBlank(list[..j + 1]) == before + NonBlank(list[..j]);
        continue;
      }
      ghost var soFar := before + NonBlank(list[..j]);
      assert before + NonBlank(list[..j + 1]) == soFar + [key];
      DistinctAppend(soFar, key);
      if key in names {
        DistinctPrefix(before, list, j + 1);
        return names, Some(list[j]);
      }
      names := names + {key};
    }
    assert list[..|list|] == list;
    duplicate := None;
  }

  lemma NonBlankOne(names: seq<string>, name: string)
    ensures NonBlank(names + [name]) == NonBlank(names) + if RootKey(name) == "" then [] else [RootKey(name)]
    ensures NonBlank([]) == []
  {
    assert (names + [name])[..|names|] == names;
  }

  lemma {:induction false} DistinctPrefix(before: seq<string>, names: seq<string>, j: nat)
    requires j <= |names| && !Distinct(before + NonBlank(names[..j]))
    ensures !Distinct(before + NonBlank(names))
    decreases |names| - j
  {
    hide NonBlank, RootKey;
    if j == |names| {
      assert names[..j] == names;
    } else {
      assert names[..j + 1] == names[..j] + [names[j]];
      NonBlankOne(names[..j], names[j]);
      var a, b := before + NonBlank(names[..j]), before + NonBlank(names[..j + 1]);
      assert a <= b;
      PrefixClash(a, b);
      DistinctPrefix(before, names, j + 1);
    }
  }

  lemma PrefixClash(a: seq<string>, b: seq<string>)
    requires a <= b && !Distinct(a)
    ensures !Distinct(b)
  {
    var i, j :| 0 <= i < j < |a| && a[i] == a[j];
    assert b[i] == b[j];
  }

  lemma {:induction false} RootKeysConcat(a: seq<Node>, b: seq<Node>)
    ensures RootKeys(a + b) == RootKeys(a) + RootKeys(b)
  {
    hide NonBlank;
    if b == [] {
      assert a + b == a;
    } else {
      var n := |b| - 1;
      assert (a + b)[..|a| + n] == a + b[..n];
      RootKeysConcat(a, b[..n]);
    }
  }

  /** Adds the roots of one tree. */
  method AddRoots(rootNames: set<string>, nodes: seq<Node>, ghost before: seq<string>)
    returns (names: set<string>, duplicate: Option<string>)
    requires Same(rootNames, before) && Distinct(before)
    ensures duplicate.None? <==> Distinct(before + RootKeys(nodes))
    ensures duplicate.None? ==> Same(names, before + RootKeys(nodes))
  {
    hide NonBlank, RootKey;
    names, duplicate := rootNames, None;
    assert before + RootKeys(nodes[..0]) == before;
    for k := 0 to |nodes|
      invariant Distinct(before + RootKeys(nodes[..k])) && Same(names, before + RootKeys(nodes[..k]))
      invariant duplicate.None?
    {
      ghost var soFar := before + RootKeys(nodes[..k]);
      assert nodes[..k + 1][..k] == nodes[..k];
      assert before + RootKeys(nodes[..k + 1]) == soFar + NonBlank([nodes[k].name] + nodes[k].aliases);
      names, duplicate := AddRoot(names, nodes[k], soFar);
      if duplicate.Some? {
        assert nodes == nodes[..k + 1] + nodes[k + 1..];
        RootKeysConcat(nodes[..k + 1], nodes[k + 1..]);
        PrefixClash(before + RootKeys(nodes[..k + 1]), before + RootKeys(nodes));
        return;
      }
    }
    assert nodes[..|nodes|] == nodes;
  }

  ghost predicate Progress(sources: seq<Source>, result: Merge, rootNames: set<string>) {
    && (forall i :: 0 <= i < |sources| ==> !sources[i].Failed?)
    && result == Merged(AllVersions(sources), AllFlags(sources), AllNodes(sources))
    && Distinct(RootKeys(AllNodes(sources))) && Same(rootNames, RootKeys(AllNodes(sources)))
  }

  /** The sources merge exactly when none fails and all their root keys differ. */
  ghost predicate Mergeable(sources: seq<Source>) {
    (forall i :: 0 <= i < |sources| ==> !sources[i].Failed?) && Distinct(RootKeys(AllNodes(sources)))
  }

  lemma SkipSource(sources: seq<Source>, k: nat)
    requires k < |sources|
    ensures AllNodes(sources[..k + 1]) ==
            AllNodes(sources[..k]) + if sources[k].Tree? then sources[k].nodes else []
    ensures AllFlags(sources[..k + 1]) ==
            AllFlags(sources[..k]) + if sources[k].Tree? then sources[k].globalFlags else []
    ensures var v := AllVersions(sources[..k]);
            AllVersions(sources[..k + 1]) ==
            if !sources[k].Tree? || sources[k].version == "" then v
            else if v == "" then sources[k].version
            else v + "+" + sources[k].version
  {
    assert sources[..k + 1][..k] == sources[..k];
  }

  lemma {:induction false} NodesPrefix(sources: seq<Source>, k: nat)
    requires k <= |sources|
    ensures AllNodes(sources[..k]) <= AllNodes(sources)
    decreases |sources| - k
  {
    if k == |sources| {
      assert sources[..k] == sources;
    } else {
      SkipSource(sources, k);
      NodesPrefix(sources, k + 1);
    }
  }

  lemma ClashStays(sources: seq<Source>, k: nat)
    requires k <= |sources| && !Distinct(RootKeys(AllNodes(sources[..k])))
    ensures !Distinct(RootKeys(AllNodes(sources)))
  {
    NodesPrefix(sources, k);
    var a, b := AllNodes(sources[..k]), AllNodes(sources);
    assert b == a + b[|a|..];
    RootKeysConcat(a, b[|a|..]);
    PrefixClash(RootKeys(a), RootKeys(b));
  }

  /** `CompositeSetup.Setup`. */
  method CompositeSetup(sources: seq<Source>) returns (r: Merge)
    ensures r.Merged? <==> Mergeable(sources)
    ensures r.Merged? ==> r == Merged(AllVersions(sources), AllFlags(sources), AllNodes(sources))
    ensures r.SetupFailed? ==> r.index < |sources| && sources[r.index].Failed? && Mergeable(sources[..r.index])
  {
    hide RootKeys, AllNodes, AllFlags, AllVersions;
    var rootNames: set<string> := {};
    var version, globalFlags, nodes := "", [], [];
    assert Progress(sources[..0], Merged(version, globalFlags, nodes), rootNames) by { NothingYet(sources[..0]); }
    for k := 0 to |sources|
      invariant Progress(sources[..k], Merged(version, globalFlags, nodes), rootNames)
    {
      SkipSource(sources, k);
      if sources[k].Failed? { return SetupFailed(k); }
      assert sources[..k + 1] == sources[..k] + [sources[k]];
      if sources[k].Absent? {
        assert AllNodes(sources[..k + 1]) == AllNodes(sources[..k]);
        continue;
      }
      if version == "" {
        version := sources[k].version;
      } else if sources[k].version != "" {
        version := version + "+" + sources[k].version;
      }
      globalFlags := globalFlags + sources[k].globalFlags;
      RootKeysConcat(nodes, sources[k].nodes);
      var duplicate;
      rootNames, duplicate := AddRoots(rootNames, sources[k].nodes, RootKeys(nodes));
      if duplicate.Some? {
        ClashStays(sources, k + 1);
        return DuplicateRoot(duplicate.value);
      }
      nodes := nodes + sources[k].nodes;
    }
    assert sources[..|sources|] == sources;
    r := Merged(version, globalFlags, nodes);
  }

  lemma NothingYet(sources: seq<Source>)
    requires sources == []
    ensures Progress(sources, Merged("", [], []), {})
  {}

  // ------------------------------------------------ discovered beside local

  const STATIC_RESERVED: set<string> :=
    {"auth", "completion", "config", "extension", "help", "inspect", "url", "version"}

  /** `buildReservedDynamicResources`: the fixed roots and every key of the local tree. */
  method BuildReservedResources(nodes: seq<Node>) returns (resources: set<string>)
    ensures forall k :: k in resources <==> k in STATIC_RESERVED || k in RootKeys(nodes)
  {
    hide RootKey;
    resources := STATIC_RESERVED;
    for i := 0 to |nodes|
      invariant forall k :: k in resources <==> k in STATIC_RESERVED || k in RootKeys(nodes[..i])
    {
      var list := [nodes[i].name] + nodes[i].aliases;
      ghost var before := resources;
      for j := 0 to |list|
        invariant forall k :: k in resources <==> k in before || k in NonBlank(list[..j])
      {
        assert list[..j + 1][..j] == list[..j];
        var key := RootKey(list[j]);
        if key != "" { resources := resources + {key}; }
      }
      assert list[..|list|] == list;
      assert nodes[..i + 1][..i] == nodes[..i];
    }
    assert nodes[..|nodes|] == nodes;
  }

  lemma PlainRootKey(name: string)
    requires PlainName(name)
    ensures RootKey(name) == name
  {
    LowerPlain(name);
    assert !IsSpace(name[0]) && !IsSpace(name[|name| - 1]);
  }

  /** The root keys of plain, alias-free nodes are their names. */
  lemma {:induction false} PlainRootKeys(nodes: seq<Node>)
    requires forall i :: 0 <= i < |nodes| ==> PlainName(nodes[i].name) && nodes[i].aliases == []
    ensures |RootKeys(nodes)| == |nodes| && forall i :: 0 <= i < |nodes| ==> RootKeys(nodes)[i] == nodes[i].name
  {
    hide RootKey, PlainName;
    if nodes != [] {
      var n := |nodes| - 1;
      PlainRootKeys(nodes[..n]);
      PlainRootKey(nodes[n].name);
      assert nodes[n].name != "" by { NameNotEmpty(nodes[n].name); }
      assert [nodes[n].name] + nodes[n].aliases == [nodes[n].name];
      NonBlankOne([], nodes[n].name);
      assert [] + [nodes[n].name] == [nodes[n].name];
    }
  }

  lemma NameNotEmpty(name: string)
    requires PlainName(name)
    ensures name != ""
  {}

  /** The discovered tree and the local tree always merge, whatever was discovered. */
  lemma NeverShadowsLocal(env: Env, commands: seq<Mapped>, version: string, flags: seq<string>,
                          localVersion: string, localFlags: seq<string>, local: seq<Node>)
    requires forall k :: k in env.reserved <==> k in STATIC_RESERVED || k in RootKeys(local)
    requires Distinct(RootKeys(local))
    ensures Mergeable([Tree(version, flags, BuildTree(env, Accepted(env, commands))),
                       Tree(localVersion, localFlags, local)])
  {
    hide PlainName, BuildTree, Accepted, RootKeys;
    var tree := BuildTree(env, Accepted(env, commands));
    AggregateRoots(env, commands);
    PlainRootKeys(tree);
    var sources := [Tree(version, flags, tree), Tree(localVersion, localFlags, local)];
    SkipSource(sources, 0);
    SkipSource(sources, 1);
    assert sources[..2] == sources && AllNodes(sources[..0]) == [];
    assert [] + tree == tree;
    RootKeysConcat(tree, local);
    forall k | k in RootKeys(tree) ensures k !in RootKeys(local) {
      var i :| 0 <= i < |tree| && RootKeys(tree)[i] == k;
    }
    DistinctConcat(RootKeys(tree), RootKeys(local));
  }
}
