/** Commands accepted one by one form a valid tree together.

    Each group is valid because each of its commands is, alone, with what is injected beside it. */
module AggregateTree {
  import opened Options
  import opened Text
  import opened CommandTree
  import opened DynamicRegistry

  // ------------------------------------------------- one group and its extras

  /** What the three passes append to one group. */
  function Extras(name: string, children: seq<Node>): seq<Node> {
    if name == "user" then [ME]
    else if name == "attachment" then
      var first := ShortcutFor(children, UPLOAD);
      first + ShortcutFor(children + first, DOWNLOAD)
    else if name == "workitem" then BatchFor(children)
    else []
  }

  function Decorated(g: Node): Node { g.(children := g.children + Extras(g.name, g.children)) }

  predicate DistinctNames(nodes: seq<Node>) {
    forall i, j :: 0 <= i < j < |nodes| ==> nodes[i].name != nodes[j].name
  }

  /** With distinct names, a pass changes the group of that name and no other. */
  lemma {:induction false} UpdateFirstPointwise(nodes: seq<Node>, name: string, f: Node -> Node)
    requires DistinctNames(nodes)
    ensures forall i :: 0 <= i < |nodes| ==>
              UpdateFirst(nodes, name, f)[i] == if nodes[i].name == name then f(nodes[i]) else nodes[i]
  {
    if nodes != [] {
      assert nodes == [nodes[0]] + nodes[1..];
      UpdateFirstPointwise(nodes[1..], name, f);
    }
  }

  lemma BuildTreeDecorates(env: Env, commands: seq<Mapped>)
    ensures var groups := Groups(env, commands);
            |BuildTree(env, commands)| == |groups|
            && forall i :: 0 <= i < |groups| ==> BuildTree(env, commands)[i] == Decorated(groups[i])
  {
    hide ShortcutFor, BatchFor, Resources;
    var groups := Groups(env, commands);
    GroupsDistinct(env, commands);
    hide Groups;
    UpdateFirstPointwise(groups, "user", AddSugar);
    var sugared := UpdateFirst(groups, "user", AddSugar);
    UpdateFirstPointwise(sugared, "attachment", AddShortcuts);
    var attached := UpdateFirst(sugared, "attachment", AddShortcuts);
    UpdateFirstPointwise(attached, "workitem", AddBatch);
    forall i | 0 <= i < |groups| ensures BuildTree(env, commands)[i] == Decorated(groups[i]) {
      var g := groups[i];
      assert g.children + [] == g.children;
      AddShortcutsIsExtras(g);
    }
  }

  ghost predicate HasGroup(tree: seq<Node>, name: string) { exists i :: 0 <= i < |tree| && tree[i].name == name }

  ghost predicate HasResource(commands: seq<Mapped>, name: string) {
    exists i :: 0 <= i < |commands| && commands[i].resource == name
  }

  /** The groups stand in the order of their resources, each resource once; a group begins
      with its commands, all of them, ordered by action, and what is injected follows. */
  lemma TreeIsSorted(env: Env, commands: seq<Mapped>)
    ensures var tree := BuildTree(env, commands);
            && (forall i, j :: 0 <= i < j < |tree| ==> Less(tree[i].name, tree[j].name))
            && (forall r :: HasGroup(tree, r) <==> HasResource(commands, r))
            && forall i :: 0 <= i < |tree| ==>
                 var own := SortByAction(CommandsOf(commands, tree[i].name));
                 && ActionsSorted(own) && multiset(own) == multiset(CommandsOf(commands, tree[i].name))
                 && Leaves(own) <= tree[i].children
  {
    hide BuildTree, Less, Extras, Leaves, SortByAction, CommandsOf, ActionsSorted;
    BuildTreeDecorates(env, commands);
    ResourcesSorted(commands);
    var tree, names := BuildTree(env, commands), Resources(commands);
    assert forall i :: 0 <= i < |tree| ==> tree[i].name == names[i];
    forall r ensures HasGroup(tree, r) <==> r in names {
      if r in names {
        var i :| 0 <= i < |names| && names[i] == r;
        assert tree[i].name == r;
      }
    }
    forall i | 0 <= i < |tree| ensures ActionsSorted(SortByAction(CommandsOf(commands, tree[i].name))) {
      SortedByAction(CommandsOf(commands, names[i]));
    }
  }

  lemma AddShortcutsIsExtras(g: Node)
    ensures g.name == "attachment" ==> AddShortcuts(g) == Decorated(g)
  {
    hide ShortcutFor;
    var first := ShortcutFor(g.children, UPLOAD);
    var second := ShortcutFor(g.children + first, DOWNLOAD);
    assert (g.children + first) + second == g.children + (first + second);
  }

  lemma GroupsDistinct(env: Env, commands: seq<Mapped>)
    ensures DistinctNames(Groups(env, commands))
  {
    assert Distinct(Resources(commands));
  }

  // ------------------------------------------------- finding the one sibling

  /** A child found by name is the leaf of a command with that action. */
  lemma {:induction false} FindLeaf(commands: seq<Mapped>, name: string)
    ensures match FindChild(Leaves(commands), name)
            case None => forall i :: 0 <= i < |commands| ==> commands[i].action != name
            case Some(n) => exists i :: 0 <= i < |commands| && commands[i].action == name && n == Leaf(commands[i])
  {
    hide ShortDesc, ConvertParameters;
    if commands != [] {
      var leaves := Leaves(commands);
      assert leaves[1..] == Leaves(commands[1..]);
      FindLeaf(commands[1..], name);
      if commands[0].action == name { assert leaves[0] == Leaf(commands[0]); }
      else if FindChild(leaves[1..], name).Some? {
        var i :| 0 <= i < |commands[1..]| && commands[1..][i].action == name
                 && FindChild(leaves[1..], name).value == Leaf(commands[1..][i]);
        assert commands[i + 1] == commands[1..][i];
      }
    }
  }

  lemma {:induction false} FindChildConcat(a: seq<Node>, b: seq<Node>, name: string)
    ensures FindChild(a + b, name) == if FindChild(a, name).Some? then FindChild(a, name) else FindChild(b, name)
  {
    if a == [] {
      assert a + b == b;
    } else {
      assert (a + b)[1..] == a[1..] + b;
      FindChildConcat(a[1..], b, name);
    }
  }

  predicate PlainActions(commands: seq<Mapped>) {
    forall i :: 0 <= i < |commands| ==> PlainName(commands[i].action)
  }

  /** A `+` name is no discovered command's. */
  lemma NoPlusLeaf(commands: seq<Mapped>, name: string)
    requires PlainActions(commands) && HasPrefix(name, '+')
    ensures FindChild(Leaves(commands), name).None?
  {
    FindLeaf(commands, name);
  }

  function Shown(sc: Shortcut, sibling: Option<Node>): seq<Node> {
    if sibling.Some? then [ShortcutNode(sc, sibling.value)] else []
  }

  /** The extras of a group of discovered commands. */
  lemma ExtrasOf(name: string, commands: seq<Mapped>)
    requires PlainActions(commands)
    ensures var leaves := Leaves(commands);
            var upload := FindChild(leaves, UPLOAD.sibling);
            var download := FindChild(leaves, DOWNLOAD.sibling);
            var single := FindChild(leaves, "get");
            Extras(name, leaves) ==
            if name == "user" then [ME]
            else if name == "attachment" then
              Shown(UPLOAD, upload) + Shown(DOWNLOAD, download)
            else if name == "workitem" then (if single.Some? then [BatchNode(single.value)] else [])
            else []
  {
    var leaves := Leaves(commands);
    NoPlusLeaf(commands, UPLOAD.name);
    NoPlusLeaf(commands, DOWNLOAD.name);
    NoPlusLeaf(commands, "+batch-get");
    hide Leaves, FindChild;
    var first := ShortcutFor(leaves, UPLOAD);
    FindChildConcat(leaves, first, DOWNLOAD.name);
    FindChildConcat(leaves, first, DOWNLOAD.sibling);
    FoundInShortcut(first, FindChild(leaves, UPLOAD.sibling));
  }

  lemma FoundInShortcut(first: seq<Node>, sibling: Option<Node>)
    requires first == if sibling.Some? then [ShortcutNode(UPLOAD, sibling.value)] else []
    ensures FindChild(first, DOWNLOAD.name).None? && FindChild(first, DOWNLOAD.sibling).None?
  {
    if sibling.Some? { assert first[1..] == []; }
  }

  /** Every extra node of a group comes with one of its commands already alone. */
  lemma ExtraFromOne(name: string, commands: seq<Mapped>, x: Node) returns (c: Mapped)
    requires PlainActions(commands) && commands != [] && x in Extras(name, Leaves(commands))
    ensures c in commands && x in Extras(name, Leaves([c]))
  {
    ExtrasOf(name, commands);
    c := commands[0];
    if name == "attachment" {
      FindLeaf(commands, UPLOAD.sibling);
      FindLeaf(commands, DOWNLOAD.sibling);
      var wanted := if x.name == UPLOAD.name then UPLOAD.sibling else DOWNLOAD.sibling;
      var i :| 0 <= i < |commands| && commands[i].action == wanted && FindChild(Leaves(commands), wanted).Some?
               && FindChild(Leaves(commands), wanted).value == Leaf(commands[i]);
      c := commands[i];
    } else if name == "workitem" {
      FindLeaf(commands, "get");
      var i :| 0 <= i < |commands| && commands[i].action == "get"
               && FindChild(Leaves(commands), "get").Some?
               && FindChild(Leaves(commands), "get").value == Leaf(commands[i]);
      c := commands[i];
    }
    ExtrasOf(name, [c]);
    FindAlone(c);
  }

  lemma FindAlone(c: Mapped)
    ensures FindChild(Leaves([c]), c.action) == Some(Leaf(c))
  {
    assert Leaves([c])[0] == Leaf(c);
  }

  // ---------------------------------------------------------- keys of a group

  lemma {:induction false} LeafKeys(commands: seq<Mapped>)
    requires PlainActions(commands)
    ensures |Keys(Leaves(commands))| == |commands|
    ensures forall i :: 0 <= i < |commands| ==> Keys(Leaves(commands))[i] == commands[i].action
  {
    hide ShortDesc, ConvertParameters, ToLower;
    if commands != [] {
      var n := |commands| - 1;
      assert Leaves(commands)[..n] == Leaves(commands[..n]);
      LeafKeys(commands[..n]);
      LowerPlain(commands[n].action);
      assert NamesOf(Leaf(commands[n])) == [commands[n].action] by {
        assert [Leaf(commands[n]).name] + Leaf(commands[n]).aliases == [commands[n].action];
      }
    }
  }

  predicate DistinctActions(commands: seq<Mapped>) {
    forall i, j :: 0 <= i < j < |commands| ==> commands[i].action != commands[j].action
  }

  lemma NodeKey(n: Node, aliases: seq<string>)
    requires n.aliases == aliases && CommandName(n.name) && forall i :: 0 <= i < |aliases| ==> CommandName(aliases[i])
    ensures Keys([n]) == [n.name] + aliases
  {
    assert [n][..0] == [];
    var names := [n.name] + aliases;
    forall i | 0 <= i < |names| ensures ToLower(names[i]) == names[i] {
      LowerPlain(names[i]);
    }
    assert LowerAll(names) == names;
  }

  /** Keys that no discovered command has, apart from `me`. */
  ghost predicate Apart(name: string, keys: seq<string>) {
    Distinct(keys) && forall k :: k in keys ==> HasPrefix(k, '+') || (name == "user" && k == "me")
  }

  lemma ShownKeys(sc: Shortcut, sibling: Option<Node>)
    requires sc == UPLOAD || sc == DOWNLOAD
    ensures Keys(Shown(sc, sibling)) == if sibling.Some? then [sc.name] else []
  {
    hide NamesOf, ShortcutNode;
    if sibling.Some? { ShortcutKey(sc, sibling.value); }
  }

  lemma AttachmentKeys(upload: Option<Node>, download: Option<Node>)
    ensures Apart("attachment", Keys(Shown(UPLOAD, upload) + Shown(DOWNLOAD, download)))
  {
    hide Keys, Shown;
    ShownKeys(UPLOAD, upload);
    ShownKeys(DOWNLOAD, download);
    KeysConcat(Shown(UPLOAD, upload), Shown(DOWNLOAD, download));
  }

  /** The keys of the extras: never a discovered name, except `me`. */
  lemma ExtraKeys(name: string, commands: seq<Mapped>)
    requires PlainActions(commands)
    ensures Apart(name, Keys(Extras(name, Leaves(commands))))
  {
    hide Extras, FindChild, Leaves, Shown, BatchNode, NamesOf, PlainName;
    ExtrasOf(name, commands);
    var leaves := Leaves(commands);
    var upload, download, single :=
      FindChild(leaves, UPLOAD.sibling), FindChild(leaves, DOWNLOAD.sibling), FindChild(leaves, "get");
    MeKey();
    if name == "attachment" { AttachmentKeys(upload, download); }
    else if name == "workitem" && single.Some? { BatchKeys(single.value); }
  }

  lemma ShortcutKey(sc: Shortcut, sibling: Node)
    requires sc == UPLOAD || sc == DOWNLOAD
    ensures Keys([ShortcutNode(sc, sibling)]) == [sc.name]
  {
    assert PlainName(UPLOAD.name[1..]) && PlainName(DOWNLOAD.name[1..]);
    NodeKey(ShortcutNode(sc, sibling), []);
  }

  lemma BatchKeys(sibling: Node)
    ensures Keys([BatchNode(sibling)]) == ["+batch-get", "+get-batch"]
  {
    assert PlainName("+batch-get"[1..]) && PlainName("+get-batch"[1..]);
    NodeKey(BatchNode(sibling), ["+get-batch"]);
  }

  // ----------------------------------------------------- what screening leaves

  ghost predicate ScreenedOne(env: Env, c: Mapped) {
    c.resource !in env.reserved && PlainName(c.resource) && PlainName(c.action) && TreeOk(BuildTree(env, [c]))
  }

  predicate DistinctPaths(commands: seq<Mapped>) {
    forall i, j :: 0 <= i < j < |commands| ==> !SamePath(commands[i], commands[j])
  }

  /** The accepted commands have distinct paths and passed every screen. */
  lemma {:induction false} AcceptedScreened(env: Env, commands: seq<Mapped>)
    ensures DistinctPaths(Accepted(env, commands))
    ensures forall c :: c in Accepted(env, commands) ==> ScreenedOne(env, c)
  {
    hide PlainName, TreeOk, BuildTree, ParametersOk;
    if commands != [] {
      var before, c := commands[..|commands| - 1], commands[|commands| - 1];
      AcceptedScreened(env, before);
    }
  }

  /** The tree of one command: its group, decorated. */
  lemma Alone(env: Env, c: Mapped)
    ensures BuildTree(env, [c]) == [Decorated(GroupNode(env, c.resource, Leaves([c])))]
  {
    hide Leaves, GroupNode, Extras;
    assert [c][..0] == [];
    assert Resources([c]) == [c.resource] by {
      assert Resources([]) == [];
    }
    assert CommandsOf([c], c.resource) == [c];
    assert SortByAction([]) == [];
    assert SortByAction([c]) == [c];
    BuildTreeDecorates(env, [c]);
    hide BuildTree, SortByAction, CommandsOf;
    assert Groups(env, [c]) == [GroupNode(env, c.resource, Leaves([c]))];
  }

  function AloneGroup(env: Env, c: Mapped): Node { Decorated(GroupNode(env, c.resource, Leaves([c]))) }

  lemma AloneGroupOk(env: Env, c: Mapped)
    requires ScreenedOne(env, c)
    ensures NodeOk(AloneGroup(env, c))
  {
    Alone(env, c);
    hide BuildTree, NodeOk, PlainName, Decorated, GroupNode;
    assert BuildTree(env, [c])[0] == AloneGroup(env, c);
  }

  /** A screened command is a valid leaf, brings valid extras, and clashes with none of them. */
  lemma FromAlone(env: Env, c: Mapped)
    requires ScreenedOne(env, c)
    ensures NodeOk(Leaf(c))
    ensures forall x :: x in Extras(c.resource, Leaves([c])) ==> NodeOk(x)
    ensures !Blank(GroupNode(env, c.resource, []).brief)
    ensures c.resource == "user" ==> c.action != "me"
  {
    hide ScreenedOne, BuildTree, Extras, PlainName, FlagsOk, Blank, CommandName, Leaf, TreeOk, Keys, ArgsOk;
    AloneGroupOk(env, c);
    var leaves := Leaves([c]);
    assert leaves == [Leaf(c)];
    hide Leaves;
    var extras := Extras(c.resource, leaves);
    var g := AloneGroup(env, c);
    assert g.children == [Leaf(c)] + extras;
    assert NodeOk(g.children[0]) && g.children[0] == Leaf(c);
    forall x | x in extras ensures NodeOk(x) {
      var i :| 0 <= i < |extras| && extras[i] == x;
      assert g.children[1 + i] == x && NodeOk(g.children[1 + i]);
    }
    if c.resource == "user" && c.action == "me" { MeClashes(c); }
  }

  lemma MeKey()
    ensures Keys([ME]) == ["me"]
  {
    hide Keys, NamesOf;
    assert PlainName("me");
    NodeKey(ME, []);
  }

  lemma MeClashes(c: Mapped)
    requires c.action == "me"
    ensures !Distinct(Keys(Leaves([c]) + Extras("user", Leaves([c]))))
  {
    hide Keys, Leaves, NamesOf;
    assert PlainName("me");
    LeafKeys([c]);
    MeKey();
    KeysConcat(Leaves([c]), [ME]);
    var keys := Keys(Leaves([c])) + Keys([ME]);
    assert keys[0] == keys[1];
  }

  // -------------------------------------------------------------- whole groups

  ghost predicate GroupOf(env: Env, resource: string, commands: seq<Mapped>) {
    && commands != [] && DistinctActions(commands)
    && forall i :: 0 <= i < |commands| ==> ScreenedOne(env, commands[i]) && commands[i].resource == resource
  }

  lemma GroupKeys(env: Env, resource: string, commands: seq<Mapped>)
    requires GroupOf(env, resource, commands)
    ensures Distinct(Keys(Leaves(commands) + Extras(resource, Leaves(commands))))
  {
    hide Keys, Leaves, Extras, TreeOk, BuildTree, NodeOk, Blank, GroupNode, PlainName;
    var leaves := Leaves(commands);
    var extras := Extras(resource, leaves);
    LeafKeys(commands);
    ExtraKeys(resource, commands);
    KeysConcat(leaves, extras);
    hide ScreenedOne;
    forall key | key in Keys(leaves) ensures key !in Keys(extras) {
      var i :| 0 <= i < |commands| && Keys(leaves)[i] == key;
      assert commands[i].action == key;
      NotPlus(commands[i].action);
      FromAlone(env, commands[i]);
    }
    DistinctConcat(Keys(leaves), Keys(extras));
  }

  lemma NotPlus(s: string)
    requires PlainName(s)
    ensures !HasPrefix(s, '+')
  {}

  /** A group of screened commands with distinct actions is valid, extras included. */
  lemma GroupOk(env: Env, resource: string, commands: seq<Mapped>)
    requires GroupOf(env, resource, commands)
    ensures NodeOk(Decorated(GroupNode(env, resource, Leaves(commands))))
  {
    var leaves := Leaves(commands);
    var extras := Extras(resource, leaves);
    var g := Decorated(GroupNode(env, resource, leaves));
    GroupKeys(env, resource, commands);
    hide Extras, BuildTree, TreeOk, Keys, Leaf, FlagsOk, Blank, PlainName;
    FromAlone(env, commands[0]);
    assert FlagsOk([]) by { EmptyFlags(); }
    assert NodeSelfOk(g);
    forall i | 0 <= i < |g.children| ensures NodeOk(g.children[i]) {
      if i < |leaves| {
        FromAlone(env, commands[i]);
      } else {
        assert g.children[i] == extras[i - |leaves|];
        var c := ExtraFromOne(resource, commands, g.children[i]);
        FromAlone(env, c);
      }
    }
  }

  lemma EmptyFlags()
    ensures FlagsOk([])
  {}

  // ------------------------------------------------------- sorting into groups

  lemma {:induction false} InsertKeepsDistinct(sorted: seq<Mapped>, c: Mapped)
    requires DistinctActions(sorted) && forall x :: x in sorted ==> x.action != c.action
    ensures DistinctActions(InsertCommand(sorted, c))
  {
    hide Less;
    if sorted != [] && !Less(c.action, sorted[0].action) {
      assert sorted == [sorted[0]] + sorted[1..];
      InsertKeepsDistinct(sorted[1..], c);
      var rest := InsertCommand(sorted[1..], c);
      forall x | x in rest ensures x.action != sorted[0].action {
        assert x in multiset(rest);
      }
    }
  }

  lemma {:induction false} SortKeepsDistinct(commands: seq<Mapped>)
    requires DistinctActions(commands)
    ensures DistinctActions(SortByAction(commands))
  {
    if commands != [] {
      var n := |commands| - 1;
      SortKeepsDistinct(commands[..n]);
      var sorted := SortByAction(commands[..n]);
      forall x | x in sorted ensures x.action != commands[n].action {
        assert x in multiset(sorted);
        assert x in commands[..n];
      }
      InsertKeepsDistinct(sorted, commands[n]);
    }
  }

  lemma {:induction false} GroupHasDistinctActions(commands: seq<Mapped>, resource: string)
    requires DistinctPaths(commands)
    ensures DistinctActions(CommandsOf(commands, resource))
  {
    if commands != [] {
      GroupHasDistinctActions(commands[1..], resource);
      var rest := CommandsOf(commands[1..], resource);
      forall x | x in rest && commands[0].resource == resource ensures x.action != commands[0].action {
        var i :| 0 <= i < |commands[1..]| && commands[1..][i] == x;
        assert !SamePath(commands[0], commands[i + 1]);
      }
    }
  }

  lemma SortedMembers(commands: seq<Mapped>)
    ensures forall c :: c in SortByAction(commands) <==> c in commands
  {
    var sorted := SortByAction(commands);
    hide SortByAction;
    assert forall c :: (c in multiset(sorted) <==> c in sorted) && (c in multiset(commands) <==> c in commands);
  }

  lemma SortedGroup(env: Env, commands: seq<Mapped>, resource: string)
    requires DistinctPaths(commands) && resource in Resources(commands)
    requires forall c :: c in commands ==> ScreenedOne(env, c)
    ensures GroupOf(env, resource, SortByAction(CommandsOf(commands, resource)))
  {
    hide ScreenedOne, DistinctPaths, DistinctActions, Resources, CommandsOf, SortByAction;
    var group := CommandsOf(commands, resource);
    var sorted := SortByAction(group);
    GroupHasDistinctActions(commands, resource);
    SortKeepsDistinct(group);
    SortedMembers(group);
    var i :| 0 <= i < |commands| && commands[i].resource == resource;
    assert commands[i] in group && commands[i] in sorted;
    forall k | 0 <= k < |sorted| ensures ScreenedOne(env, sorted[k]) && sorted[k].resource == resource {
      assert sorted[k] in sorted && sorted[k] in group;
    }
  }

  /** Screened one by one, valid together. */
  lemma AggregateIsValid(env: Env, commands: seq<Mapped>)
    ensures DistinctPaths(Accepted(env, commands))
    ensures TreeOk(BuildTree(env, Accepted(env, commands)))
  {
    hide ScreenedOne, Decorated, GroupNode, SortByAction, CommandsOf, NodeOk, BuildTree, Resources;
    var accepted := Accepted(env, commands);
    AcceptedScreened(env, commands);
    BuildTreeDecorates(env, accepted);
    hide Accepted;
    var tree, names := BuildTree(env, accepted), Resources(accepted);
    forall i | 0 <= i < |tree| ensures NodeOk(tree[i]) {
      SortedGroup(env, accepted, names[i]);
      GroupOk(env, names[i], SortByAction(CommandsOf(accepted, names[i])));
    }
  }

  /** The roots of that tree: distinct plain names without aliases, none of them reserved. */
  lemma AggregateRoots(env: Env, commands: seq<Mapped>)
    ensures var tree := BuildTree(env, Accepted(env, commands));
            && DistinctNames(tree)
            && forall i :: 0 <= i < |tree| ==>
                 PlainName(tree[i].name) && tree[i].aliases == [] && tree[i].name !in env.reserved
  {
    hide PlainName, TreeOk, Extras, Leaves, SortByAction, CommandsOf, BuildTree;
    var accepted := Accepted(env, commands);
    AcceptedScreened(env, commands);
    BuildTreeDecorates(env, accepted);
    GroupsDistinct(env, accepted);
    hide Accepted, Resources;
    var names, groups := Resources(accepted), Groups(env, accepted);
    forall i | 0 <= i < |groups| ensures PlainName(names[i]) && names[i] !in env.reserved {
      assert names[i] in names;
      var k :| 0 <= k < |accepted| && accepted[k].resource == names[i];
      assert ScreenedOne(env, accepted[k]);
    }
  }
}
