/** What stands in the tree of discovered commands, node by node.

    It is said of names, tools and parameters alone, without the functions that make the
    nodes. */
module TreeContents {
  import opened AggregateTree
  import opened CommandTree
  import opened DynamicRegistry
  import opened Options
  import opened Text

  // ------------------------------------------------------------- one command

  /** The parameters that become flags, without those of one flag name if there is one. */
  function Flagged(parameters: seq<Parameter>, but: Option<string>): seq<Parameter> {
    if parameters == [] then [] else
      var p := parameters[0];
      (if p.name == "url" || (but.Some? && IsKebab(p.name, but.value)) then [] else [p]) + Flagged(parameters[1..], but)
  }

  /** The name with hyphens for underscores. */
  predicate IsKebab(name: string, flag: string) {
    |flag| == |name| && forall i :: 0 <= i < |name| ==> flag[i] == if name[i] == '_' then '-' else name[i]
  }

  ghost predicate FlagFor(f: Flag, p: Parameter) {
    && IsKebab(p.name, f.name) && f.short == "" && f.required == p.required && !f.hasDefault
    && (p.kind == "boolean" ==> f.kind == "bool") && (p.kind == "array" ==> f.kind == "string-array")
    && (p.kind == "number" || p.kind == "integer" ==> f.kind == p.kind)
    && (p.kind !in ["boolean", "array", "number", "integer"] ==> f.kind == "string")
  }

  ghost predicate FlagsFor(flags: seq<Flag>, parameters: seq<Parameter>) {
    |flags| == |parameters| && forall i :: 0 <= i < |flags| ==> FlagFor(flags[i], parameters[i])
  }

  /** The node of a command: its action and its tool, a flag for each parameter but `url`, in
      order, and its description, with a hint behind it if something must be given. */
  ghost predicate NodeFor(n: Node, c: Mapped) {
    && n.name == c.action && n.handler == c.tool && FlagsFor(n.flags, Flagged(c.parameters, None))
    && n.aliases == [] && n.args == [] && n.children == []
    && exists hints :: HintsFor(hints, c) && n.brief == c.description + InBrackets(hints)
  }

  /** The parameters that must be given. */
  function Needed(parameters: seq<Parameter>): seq<Parameter> {
    if parameters == [] then [] else
      var p := parameters[0];
      (if p.name != "url" && p.required then [p] else []) + Needed(parameters[1..])
  }

  /** A hint is the flag between two hyphens and an asterisk; fields are hinted at last. */
  ghost predicate HintsFor(hints: seq<string>, c: Mapped) {
    var needed := Needed(c.parameters);
    && |hints| == |needed| + (if c.hasFields then 1 else 0)
    && (c.hasFields ==> hints[|needed|] == "--set")
    && forall i :: 0 <= i < |needed| ==> HintFor(hints[i], needed[i])
  }

  predicate HintFor(hint: string, p: Parameter) {
    |hint| >= 3 && hint[..2] == "--" && hint[|hint| - 1] == '*' && IsKebab(p.name, hint[2..|hint| - 1])
  }

  /** The hints in brackets, with a comma and a blank between them, or nothing. */
  function InBrackets(hints: seq<string>): string {
    if hints == [] then "" else " [" + Joined([hints[0]] + Spaced(hints[1..]), ',') + "]"
  }

  function Spaced(hints: seq<string>): seq<string> { seq(|hints|, i requires 0 <= i < |hints| => " " + hints[i]) }

  // ------------------------------------------------------------ injected ones

  /** The first of the commands with this action calls this tool. */
  ghost predicate Calls(own: seq<Mapped>, action: string, tool: string) {
    exists j :: 0 <= j < |own| && FirstWith(own, action, j) && own[j].tool == tool
  }

  predicate FirstWith(own: seq<Mapped>, action: string, j: nat)
    requires j < |own|
  {
    own[j].action == action && forall i :: 0 <= i < j ==> own[i].action != action
  }

  predicate HasAction(own: seq<Mapped>, action: string) { exists j :: 0 <= j < |own| && own[j].action == action }

  /** A node is added beside a sibling unless its name is taken. */
  predicate Adds(own: seq<Mapped>, name: string, sibling: string) { HasAction(own, sibling) && !HasAction(own, name) }

  ghost predicate IsShortcut(n: Node, own: seq<Mapped>, name: string, arg: string, sibling: string) {
    && n.name == name && n.args == [Arg(arg, false)] && Calls(own, sibling, n.handler) && n.aliases == []
    && n.children == []
  }

  /** The flags have these names in this order; these must be given, and this one is no text. */
  predicate Takes(flags: seq<Flag>, names: seq<string>, needed: set<string>, switch: string) {
    && |flags| == |names|
    && forall i :: 0 <= i < |names| ==>
         flags[i] == Flag(names[i], "", if names[i] == switch then "bool" else "string", names[i] in needed, false)
  }

  predicate TakesUpload(flags: seq<Flag>) {
    Takes(flags, ["resource-type", "project-key", "work-item-id", "work-item-type", "field-key", "filename",
                  "content-type"], {"resource-type", "project-key"}, "")
  }

  predicate TakesDownload(flags: seq<Flag>) {
    Takes(flags, ["project-key", "work-item-id", "output", "overwrite"], {"project-key", "work-item-id", "output"},
          "overwrite")
  }

  /** The batch command calls its sibling's tool and has its flags but the one for the ID, after
      the two for the IDs. */
  ghost predicate BatchOf(n: Node, own: seq<Mapped>) {
    && n.name == "+batch-get" && n.aliases == ["+get-batch"] && n.args == [] && n.children == []
    && |n.flags| >= 2 && n.flags[0] == Flag("work-item-ids", "", "string-slice", false, false)
    && n.flags[1] == Flag("ids-file", "", "string", false, false)
    && exists j :: 0 <= j < |own| && FirstWith(own, "get", j) && n.handler == own[j].tool
                   && FlagsFor(n.flags[2..], Flagged(own[j].parameters, Some("work-item-id")))
  }

  /** What is injected into a group, given its own commands. */
  ghost predicate ExtraFor(name: string, own: seq<Mapped>, extra: seq<Node>) {
    if name == "user" then
      && |extra| == 1 && extra[0].name == "me" && extra[0].handler == "search_user_info"
      && extra[0].aliases == [] && extra[0].flags == [] && extra[0].args == [] && extra[0].children == []
    else if name == "attachment" then
      var up, down := Adds(own, "+upload", "prepare-upload"), Adds(own, "+download", "prepare-download");
      && |extra| == (if up then 1 else 0) + (if down then 1 else 0)
      && (up ==> IsShortcut(extra[0], own, "+upload", "source-path", "prepare-upload") && TakesUpload(extra[0].flags))
      && (down ==> IsShortcut(extra[|extra| - 1], own, "+download", "file-url", "prepare-download") &&
                   TakesDownload(extra[|extra| - 1].flags))
    else if name == "workitem" then
      if Adds(own, "+batch-get", "get") then |extra| == 1 && BatchOf(extra[0], own) else extra == []
    else extra == []
  }

  // ---------------------------------------------------------------- one group

  /** These are the commands of a resource, each as often as it is in the list. */
  ghost predicate OwnOf(own: seq<Mapped>, commands: seq<Mapped>, resource: string) {
    forall c :: multiset(own)[c] == if c.resource == resource then multiset(commands)[c] else 0
  }

  /** The description known for the resource, else a made-up one. */
  predicate DescribedBy(env: Env, g: Node) {
    if g.name in env.descriptions && env.descriptions[g.name] != "" then g.brief == env.descriptions[g.name]
    else g.brief == g.name + " domain"
  }

  /** A group has a node for each command of its resource, then the injected ones, and no
      other. */
  ghost predicate GroupFor(g: Node, commands: seq<Mapped>) { exists own :: GroupWith(g, commands, own) }

  ghost predicate GroupWith(g: Node, commands: seq<Mapped>, own: seq<Mapped>) {
    && g.aliases == [] && g.flags == [] && g.args == [] && g.handler == ""
    && OwnOf(own, commands, g.name) && |own| <= |g.children|
    && (forall j :: 0 <= j < |own| ==> NodeFor(g.children[j], own[j]))
    && ExtraFor(g.name, own, g.children[|own|..])
  }

  // ------------------------------------------------------------------- proofs

  lemma KebabIs(name: string, flag: string)
    ensures IsKebab(name, ToFlagName(name))
    ensures IsKebab(name, flag) <==> flag == ToFlagName(name)
  {}

  lemma OneFlag(p: Parameter)
    ensures FlagFor(Flag(ToFlagName(p.name), "", MapParamType(p.kind), p.required, false), p)
  {
    KebabIs(p.name, p.name);
  }

  lemma {:induction false} ConvertFor(parameters: seq<Parameter>)
    ensures FlagsFor(ConvertParameters(parameters), Flagged(parameters, None))
  {
    hide FlagFor, MapParamType, ToFlagName;
    if parameters != [] {
      OneFlag(parameters[0]);
      ConvertFor(parameters[1..]);
    }
  }

  lemma {:induction false} WithoutFor(parameters: seq<Parameter>, name: string)
    ensures FlagsFor(WithoutFlag(ConvertParameters(parameters), name), Flagged(parameters, Some(name)))
  {
    hide FlagFor, MapParamType, ToFlagName, IsKebab;
    if parameters != [] {
      var p := parameters[0];
      OneFlag(p);
      KebabIs(p.name, name);
      WithoutFor(parameters[1..], name);
      if p.name != "url" {
        var flags := ConvertParameters(parameters);
        assert flags[1..] == ConvertParameters(parameters[1..]) && flags[0].name == ToFlagName(p.name);
        assert WithoutFlag(flags, name) ==
               (if flags[0].name == name then [] else [flags[0]]) + WithoutFlag(flags[1..], name);
      } else {
        assert ConvertParameters(parameters) == ConvertParameters(parameters[1..]);
      }
    }
  }

  lemma {:induction false} HintsAre(parameters: seq<Parameter>)
    ensures var hints, needed := Hints(parameters), Needed(parameters);
            |hints| == |needed| && forall i :: 0 <= i < |needed| ==> HintFor(hints[i], needed[i])
  {
    hide HintFor, ToFlagName;
    if parameters != [] {
      HintsAre(parameters[1..]);
      HintIs(parameters[0]);
    }
  }

  lemma HintIs(p: Parameter)
    ensures HintFor("--" + ToFlagName(p.name) + "*", p)
  {
    hide IsKebab, ToFlagName;
    KebabIs(p.name, p.name);
    var hint := "--" + ToFlagName(p.name) + "*";
    assert hint[2..|hint| - 1] == ToFlagName(p.name);
  }

  lemma {:induction false} JoinIs(hints: seq<string>)
    requires hints != []
    ensures Join(hints) == Joined([hints[0]] + Spaced(hints[1..]), ',')
    decreases |hints|
  {
    if |hints| > 1 {
      var rest := hints[1..];
      JoinIs(rest);
      JoinedFront(rest[0], Spaced(rest[1..]));
      var parts := [hints[0]] + Spaced(rest);
      assert parts[1..] == [" " + rest[0]] + Spaced(rest[1..]);
    }
  }

  lemma JoinedFront(first: string, more: seq<string>)
    ensures Joined([" " + first] + more, ',') == " " + Joined([first] + more, ',')
  {
    assert ([" " + first] + more)[1..] == more && ([first] + more)[1..] == more;
  }

  lemma LeafFor(c: Mapped)
    ensures NodeFor(Leaf(c), c)
  {
    hide ConvertParameters, Flagged, FlagsFor, Hints, Needed, Join, Joined, HintFor;
    ConvertFor(c.parameters);
    HintsAre(c.parameters);
    var hints := Hints(c.parameters) + if c.hasFields then ["--set"] else [];
    if hints != [] { JoinIs(hints); }
    assert HintsFor(hints, c) && Leaf(c).brief == c.description + InBrackets(hints);
  }

  /** A child is found where its action first stands. */
  lemma {:induction false} FirstFound(own: seq<Mapped>, action: string)
    ensures match FindChild(Leaves(own), action)
            case None => !HasAction(own, action)
            case Some(n) => exists j :: 0 <= j < |own| && FirstWith(own, action, j) && n == Leaf(own[j])
  {
    hide Leaf;
    LeafNames(own);
    if own != [] {
      var leaves := Leaves(own);
      assert leaves[1..] == Leaves(own[1..]);
      FirstFound(own[1..], action);
      if own[0].action == action {
        assert FirstWith(own, action, 0);
      } else if FindChild(leaves[1..], action).Some? {
        var n := FindChild(leaves[1..], action).value;
        var j :| 0 <= j < |own[1..]| && FirstWith(own[1..], action, j) && n == Leaf(own[1..][j]);
        assert forall i :: 0 < i < |own| ==> own[i] == own[1..][i - 1];
        assert FirstWith(own, action, j + 1);
      } else {
        forall i | 0 <= i < |own| ensures own[i].action != action { if i > 0 { assert own[i] == own[1..][i - 1]; } }
      }
    }
  }

  lemma LeafNames(own: seq<Mapped>)
    ensures forall i :: 0 <= i < |own| ==> Leaves(own)[i].name == own[i].action
  {}

  lemma ShortcutIs(own: seq<Mapped>, sc: Shortcut)
    ensures var added := ShortcutFor(Leaves(own), sc);
            if Adds(own, sc.name, sc.sibling) then
              |added| == 1 && IsShortcut(added[0], own, sc.name, sc.arg, sc.sibling) && added[0].flags == sc.flags
            else added == []
  {
    hide FindChild, Leaves;
    FirstFound(own, sc.name);
    FirstFound(own, sc.sibling);
    hide Leaf;
    if Adds(own, sc.name, sc.sibling) {
      var n := FindChild(Leaves(own), sc.sibling).value;
      var j :| 0 <= j < |own| && FirstWith(own, sc.sibling, j) && n == Leaf(own[j]);
      LeafTool(own[j]);
      assert Calls(own, sc.sibling, n.handler);
    }
  }

  lemma LeafTool(c: Mapped)
    ensures Leaf(c).handler == c.tool && Leaf(c).flags == ConvertParameters(c.parameters)
  {
    hide ConvertParameters, ShortDesc;
  }

  lemma BatchIs(own: seq<Mapped>)
    ensures var added := BatchFor(Leaves(own));
            if Adds(own, "+batch-get", "get") then |added| == 1 && BatchOf(added[0], own) else added == []
  {
    hide FindChild, Leaves, Leaf, BatchNode, BatchOf;
    FirstFound(own, "+batch-get");
    FirstFound(own, "get");
    if Adds(own, "+batch-get", "get") {
      var n := FindChild(Leaves(own), "get").value;
      var j :| 0 <= j < |own| && FirstWith(own, "get", j) && n == Leaf(own[j]);
      BatchNodeIs(own, j);
    }
  }

  lemma BatchNodeIs(own: seq<Mapped>, j: nat)
    requires j < |own| && FirstWith(own, "get", j)
    ensures BatchOf(BatchNode(Leaf(own[j])), own)
  {
    hide Leaf, WithoutFlag, ConvertParameters, Flagged, FlagsFor;
    LeafTool(own[j]);
    WithoutFor(own[j].parameters, "work-item-id");
    var batch := BatchNode(Leaf(own[j]));
    assert batch.flags[2..] == WithoutFlag(Leaf(own[j]).flags, "work-item-id");
  }

  /** The second shortcut is looked for beside the first; that one is not its sibling. */
  lemma BesideFirst(own: seq<Mapped>, first: seq<Node>)
    requires first == [] || (|first| == 1 && first[0].name == "+upload")
    ensures ShortcutFor(Leaves(own) + first, DOWNLOAD) == ShortcutFor(Leaves(own), DOWNLOAD)
  {
    hide Leaves;
    FindChildConcat(Leaves(own), first, DOWNLOAD.name);
    FindChildConcat(Leaves(own), first, DOWNLOAD.sibling);
    assert first != [] ==> first[1..] == [];
  }

  lemma ExtrasAre(name: string, own: seq<Mapped>)
    ensures ExtraFor(name, own, Extras(name, Leaves(own)))
  {
    hide Leaves, ShortcutFor, BatchFor, Adds, IsShortcut, BatchOf;
    if name == "attachment" {
      ShortcutIs(own, UPLOAD);
      ShortcutIs(own, DOWNLOAD);
      assert TakesUpload(UPLOAD.flags) && TakesDownload(DOWNLOAD.flags);
      var first := ShortcutFor(Leaves(own), UPLOAD);
      UploadName(own, first);
      BesideFirst(own, first);
    } else if name == "workitem" {
      BatchIs(own);
    }
  }

  lemma UploadName(own: seq<Mapped>, first: seq<Node>)
    requires first == ShortcutFor(Leaves(own), UPLOAD)
    ensures first == [] || (|first| == 1 && first[0].name == "+upload")
  {
    hide Leaves, FindChild;
  }

  lemma {:induction false} OwnIs(commands: seq<Mapped>, resource: string)
    ensures OwnOf(CommandsOf(commands, resource), commands, resource)
  {
    if commands != [] {
      OwnIs(commands[1..], resource);
      assert commands == [commands[0]] + commands[1..];
    }
  }

  /** The tree holds, for each resource, the commands of that resource and what is injected
      beside them, and nothing else. */
  lemma TreeHolds(env: Env, commands: seq<Mapped>, i: nat)
    requires i < |BuildTree(env, commands)|
    ensures GroupFor(BuildTree(env, commands)[i], commands) && DescribedBy(env, BuildTree(env, commands)[i])
  {
    hide BuildTree, Extras, SortByAction, CommandsOf, Resources, Leaf, NodeFor, ExtraFor;
    BuildTreeDecorates(env, commands);
    var names := Resources(commands);
    var own := SortByAction(CommandsOf(commands, names[i]));
    var g := BuildTree(env, commands)[i];
    OwnIs(commands, names[i]);
    ExtrasAre(names[i], own);
    assert g.children == Leaves(own) + Extras(names[i], Leaves(own));
    assert g.children[|own|..] == Extras(names[i], Leaves(own));
    forall j | 0 <= j < |own| ensures NodeFor(g.children[j], own[j]) { LeafFor(own[j]); }
    assert GroupWith(g, commands, own);
  }

  // ------------------------------------------------------- one node a command

  /** The node at a path. */
  predicate StandsAt(tree: seq<Node>, c: Mapped, i: nat, j: nat) {
    i < |tree| && j < |tree[i].children| && tree[i].name == c.resource && tree[i].children[j].name == c.action
  }

  lemma {:induction false} KeyOfChild(nodes: seq<Node>, j: nat)
    requires j < |nodes|
    ensures ToLower(nodes[j].name) in Keys(nodes)
  {
    var n := |nodes| - 1;
    if j < n {
      KeyOfChild(nodes[..n], j);
      assert nodes[..n][j] == nodes[j];
    } else {
      assert NamesOf(nodes[n])[0] == ToLower(nodes[n].name);
    }
  }

  lemma {:induction false} ChildrenDiffer(nodes: seq<Node>, i: nat, j: nat)
    requires Distinct(Keys(nodes)) && i < j < |nodes|
    ensures nodes[i].name != nodes[j].name
  {
    hide ToLower;
    var n := |nodes| - 1;
    var before, last := Keys(nodes[..n]), NamesOf(nodes[n]);
    assert Distinct(before) by {
      forall a, b | 0 <= a < b < |before| ensures before[a] != before[b] {
        assert Keys(nodes)[a] == before[a] && Keys(nodes)[b] == before[b];
      }
    }
    assert nodes[..n][i] == nodes[i];
    if j < n {
      ChildrenDiffer(nodes[..n], i, j);
      assert nodes[..n][j] == nodes[j];
    } else {
      KeyOfChild(nodes[..n], i);
      var a :| 0 <= a < |before| && before[a] == ToLower(nodes[i].name);
      assert Keys(nodes)[a] == before[a] && Keys(nodes)[|before|] == last[0] == ToLower(nodes[n].name);
    }
  }

  /** In a valid tree each command has exactly one node at its path, and that is its own. */
  lemma OneNodeEach(env: Env, commands: seq<Mapped>, c: Mapped) returns (i: nat, j: nat)
    requires c in commands && TreeOk(BuildTree(env, commands))
    ensures var tree := BuildTree(env, commands);
            && StandsAt(tree, c, i, j) && NodeFor(tree[i].children[j], c)
            && forall i', j' :: StandsAt(tree, c, i', j') ==> i' == i && j' == j
  {
    hide BuildTree, NodeFor, ExtraFor, Less;
    var tree := BuildTree(env, commands);
    TreeIsSorted(env, commands);
    var k :| 0 <= k < |commands| && commands[k] == c;
    assert HasResource(commands, c.resource) && HasGroup(tree, c.resource);
    i :| i < |tree| && tree[i].name == c.resource;
    TreeHolds(env, commands, i);
    var own :| GroupWith(tree[i], commands, own);
    assert multiset(own)[c] == multiset(commands)[c] > 0;
    j :| j < |own| && own[j] == c;
    OwnName(tree[i].children[j], c);
    assert NodeOk(tree[i]) && NodeSelfOk(tree[i]);
    forall i': nat, j': nat | StandsAt(tree, c, i', j') ensures i' == i && j' == j {
      if i' < i { LessTrichotomy(tree[i'].name, tree[i].name); }
      if i < i' { LessTrichotomy(tree[i].name, tree[i'].name); }
      if j' < j { ChildrenDiffer(tree[i].children, j', j); }
      if j < j' { ChildrenDiffer(tree[i].children, j, j'); }
    }
  }

  lemma OwnName(n: Node, c: Mapped)
    requires NodeFor(n, c)
    ensures n.name == c.action
  {
    hide FlagsFor, Flagged;
  }

  /** Every accepted command has exactly one node at its path: it calls the command's tool and
      takes its parameters. */
  lemma AcceptedHasNode(env: Env, commands: seq<Mapped>, c: Mapped) returns (i: nat, j: nat)
    requires c in Accepted(env, commands)
    ensures var tree := BuildTree(env, Accepted(env, commands));
            && StandsAt(tree, c, i, j)
            && tree[i].children[j].handler == c.tool && FlagsFor(tree[i].children[j].flags, Flagged(c.parameters, None))
            && forall i', j' :: StandsAt(tree, c, i', j') ==> i' == i && j' == j
  {
    hide BuildTree, TreeOk, Accepted, FlagsFor, Flagged;
    AggregateIsValid(env, commands);
    i, j := OneNodeEach(env, Accepted(env, commands), c);
  }
}
