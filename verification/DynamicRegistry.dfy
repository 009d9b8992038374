/** Untrusted tool lists: each mapped command is screened alone, in a tree of its own; the
    accepted ones are then built into one tree with the injected commands. */
module DynamicRegistry {
  import opened Options
  import opened Text
  import opened CommandTree

  datatype Parameter = Parameter(name: string, kind: string, required: bool, description: string)

  datatype Mapped = Mapped(resource: string, action: string, tool: string, description: string,
                           parameters: seq<Parameter>, hasFields: bool)

  /** What the surroundings supply: the global flags, the reserved roots, the owner of
      a built-in path, the cleaning of help texts and the group descriptions. */
  datatype Env = Env(globalFlags: seq<string>, reserved: set<string>, owner: (string, string) -> Option<string>,
                     clean: string -> string, descriptions: map<string, string>)

  // ------------------------------------------------------------ building nodes

  function ToFlagName(name: string): string { ReplaceAll(name, '_', '-') }

  function MapParamType(kind: string): string {
    if kind in ["string", "number", "integer"] then kind
    else if kind == "boolean" then "bool"
    else if kind == "array" then "string-array"
    else "string"
  }

  function ConvertParameters(parameters: seq<Parameter>): seq<Flag> {
    if parameters == [] then [] else
      var p := parameters[0];
      (if p.name == "url" then [] else [Flag(ToFlagName(p.name), "", MapParamType(p.kind), p.required, false)])
      + ConvertParameters(parameters[1..])
  }

  function Hints(parameters: seq<Parameter>): seq<string> {
    if parameters == [] then [] else
      var p := parameters[0];
      (if p.name != "url" && p.required then ["--" + ToFlagName(p.name) + "*"] else []) + Hints(parameters[1..])
  }

  function Join(texts: seq<string>): string {
    if texts == [] then "" else if |texts| == 1 then texts[0] else texts[0] + ", " + Join(texts[1..])
  }

  function ShortDesc(c: Mapped): string {
    var hints := Hints(c.parameters) + if c.hasFields then ["--set"] else [];
    if hints == [] then c.description else c.description + " [" + Join(hints) + "]"
  }

  function Leaf(c: Mapped): Node {
    Node(c.action, [], ShortDesc(c), ConvertParameters(c.parameters), [], [], c.tool)
  }

  function Leaves(commands: seq<Mapped>): seq<Node> {
    seq(|commands|, i requires 0 <= i < |commands| => Leaf(commands[i]))
  }

  function GroupNode(env: Env, name: string, leaves: seq<Node>): Node {
    var found := if name in env.descriptions then env.descriptions[name] else "";
    Node(name, [], if found == "" then name + " domain" else found, [], [], leaves, "")
  }

  function InsertName(names: seq<string>, n: string): (r: seq<string>)
    requires Distinct(names) && n !in names
    ensures forall x :: x in r <==> x in names || x == n
    ensures Distinct(r)
  {
    if names == [] || Less(n, names[0]) then
      DistinctConcat([n], names);
      [n] + names
    else
      assert names == [names[0]] + names[1..];
      DistinctTail(names);
      DistinctConcat([names[0]], InsertName(names[1..], n));
      [names[0]] + InsertName(names[1..], n)
  }

  lemma DistinctTail(names: seq<string>)
    requires names != []
    ensures Distinct(names) ==> Distinct(names[1..]) && names[0] !in names[1..]
  {}

  /** The distinct resources, sorted. */
  function Resources(commands: seq<Mapped>): (names: seq<string>)
    ensures Distinct(names)
    ensures forall r :: r in names <==> exists i :: 0 <= i < |commands| && commands[i].resource == r
  {
    if commands == [] then [] else
      var n := |commands| - 1;
      var rest := Resources(commands[..n]);
      assert forall r :: r in rest ==> exists i :: 0 <= i < |commands| && commands[i].resource == r by {
        forall r | r in rest ensures exists i :: 0 <= i < |commands| && commands[i].resource == r {
          var i :| 0 <= i < n && commands[..n][i].resource == r;
          assert commands[i].resource == r;
        }
      }
      assert forall i :: 0 <= i < n ==> commands[..n][i] == commands[i];
      if commands[n].resource in rest then rest else InsertName(rest, commands[n].resource)
  }

  function CommandsOf(commands: seq<Mapped>, resource: string): (cs: seq<Mapped>)
    ensures forall c :: c in cs <==> c in commands && c.resource == resource
  {
    if commands == [] then [] else
      assert commands == [commands[0]] + commands[1..];
      (if commands[0].resource == resource then [commands[0]] else []) + CommandsOf(commands[1..], resource)
  }

  function InsertCommand(sorted: seq<Mapped>, c: Mapped): (r: seq<Mapped>)
    ensures multiset(r) == multiset(sorted) + multiset{c}
  {
    if sorted == [] then [c]
    else if Less(c.action, sorted[0].action) then [c] + sorted
    else
      assert sorted == [sorted[0]] + sorted[1..];
      [sorted[0]] + InsertCommand(sorted[1..], c)
  }

  function SortByAction(commands: seq<Mapped>): (r: seq<Mapped>)
    ensures multiset(r) == multiset(commands)
  {
    if commands == [] then [] else
      var n := |commands| - 1;
      assert commands == commands[..n] + [commands[n]];
      InsertCommand(SortByAction(commands[..n]), commands[n])
  }

  predicate NamesSorted(names: seq<string>) { forall i, j :: 0 <= i < j < |names| ==> Less(names[i], names[j]) }

  lemma {:induction false} InsertNameSorted(names: seq<string>, n: string)
    requires Distinct(names) && n !in names && NamesSorted(names)
    ensures NamesSorted(InsertName(names, n))
  {
    hide Less;
    if names != [] {
      LessTrichotomy(n, names[0]);
      DistinctTail(names);
      if Less(n, names[0]) {
        forall j | 1 <= j < |names| ensures Less(n, names[j]) { LessTransitive(n, names[0], names[j]); }
      } else {
        assert forall j :: 1 <= j < |names| ==> names[1..][j - 1] == names[j];
        InsertNameSorted(names[1..], n);
        var later := InsertName(names[1..], n);
        forall j | 0 <= j < |later| ensures Less(names[0], later[j]) {
          assert later[j] in later;
          if later[j] != n {
            var k :| 0 <= k < |names| - 1 && names[1..][k] == later[j];
            assert names[k + 1] == later[j];
          }
        }
      }
    }
  }

  lemma {:induction false} ResourcesSorted(commands: seq<Mapped>)
    ensures NamesSorted(Resources(commands))
  {
    hide InsertName, Less;
    if commands != [] {
      var n := |commands| - 1;
      var rest := Resources(commands[..n]);
      ResourcesSorted(commands[..n]);
      if commands[n].resource !in rest { InsertNameSorted(rest, commands[n].resource); }
    }
  }

  predicate ActionsSorted(cs: seq<Mapped>) {
    forall i, j :: 0 <= i < j < |cs| ==> !Less(cs[j].action, cs[i].action)
  }

  lemma {:induction false} InsertCommandSorted(sorted: seq<Mapped>, c: Mapped)
    requires ActionsSorted(sorted)
    ensures ActionsSorted(InsertCommand(sorted, c))
  {
    hide Less;
    if sorted != [] {
      if Less(c.action, sorted[0].action) {
        forall j | 0 <= j < |sorted| ensures !Less(sorted[j].action, c.action) {
          if Less(sorted[j].action, c.action) {
            LessTransitive(sorted[j].action, c.action, sorted[0].action);
            LessTrichotomy(sorted[j].action, sorted[0].action);
          }
        }
      } else {
        InsertCommandSorted(sorted[1..], c);
        var later := InsertCommand(sorted[1..], c);
        forall j | 0 <= j < |later| ensures !Less(later[j].action, sorted[0].action) {
          assert later[j] in multiset(later);
          if later[j] != c {
            assert later[j] in sorted[1..];
          }
        }
      }
    }
  }

  lemma {:induction false} SortedByAction(commands: seq<Mapped>)
    ensures ActionsSorted(SortByAction(commands))
  {
    hide InsertCommand, Less;
    if commands != [] {
      var n := |commands| - 1;
      SortedByAction(commands[..n]);
      InsertCommandSorted(SortByAction(commands[..n]), commands[n]);
    }
  }

  /** The groups before anything is injected. */
  function Groups(env: Env, commands: seq<Mapped>): seq<Node> {
    var names := Resources(commands);
    seq(|names|, i requires 0 <= i < |names| =>
      GroupNode(env, names[i], Leaves(SortByAction(CommandsOf(commands, names[i])))))
  }

  // ---------------------------------------------------------------- injection

  function FindChild(children: seq<Node>, name: string): Option<Node> {
    if children == [] then None
    else if children[0].name == name then Some(children[0])
    else FindChild(children[1..], name)
  }

  predicate HasChildNamed(children: seq<Node>, name: string) { FindChild(children, name).Some? }

  /** `user me`. */
  const ME := Node("me", [], "View current logged-in user information", [], [], [], "search_user_info")

  datatype Shortcut = Shortcut(name: string, brief: string, sibling: string, arg: string, flags: seq<Flag>)

  const UPLOAD := Shortcut("+upload", "Upload a local file end-to-end (preprocess + signed HTTP POST)",
    "prepare-upload", "source-path",
    [Flag("resource-type", "", "string", true, false), Flag("project-key", "", "string", true, false),
     Flag("work-item-id", "", "string", false, false), Flag("work-item-type", "", "string", false, false),
     Flag("field-key", "", "string", false, false), Flag("filename", "", "string", false, false),
     Flag("content-type", "", "string", false, false)])

  const DOWNLOAD := Shortcut("+download",
    "Download an attachment end-to-end (preprocess + signed HTTP GET + atomic write)", "prepare-download", "file-url",
    [Flag("project-key", "", "string", true, false), Flag("work-item-id", "", "string", true, false),
     Flag("output", "", "string", true, false), Flag("overwrite", "", "bool", false, false)])

  function ShortcutNode(sc: Shortcut, sibling: Node): Node {
    Node(sc.name, [], sc.brief, sc.flags, [Arg(sc.arg, false)], [], sibling.handler)
  }

  function ShortcutFor(children: seq<Node>, sc: Shortcut): seq<Node> {
    if HasChildNamed(children, sc.name) then [] else
      match FindChild(children, sc.sibling)
      case None => []
      case Some(sibling) => [ShortcutNode(sc, sibling)]
  }

  function WithoutFlag(flags: seq<Flag>, name: string): seq<Flag> {
    if flags == [] then []
    else (if flags[0].name == name then [] else [flags[0]]) + WithoutFlag(flags[1..], name)
  }

  /** `workitem +batch-get`: the ID flags, then the sibling's flags but the per-item one. */
  function BatchNode(sibling: Node): Node {
    Node("+batch-get", ["+get-batch"],
         "Batch-read work items by IDs (client-side fan-out over `workitem get`).",
         [Flag("work-item-ids", "", "string-slice", false, false), Flag("ids-file", "", "string", false, false)]
         + WithoutFlag(sibling.flags, "work-item-id"),
         [], [], sibling.handler)
  }

  function BatchFor(children: seq<Node>): seq<Node> {
    if HasChildNamed(children, "+batch-get") then [] else
      match FindChild(children, "get")
      case None => []
      case Some(sibling) => [BatchNode(sibling)]
  }

  function AddSugar(g: Node): Node { g.(children := g.children + [ME]) }

  function AddShortcut(g: Node, sc: Shortcut): Node { g.(children := g.children + ShortcutFor(g.children, sc)) }

  function AddShortcuts(g: Node): Node { AddShortcut(AddShortcut(g, UPLOAD), DOWNLOAD) }

  function AddBatch(g: Node): Node { g.(children := g.children + BatchFor(g.children)) }

  /** Changes the first node of that name. */
  function UpdateFirst(nodes: seq<Node>, name: string, f: Node -> Node): (r: seq<Node>)
    ensures |r| == |nodes|
  {
    if nodes == [] then []
    else if nodes[0].name == name then [f(nodes[0])] + nodes[1..]
    else [nodes[0]] + UpdateFirst(nodes[1..], name, f)
  }

  /** `buildCommandTree`. */
  function BuildTree(env: Env, commands: seq<Mapped>): seq<Node> {
    var sugared := UpdateFirst(Groups(env, commands), "user", AddSugar);
    var attached := UpdateFirst(sugared, "attachment", AddShortcuts);
    UpdateFirst(attached, "workitem", AddBatch)
  }

  /** Where `findNodeByName` finds a node. */
  method FindNode(nodes: array<Node>, name: string) returns (index: int)
    ensures -1 <= index < nodes.Length
    ensures index == -1 <==> forall i :: 0 <= i < nodes.Length ==> nodes[i].name != name
    ensures index >= 0 ==> nodes[index].name == name && forall i :: 0 <= i < index ==> nodes[i].name != name
  {
    for i := 0 to nodes.Length
      invariant forall j :: 0 <= j < i ==> nodes[j].name != name
    {
      if nodes[i].name == name { return i; }
    }
    return -1;
  }

  lemma {:induction false} UpdateFirstAt(nodes: seq<Node>, name: string, f: Node -> Node, index: int)
    requires -1 <= index < |nodes|
    requires index == -1 ==> forall i :: 0 <= i < |nodes| ==> nodes[i].name != name
    requires index >= 0 ==> nodes[index].name == name && forall i :: 0 <= i < index ==> nodes[i].name != name
    ensures UpdateFirst(nodes, name, f) == if index == -1 then nodes else nodes[index := f(nodes[index])]
  {
    if nodes != [] && index != 0 {
      UpdateFirstAt(nodes[1..], name, f, if index == -1 then -1 else index - 1);
      assert nodes == [nodes[0]] + nodes[1..];
    }
  }

  /** `injectSugarCommands`, in place. */
  method InjectSugarCommands(nodes: array<Node>)
    modifies nodes
    ensures nodes[..] == UpdateFirst(old(nodes[..]), "user", AddSugar)
  {
    var i := FindNode(nodes, "user");
    UpdateFirstAt(nodes[..], "user", AddSugar, i);
    if i >= 0 { nodes[i] := nodes[i].(children := nodes[i].children + [ME]); }
  }

  /** `injectAttachmentCommands`, in place. */
  method InjectAttachmentCommands(nodes: array<Node>)
    modifies nodes
    ensures nodes[..] == UpdateFirst(old(nodes[..]), "attachment", AddShortcuts)
  {
    var i := FindNode(nodes, "attachment");
    UpdateFirstAt(nodes[..], "attachment", AddShortcuts, i);
    if i < 0 { return; }
    var shortcuts := [UPLOAD, DOWNLOAD];
    ghost var group, before := nodes[i], nodes[..];
    for k := 0 to |shortcuts|
      invariant nodes[..] == before[i := nodes[i]]
      invariant nodes[i] == if k == 0 then group else if k == 1 then AddShortcut(group, UPLOAD) else AddShortcuts(group)
    {
      var sc := shortcuts[k];
      if HasChildNamed(nodes[i].children, sc.name) { continue; }
      var sibling := FindChild(nodes[i].children, sc.sibling);
      if sibling.None? { continue; }
      nodes[i] := nodes[i].(children := nodes[i].children + [ShortcutNode(sc, sibling.value)]);
    }
  }

  /** `injectBatchCommands`, in place. */
  method InjectBatchCommands(nodes: array<Node>)
    modifies nodes
    ensures nodes[..] == UpdateFirst(old(nodes[..]), "workitem", AddBatch)
  {
    var i := FindNode(nodes, "workitem");
    UpdateFirstAt(nodes[..], "workitem", AddBatch, i);
    if i < 0 { return; }
    assert nodes[i].children + [] == nodes[i].children;
    if HasChildNamed(nodes[i].children, "+batch-get") { return; }
    var sibling := FindChild(nodes[i].children, "get");
    if sibling.None? { return; }
    nodes[i] := nodes[i].(children := nodes[i].children + [BatchNode(sibling.value)]);
  }

  /** `buildCommandTree`: the groups, then the three passes over them. */
  method BuildCommandTree(env: Env, commands: seq<Mapped>) returns (tree: seq<Node>)
    ensures tree == BuildTree(env, commands)
  {
    var groups := Groups(env, commands);
    var nodes := new Node[|groups|](i requires 0 <= i < |groups| => groups[i]);
    assert nodes[..] == groups;
    InjectSugarCommands(nodes);
    InjectAttachmentCommands(nodes);
    InjectBatchCommands(nodes);
    return nodes[..];
  }

  // ---------------------------------------------------------------- screening

  const RESERVED_FLAGS: set<string> := {"help", "version"}

  predicate ParameterOk(env: Env, p: Parameter) {
    p.name == "url" ||
    var flag := ToFlagName(p.name);
    && PlainName(flag)
    && flag !in RESERVED_FLAGS
    && forall i :: 0 <= i < |env.globalFlags| ==> ToLower(flag) != ToLower(env.globalFlags[i])
  }

  predicate ParametersOk(env: Env, ps: seq<Parameter>) {
    forall i :: 0 <= i < |ps| ==> ParameterOk(env, ps[i])
  }

  function CleanParameters(env: Env, ps: seq<Parameter>): seq<Parameter> {
    seq(|ps|, i requires 0 <= i < |ps| => ps[i].(description := env.clean(ps[i].description)))
  }

  /** The command with its help texts cleaned. */
  function Cleaned(env: Env, c: Mapped): Mapped {
    var d := env.clean(c.description);
    c.(description := if d == "" then "Run dynamic tool" else d, parameters := CleanParameters(env, c.parameters))
  }

  datatype Code = ReservedPath | InvalidCommand | DuplicatePath

  /** Why a command is isolated, looking at nothing but itself. */
  function Screen(env: Env, c: Mapped): Option<Code> {
    var owner := env.owner(c.resource, c.action);
    if c.resource in env.reserved then Some(ReservedPath)
    else if owner.Some? && owner.value != c.tool then Some(ReservedPath)
    else if !PlainName(c.resource) || !PlainName(c.action) then Some(InvalidCommand)
    else if !ParametersOk(env, Cleaned(env, c).parameters) then Some(InvalidCommand)
    else if !TreeOk(BuildTree(env, [Cleaned(env, c)])) then Some(InvalidCommand)
    else None
  }

  datatype Issue = Issue(code: Code, tool: string)

  predicate SamePath(a: Mapped, b: Mapped) { a.resource == b.resource && a.action == b.action }

  predicate Taken(accepted: seq<Mapped>, c: Mapped) {
    exists i :: 0 <= i < |accepted| && SamePath(accepted[i], c)
  }

  /** The commands that pass the screen, the first one on each path. */
  function Accepted(env: Env, commands: seq<Mapped>): seq<Mapped> {
    if commands == [] then [] else
      var before, c := Accepted(env, commands[..|commands| - 1]), commands[|commands| - 1];
      if Screen(env, c).Some? || Taken(before, c) then before else before + [Cleaned(env, c)]
  }

  /** An earlier command with this path passes its own screen. */
  ghost predicate Repeats(env: Env, commands: seq<Mapped>, i: nat)
    requires i < |commands|
  {
    exists j :: 0 <= j < i && Screen(env, commands[j]).None? && SamePath(commands[j], commands[i])
  }

  /** Why a command of the list is isolated, if it is: for itself, or for an earlier one. */
  ghost function CodeOf(env: Env, commands: seq<Mapped>, i: nat): Option<Code>
    requires i < |commands|
  {
    if Screen(env, commands[i]).Some? then Screen(env, commands[i])
    else if Repeats(env, commands, i) then Some(DuplicatePath)
    else None
  }

  /** The issues of a list, in its order. */
  ghost function IssuesOf(env: Env, commands: seq<Mapped>): seq<Issue> {
    if commands == [] then [] else
      var n := |commands| - 1;
      IssuesOf(env, commands[..n])
      + (match CodeOf(env, commands, n)
         case None => []
         case Some(code) => [Issue(code, commands[n].tool)])
  }

  /** The commands that are no issue, cleaned, in the order of the list. */
  ghost function Unflagged(env: Env, commands: seq<Mapped>): seq<Mapped> {
    if commands == [] then [] else
      var n := |commands| - 1;
      Unflagged(env, commands[..n]) + if CodeOf(env, commands, n).None? then [Cleaned(env, commands[n])] else []
  }

  lemma {:induction false} TakenIff(env: Env, commands: seq<Mapped>, n: nat, c: Mapped)
    requires n <= |commands|
    ensures Taken(Accepted(env, commands[..n]), c) <==>
            exists j :: 0 <= j < n && Screen(env, commands[j]).None? && SamePath(commands[j], c)
  {
    hide Screen;
    if n > 0 {
      var before, last := commands[..n - 1], commands[n - 1];
      assert commands[..n][..n - 1] == before && commands[..n][n - 1] == last;
      TakenIff(env, commands, n - 1, c);
      TakenIff(env, commands, n - 1, last);
      var accepted := Accepted(env, before);
      if Screen(env, last).None? && !Taken(accepted, last) {
        TakenMore(env, accepted, last, c);
      } else if Screen(env, last).None? && SamePath(last, c) {
        var i :| 0 <= i < |accepted| && SamePath(accepted[i], last);
        assert SamePath(accepted[i], c);
      }
    }
  }

  lemma TakenMore(env: Env, accepted: seq<Mapped>, last: Mapped, c: Mapped)
    ensures Taken(accepted + [Cleaned(env, last)], c) <==> Taken(accepted, c) || SamePath(last, c)
  {
    var after := accepted + [Cleaned(env, last)];
    if Taken(accepted, c) {
      var i :| 0 <= i < |accepted| && SamePath(accepted[i], c);
      assert after[i] == accepted[i];
    }
    if SamePath(last, c) { assert SamePath(after[|accepted|], c); }
  }

  /** The accepted commands are those that are no issue. */
  lemma {:induction false} AcceptedUnflagged(env: Env, commands: seq<Mapped>)
    ensures Accepted(env, commands) == Unflagged(env, commands)
  {
    hide Screen, Taken;
    if commands != [] {
      var n := |commands| - 1;
      AcceptedUnflagged(env, commands[..n]);
      TakenIff(env, commands, n, commands[n]);
    }
  }

  function Path(c: Mapped): string { c.resource + "/" + c.action }

  /** One path text means one path, as names contain no slash. */
  lemma PathIsPair(a: Mapped, b: Mapped)
    requires PlainName(a.resource) && PlainName(b.resource)
    ensures Path(a) == Path(b) <==> SamePath(a, b)
  {
    assert '/' !in a.resource && '/' !in b.resource;
    assert Path(a) == a.resource + ['/'] + a.action && Path(b) == b.resource + ['/'] + b.action;
    CutAtFirst(a.resource, '/', a.action);
    CutAtFirst(b.resource, '/', b.action);
  }

  /** `paths` are the paths of the commands accepted so far. */
  ghost predicate PathsOf(accepted: seq<Mapped>, paths: set<string>) {
    && (forall p :: p in paths ==> exists i :: 0 <= i < |accepted| && Path(accepted[i]) == p)
    && (forall i :: 0 <= i < |accepted| ==> Path(accepted[i]) in paths && PlainName(accepted[i].resource))
  }

  lemma PathsTaken(accepted: seq<Mapped>, paths: set<string>, c: Mapped)
    requires PathsOf(accepted, paths) && PlainName(c.resource)
    ensures Path(c) in paths <==> Taken(accepted, c)
    ensures PathsOf(accepted + [c], paths + {Path(c)})
  {
    hide PlainName, Path;
    forall i | 0 <= i < |accepted| ensures Path(accepted[i]) == Path(c) <==> SamePath(accepted[i], c) {
      PathIsPair(accepted[i], c);
    }
    var after := accepted + [c];
    forall p | p in paths + {Path(c)} ensures exists i :: 0 <= i < |after| && Path(after[i]) == p {
      if p in paths {
        var i :| 0 <= i < |accepted| && Path(accepted[i]) == p;
        assert after[i] == accepted[i];
      } else {
        assert after[|accepted|] == c;
      }
    }
  }

  ghost predicate Sanitized(env: Env, commands: seq<Mapped>, accepted: seq<Mapped>, issues: seq<Issue>,
                            paths: set<string>)
  {
    accepted == Accepted(env, commands) && issues == IssuesOf(env, commands) && PathsOf(accepted, paths)
  }

  lemma SanitizeStart(env: Env)
    ensures Sanitized(env, [], [], [], {})
  {}

  lemma SanitizeDone(env: Env, commands: seq<Mapped>, accepted: seq<Mapped>, issues: seq<Issue>, paths: set<string>)
    requires Sanitized(env, commands, accepted, issues, paths)
    ensures accepted == Accepted(env, commands) == Unflagged(env, commands) && issues == IssuesOf(env, commands)
  {
    AcceptedUnflagged(env, commands);
  }

  lemma SanitizeStep(env: Env, before: seq<Mapped>, c: Mapped, accepted: seq<Mapped>, issues: seq<Issue>,
                     paths: set<string>)
    requires Sanitized(env, before, accepted, issues, paths)
    ensures Screen(env, c).Some? ==>
              Sanitized(env, before + [c], accepted, issues + [Issue(Screen(env, c).value, c.tool)], paths)
    ensures Screen(env, c).None? && Path(c) in paths ==>
              Sanitized(env, before + [c], accepted, issues + [Issue(DuplicatePath, c.tool)], paths)
    ensures Screen(env, c).None? && Path(c) !in paths ==>
              Sanitized(env, before + [c], accepted + [Cleaned(env, c)], issues, paths + {Path(c)})
  {
    ScreenedPlain(env, c);
    hide Screen, PathsOf, Taken;
    assert (before + [c])[..|before|] == before && issues + [] == issues;
    TakenIff(env, before + [c], |before|, c);
    if Screen(env, c).None? {
      PathsTaken(accepted, paths, Cleaned(env, c));
      TakenCleaned(env, accepted, c);
    }
  }

  lemma ScreenedPlain(env: Env, c: Mapped)
    ensures Screen(env, c).None? ==> PlainName(c.resource) && PlainName(c.action)
  {
    hide PlainName, BuildTree, TreeOk, ParametersOk;
  }

  lemma TakenCleaned(env: Env, accepted: seq<Mapped>, c: Mapped)
    ensures Taken(accepted, Cleaned(env, c)) == Taken(accepted, c) && Path(Cleaned(env, c)) == Path(c)
  {
    assert forall i :: 0 <= i < |accepted| ==> SamePath(accepted[i], Cleaned(env, c)) == SamePath(accepted[i], c);
  }

  /** `sanitizeMappedCommands`. */
  method SanitizeMappedCommands(env: Env, commands: seq<Mapped>) returns (accepted: seq<Mapped>, issues: seq<Issue>)
    ensures accepted == Accepted(env, commands) == Unflagged(env, commands)
    ensures issues == IssuesOf(env, commands)
  {
    hide *;
    accepted, issues := [], [];
    var paths: set<string> := {};
    assert commands[..0] == [];
    SanitizeStart(env);
    for k := 0 to |commands|
      invariant Sanitized(env, commands[..k], accepted, issues, paths)
    {
      var c := commands[k];
      assert commands[..k + 1] == commands[..k] + [c];
      SanitizeStep(env, commands[..k], c, accepted, issues, paths);
      var code := ScreenCommand(env, c);
      if code.Some? {
        issues := issues + [Issue(code.value, c.tool)];
        continue;
      }
      var path := Path(c);
      if path in paths {
        issues := issues + [Issue(DuplicatePath, c.tool)];
        continue;
      }
      paths := paths + {path};
      accepted := accepted + [Cleaned(env, c)];
    }
    assert commands[..|commands|] == commands;
    SanitizeDone(env, commands, accepted, issues, paths);
  }

  /** The checks of one command, in the order of the code. */
  method ScreenCommand(env: Env, c: Mapped) returns (code: Option<Code>)
    ensures code == Screen(env, c)
  {
    if c.resource in env.reserved { return Some(ReservedPath); }
    var owner := env.owner(c.resource, c.action);
    if owner.Some? && owner.value != c.tool { return Some(ReservedPath); }
    if !PlainName(c.resource) || !PlainName(c.action) { return Some(InvalidCommand); }
    var cleaned := Cleaned(env, c);
    var parametersValid := CheckParameters(env, cleaned.parameters);
    if !parametersValid { return Some(InvalidCommand); }
    var candidate := BuildCommandTree(env, [cleaned]);
    var errors := ValidateTree(candidate);
    if |errors| > 0 { return Some(InvalidCommand); }
    return None;
  }

  method CheckParameters(env: Env, ps: seq<Parameter>) returns (valid: bool)
    ensures valid == ParametersOk(env, ps)
  {
    for k := 0 to |ps|
      invariant forall i :: 0 <= i < k ==> ParameterOk(env, ps[i])
    {
      if ps[k].name == "url" { continue; }
      var flagName := ToFlagName(ps[k].name);
      if !PlainName(flagName) { return false; }
      if flagName in RESERVED_FLAGS { return false; }
      for j := 0 to |env.globalFlags|
        invariant forall i :: 0 <= i < j ==> ToLower(flagName) != ToLower(env.globalFlags[i])
      {
        if ToLower(flagName) == ToLower(env.globalFlags[j]) { return false; }
      }
    }
    return true;
  }
}
