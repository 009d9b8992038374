/** Command trees and their validator.

    Only what decides errors is kept of a node; warnings and message texts are not. */
module CommandTree {
  import opened Text

  datatype Flag = Flag(name: string, short: string, kind: string, required: bool, hasDefault: bool)
  datatype Arg = Arg(name: string, variadic: bool)

  datatype Node = Node(name: string, aliases: seq<string>, brief: string, flags: seq<Flag>, args: seq<Arg>,
                       children: seq<Node>, handler: string)

  datatype Rule =
    | NameRequired | NameFormat | DeadEnd | MissingBrief | DupFlag | BuiltinFlagConflict | RequiredWithDefault
    | ShortConflict | VariadicPosition | ChildConflict

  const BUILTIN_FLAGS: seq<string> :=
    ["set", "params", "dry-run", "format", "select", "envelope", "verbose", "auto-paginate"]

  predicate IsLowerLetter(c: char) { 'a' <= c <= 'z' }

  predicate IsNameChar(c: char) { IsLowerLetter(c) || '0' <= c <= '9' || c == '-' }

  /** `^[a-z][a-z0-9-]*$` */
  predicate PlainName(s: string) {
    s != "" && IsLowerLetter(s[0]) && forall i :: 0 <= i < |s| ==> IsNameChar(s[i])
  }

  /** `^\+?[a-z][a-z0-9-]*$` */
  predicate CommandName(s: string) { PlainName(s) || (HasPrefix(s, '+') && PlainName(s[1..])) }

  predicate Blank(s: string) { TrimSpace(s) == "" }

  predicate IsExecutable(node: Node) { !Blank(node.handler) }

  predicate Distinct(keys: seq<string>) {
    forall i, j :: 0 <= i < j < |keys| ==> keys[i] != keys[j]
  }

  /** The names and aliases siblings share, as compared. */
  function Keys(children: seq<Node>): seq<string> {
    if children == [] then [] else Keys(children[..|children| - 1]) + NamesOf(children[|children| - 1])
  }

  function NamesOf(node: Node): seq<string> {
    LowerAll([node.name] + node.aliases)
  }

  function LowerAll(names: seq<string>): (keys: seq<string>)
    ensures |keys| == |names| && forall i :: 0 <= i < |names| ==> keys[i] == ToLower(names[i])
  {
    seq(|names|, i requires 0 <= i < |names| => ToLower(names[i]))
  }

  predicate FlagsOk(flags: seq<Flag>) {
    && (forall i, j :: 0 <= i < j < |flags| ==> ToLower(flags[i].name) != ToLower(flags[j].name))
    && (forall i :: 0 <= i < |flags| ==> FlagOk(flags[i]))
    && (forall i, j :: 0 <= i < j < |flags| && !Blank(flags[i].short) && !Blank(flags[j].short) ==>
          ToLower(flags[i].short) != ToLower(flags[j].short))
  }

  predicate FlagOk(flag: Flag) {
    ToLower(flag.name) !in LowerAll(BUILTIN_FLAGS) && !(flag.required && flag.hasDefault)
  }

  predicate ArgsOk(args: seq<Arg>) {
    forall i :: 0 <= i < |args| && args[i].variadic ==> i == |args| - 1
  }

  /** Everything the validator asks of one node, apart from its descendants. */
  predicate NodeSelfOk(node: Node) {
    && CommandName(node.name)
    && (IsExecutable(node) || node.children != [])
    && !Blank(node.brief)
    && FlagsOk(node.flags) && ArgsOk(node.args) && Distinct(Keys(node.children))
  }

  predicate NodeOk(node: Node) {
    NodeSelfOk(node) && forall i :: 0 <= i < |node.children| ==> NodeOk(node.children[i])
  }

  predicate TreeOk(nodes: seq<Node>) {
    forall i :: 0 <= i < |nodes| ==> NodeOk(nodes[i])
  }

  // ------------------------------------------------------ what is asked of a tree

  const LETTERS := "abcdefghijklmnopqrstuvwxyz"
  const DIGITS := "0123456789"

  /** A small letter, then small letters, digits and hyphens. */
  predicate IsName(s: string) {
    s != "" && s[0] in LETTERS && forall i :: 0 <= i < |s| ==> s[i] in LETTERS || s[i] in DIGITS || s[i] == '-'
  }

  /** Something stands there besides blanks. */
  predicate Given(s: string) { exists i :: 0 <= i < |s| && !IsSpace(s[i]) }

  function NamesFor(node: Node): seq<string> { [node.name] + node.aliases }

  /** No name of the node is another one of it, whatever their case. */
  predicate NamedApart(node: Node) {
    forall i, j :: 0 <= i < j < |NamesFor(node)| ==> ToLower(NamesFor(node)[i]) != ToLower(NamesFor(node)[j])
  }

  /** No name of one node is a name of the other, whatever their case. */
  predicate Unlike(a: Node, b: Node) {
    forall i, j :: 0 <= i < |NamesFor(a)| && 0 <= j < |NamesFor(b)| ==>
      ToLower(NamesFor(a)[i]) != ToLower(NamesFor(b)[j])
  }

  predicate SiblingsDiffer(nodes: seq<Node>) {
    && (forall k :: 0 <= k < |nodes| ==> NamedApart(nodes[k]))
    && forall k, l :: 0 <= k < l < |nodes| ==> Unlike(nodes[k], nodes[l])
  }

  const FRAMEWORK_NAMES: set<string> :=
    {"auto-paginate", "dry-run", "envelope", "format", "params", "select", "set", "verbose"}

  /** A flag has a name of its own, unlike that of any built-in flag, and a default only if it
      may be left out. */
  ghost predicate FlagsAsked(flags: seq<Flag>) {
    && (forall i :: 0 <= i < |flags| ==> !(flags[i].required && flags[i].hasDefault))
    && (forall i :: 0 <= i < |flags| ==> ToLower(flags[i].name) !in FRAMEWORK_NAMES)
    && (forall i, j :: 0 <= i < j < |flags| ==> ToLower(flags[i].name) != ToLower(flags[j].name))
    && (forall i, j :: 0 <= i < j < |flags| && Given(flags[i].short) && Given(flags[j].short) ==>
          ToLower(flags[i].short) != ToLower(flags[j].short))
  }

  /** What is asked of a single node. */
  ghost predicate Asked(node: Node) {
    && (IsName(node.name) || (node.name != "" && node.name[0] == '+' && IsName(node.name[1..])))
    && (Given(node.handler) || node.children != []) && Given(node.brief)
    && FlagsAsked(node.flags)
    && (forall i :: 0 <= i < |node.args| - 1 ==> !node.args[i].variadic)
    && SiblingsDiffer(node.children)
  }

  /** The node stands somewhere among these or below them. */
  ghost predicate Within(node: Node, nodes: seq<Node>)
    decreases nodes
  {
    exists i :: 0 <= i < |nodes| && (nodes[i] == node || Within(node, nodes[i].children))
  }

  /** A flag breaks the rule, by itself or together with one before it. */
  ghost predicate FlagBreaks(flags: seq<Flag>, j: nat, rule: Rule)
    requires j < |flags|
  {
    match rule
    case DupFlag => exists i :: 0 <= i < j && ToLower(flags[i].name) == ToLower(flags[j].name)
    case BuiltinFlagConflict => ToLower(flags[j].name) in FRAMEWORK_NAMES
    case RequiredWithDefault => flags[j].required && flags[j].hasDefault
    case ShortConflict =>
      Given(flags[j].short) &&
      exists i :: 0 <= i < j && Given(flags[i].short) && ToLower(flags[i].short) == ToLower(flags[j].short)
    case _ => false
  }

  /** One of the first `k` flags does. */
  ghost predicate FlagsBreak(flags: seq<Flag>, k: nat, rule: Rule)
    requires k <= |flags|
  {
    exists j :: 0 <= j < k && FlagBreaks(flags, j, rule)
  }

  /** The node breaks the rule, whatever is below it. */
  ghost predicate Breaks(node: Node, rule: Rule) {
    match rule
    case NameRequired => !Given(node.name)
    case NameFormat => Given(node.name) && !IsName(node.name) && !(node.name[0] == '+' && IsName(node.name[1..]))
    case DeadEnd => !Given(node.handler) && node.children == []
    case MissingBrief => !Given(node.brief)
    case VariadicPosition => exists i :: 0 <= i < |node.args| - 1 && node.args[i].variadic
    case ChildConflict => !SiblingsDiffer(node.children)
    case _ => FlagsBreak(node.flags, |node.flags|, rule)
  }

  /** Some node among these or below them breaks the rule. */
  ghost predicate Broken(nodes: seq<Node>, rule: Rule) { exists n :: Within(n, nodes) && Breaks(n, rule) }

  // --------------------------------------------------------------- validator

  lemma PlainNotBlank(s: string)
    requires CommandName(s)
    ensures !Blank(s)
  {
    assert !IsSpace(s[0]);
  }

  /** The names and the shorts of the first `k` flags. */
  ghost predicate Seen(flags: seq<Flag>, k: nat, names: set<string>, shorts: set<string>)
    requires k <= |flags|
  {
    && (forall key :: key in names <==> exists i :: 0 <= i < k && ToLower(flags[i].name) == key)
    && (forall key :: key in shorts <==>
          exists i :: 0 <= i < k && !Blank(flags[i].short) && ToLower(flags[i].short) == key)
  }

  /** The rules broken by a flag, given the flags before it. */
  function FlagErrors(flag: Flag, names: set<string>, shorts: set<string>): seq<Rule> {
    (if ToLower(flag.name) in names then [DupFlag] else [])
    + (if ToLower(flag.name) in LowerAll(BUILTIN_FLAGS) then [BuiltinFlagConflict] else [])
    + (if flag.required && flag.hasDefault then [RequiredWithDefault] else [])
    + (if !Blank(flag.short) && ToLower(flag.short) in shorts then [ShortConflict] else [])
  }

  lemma FlagsStep(flags: seq<Flag>, k: nat, names: set<string>, shorts: set<string>)
    requires k < |flags| && Seen(flags, k, names, shorts)
    ensures var flag := flags[k];
            && (FlagsOk(flags[..k + 1]) <==> FlagsOk(flags[..k]) && FlagErrors(flag, names, shorts) == [])
            && Seen(flags, k + 1, names + {ToLower(flag.name)},
                    if Blank(flag.short) then shorts else shorts + {ToLower(flag.short)})
  {
    hide Blank, ToLower, LowerAll;
    var flag, a, b := flags[k], flags[..k], flags[..k + 1];
    assert b == a + [flag];
    if FlagsOk(b) {
      assert forall i :: 0 <= i < k ==> b[i] == flags[i] && FlagOk(b[i]);
      assert b[k] == flag && FlagOk(b[k]);
      assert FlagsOk(a);
    }
  }

  lemma FlagBreaksIs(flags: seq<Flag>, k: nat, names: set<string>, shorts: set<string>, rule: Rule)
    requires k < |flags| && Seen(flags, k, names, shorts)
    ensures FlagBreaks(flags, k, rule) <==> rule in FlagErrors(flags[k], names, shorts)
  {
    hide Blank, Given, ToLower, LowerAll;
    BuiltinsAre();
    forall i | 0 <= i <= k ensures Blank(flags[i].short) <==> !Given(flags[i].short) { BlankIs(flags[i].short); }
  }

  /** One turn of the loop of `validateFlags`. */
  method ValidateFlag(errors: seq<Rule>, flag: Flag, seenNames: set<string>, seenShorts: set<string>)
    returns (r: seq<Rule>, names: set<string>, shorts: set<string>)
    ensures r == errors + FlagErrors(flag, seenNames, seenShorts)
    ensures names == seenNames + {ToLower(flag.name)}
    ensures shorts == if Blank(flag.short) then seenShorts else seenShorts + {ToLower(flag.short)}
  {
    hide Blank, ToLower, LowerAll;
    var nameKey := ToLower(flag.name);
    r, names, shorts := errors, seenNames + {nameKey}, seenShorts;
    if nameKey in seenNames { r := r + [DupFlag]; }
    if nameKey in LowerAll(BUILTIN_FLAGS) { r := r + [BuiltinFlagConflict]; }
    if flag.required && flag.hasDefault { r := r + [RequiredWithDefault]; }
    if !Blank(flag.short) {
      var shortKey := ToLower(flag.short);
      if shortKey in seenShorts { r := r + [ShortConflict]; }
      shorts := shorts + {shortKey};
    }
  }

  /** `validateFlags`: appends one error per broken rule. */
  method ValidateFlags(errors: seq<Rule>, flags: seq<Flag>) returns (r: seq<Rule>)
    ensures errors <= r && (r == errors <==> FlagsOk(flags))
    ensures forall x :: x in r <==> x in errors || FlagsBreak(flags, |flags|, x)
  {
    r := errors;
    var seenNames: set<string> := {};
    var seenShorts: set<string> := {};
    for k := 0 to |flags|
      invariant errors <= r && (r == errors <==> FlagsOk(flags[..k]))
      invariant forall x :: x in r <==> x in errors || FlagsBreak(flags, k, x)
      invariant Seen(flags, k, seenNames, seenShorts)
    {
      hide *;
      FlagsStep(flags, k, seenNames, seenShorts);
      forall x ensures FlagBreaks(flags, k, x) <==> x in FlagErrors(flags[k], seenNames, seenShorts) {
        FlagBreaksIs(flags, k, seenNames, seenShorts, x);
      }
      r, seenNames, seenShorts := ValidateFlag(r, flags[k], seenNames, seenShorts);
    }
    assert flags[..|flags|] == flags;
  }

  /** `validateArgs`. */
  method ValidateArgs(errors: seq<Rule>, args: seq<Arg>) returns (r: seq<Rule>)
    ensures errors <= r && (r == errors <==> ArgsOk(args))
    ensures forall x :: x in r <==> x in errors || (x == VariadicPosition && !ArgsOk(args))
  {
    r := errors;
    for k := 0 to |args|
      invariant errors <= r
      invariant r == errors <==> forall i :: 0 <= i < k && args[i].variadic ==> i == |args| - 1
      invariant forall x :: x in r <==> x in errors || (x == VariadicPosition && r != errors)
    {
      if args[k].variadic && k != |args| - 1 { r := r + [VariadicPosition]; }
    }
  }

  /** `validateChildren`: names and aliases of siblings, case-insensitively. */
  method ValidateChildren(errors: seq<Rule>, children: seq<Node>) returns (r: seq<Rule>)
    ensures errors <= r && (r == errors <==> Distinct(Keys(children)))
    ensures forall x :: x in r <==> x in errors || (x == ChildConflict && !Distinct(Keys(children)))
  {
    r := errors;
    var seen: set<string> := {};
    for k := 0 to |children|
      invariant errors <= r && (r == errors <==> Distinct(Keys(children[..k])))
      invariant forall x :: x in r <==> x in errors || (x == ChildConflict && r != errors)
      invariant forall key :: key in seen <==> key in Keys(children[..k])
    {
      var names := [children[k].name] + children[k].aliases;
      ghost var base := Keys(children[..k]);
      ghost var before := r;
      assert base + NamesOf(children[k])[..0] == base;
      for j := 0 to |names|
        invariant errors <= r && (r == errors <==> Distinct(base + NamesOf(children[k])[..j]))
        invariant forall x :: x in r <==> x in errors || (x == ChildConflict && r != errors)
        invariant forall key :: key in seen <==> key in base + NamesOf(children[k])[..j]
      {
        var key := ToLower(names[j]);
        ghost var soFar := base + NamesOf(children[k])[..j];
        assert base + NamesOf(children[k])[..j + 1] == soFar + [key];
        DistinctAppend(soFar, key);
        if key in seen { r := r + [ChildConflict]; }
        seen := seen + {key};
      }
      assert NamesOf(children[k])[..|names|] == NamesOf(children[k]);
      assert children[..k + 1][..k] == children[..k];
    }
    assert children[..|children|] == children;
  }

  lemma DistinctAppend(keys: seq<string>, key: string)
    ensures Distinct(keys + [key]) <==> Distinct(keys) && key !in keys
    ensures forall x :: x in keys + [key] <==> x in keys || x == key
  {
    var all := keys + [key];
    if Distinct(all) {
      assert forall i :: 0 <= i < |keys| ==> all[i] == keys[i] && all[i] != all[|keys|];
    }
  }

  const FLAG_RULES: set<Rule> := {DupFlag, BuiltinFlagConflict, RequiredWithDefault, ShortConflict}

  lemma FlagRules(flags: seq<Flag>, rule: Rule)
    requires FlagsBreak(flags, |flags|, rule)
    ensures rule in FLAG_RULES
  {}

  /** The same in the validator's own terms. */
  ghost predicate SelfBreaks(node: Node, rule: Rule) {
    match rule
    case NameRequired => Blank(node.name)
    case NameFormat => !Blank(node.name) && !CommandName(node.name)
    case DeadEnd => !IsExecutable(node) && node.children == []
    case MissingBrief => Blank(node.brief)
    case VariadicPosition => !ArgsOk(node.args)
    case ChildConflict => !Distinct(Keys(node.children))
    case _ => FlagsBreak(node.flags, |node.flags|, rule)
  }

  lemma SelfBreaksIs(node: Node, rule: Rule)
    ensures SelfBreaks(node, rule) <==> Breaks(node, rule)
  {
    hide Blank, Given, IsName, PlainName, FlagsBreak, Distinct, Keys, SiblingsDiffer;
    BlankIs(node.name);
    BlankIs(node.handler);
    BlankIs(node.brief);
    NameIs(node.name);
    if node.name != "" { NameIs(node.name[1..]); }
    SiblingsAre(node.children);
  }

  method ValidateSelf(errors: seq<Rule>, node: Node) returns (r: seq<Rule>)
    ensures errors <= r && (r == errors <==> NodeSelfOk(node))
    ensures forall x :: x in r <==> x in errors || Breaks(node, x)
  {
    hide Blank, CommandName, FlagsOk, FlagsBreak, ArgsOk, Distinct, Keys, IsExecutable, Breaks;
    r := errors;
    if CommandName(node.name) { PlainNotBlank(node.name); }
    if Blank(node.name) {
      r := r + [NameRequired];
    } else if !CommandName(node.name) {
      r := r + [NameFormat];
    }
    if !IsExecutable(node) && |node.children| == 0 { r := r + [DeadEnd]; }
    if Blank(node.brief) { r := r + [MissingBrief]; }
    r := ValidateFlags(r, node.flags);
    r := ValidateArgs(r, node.args);
    r := ValidateChildren(r, node.children);
    forall x ensures FlagsBreak(node.flags, |node.flags|, x) ==> x in FLAG_RULES {
      if FlagsBreak(node.flags, |node.flags|, x) { FlagRules(node.flags, x); }
    }
    forall x ensures SelfBreaks(node, x) <==> Breaks(node, x) { SelfBreaksIs(node, x); }
  }

  /** The node or one below it breaks the rule. */
  ghost predicate BrokenAt(node: Node, rule: Rule) { Breaks(node, rule) || Broken(node.children, rule) }

  lemma BrokenSome(nodes: seq<Node>, rule: Rule)
    ensures Broken(nodes, rule) <==> exists k :: 0 <= k < |nodes| && BrokenAt(nodes[k], rule)
  {
    hide Breaks;
    if Broken(nodes, rule) {
      var n :| Within(n, nodes) && Breaks(n, rule);
      var k :| 0 <= k < |nodes| && (nodes[k] == n || Within(n, nodes[k].children));
      assert BrokenAt(nodes[k], rule);
    }
    if k :| 0 <= k < |nodes| && BrokenAt(nodes[k], rule) {
      if Breaks(nodes[k], rule) {
        assert Within(nodes[k], nodes);
      } else {
        var n :| Within(n, nodes[k].children) && Breaks(n, rule);
        assert Within(n, nodes);
      }
    }
  }

  /** `validateNode`: the node's own rules, then its children. */
  method ValidateNode(errors: seq<Rule>, node: Node) returns (r: seq<Rule>)
    ensures errors <= r && (r == errors <==> NodeOk(node))
    ensures forall x :: x in r <==> x in errors || BrokenAt(node, x)
    decreases node
  {
    r := ValidateSelf(errors, node);
    hide NodeSelfOk, Breaks;
    for k := 0 to |node.children|
      invariant errors <= r
      invariant r == errors <==> NodeSelfOk(node) && forall i :: 0 <= i < k ==> NodeOk(node.children[i])
      invariant forall x :: x in r <==>
        x in errors || Breaks(node, x) || exists i :: 0 <= i < k && BrokenAt(node.children[i], x)
    {
      hide BrokenAt;
      r := ValidateNode(r, node.children[k]);
    }
    forall x ensures Broken(node.children, x) <==>
                     exists k :: 0 <= k < |node.children| && BrokenAt(node.children[k], x)
    {
      BrokenSome(node.children, x);
    }
  }

  /** `ValidateTree`: no error for a valid tree, else every rule that a node of it breaks. */
  method ValidateTree(nodes: seq<Node>) returns (r: seq<Rule>)
    ensures r == [] <==> TreeOk(nodes)
    ensures forall x :: x in r <==> Broken(nodes, x)
  {
    hide NodeOk, BrokenAt, Broken;
    r := [];
    for k := 0 to |nodes|
      invariant r == [] <==> TreeOk(nodes[..k])
      invariant forall x :: x in r <==> exists i :: 0 <= i < k && BrokenAt(nodes[i], x)
    {
      r := ValidateNode(r, nodes[k]);
      assert nodes[..k + 1] == nodes[..k] + [nodes[k]];
      TreeAppend(nodes[..k], nodes[k]);
    }
    assert nodes[..|nodes|] == nodes;
    forall x ensures Broken(nodes, x) <==> exists k :: 0 <= k < |nodes| && BrokenAt(nodes[k], x) {
      BrokenSome(nodes, x);
    }
  }

  lemma TreeAppend(nodes: seq<Node>, node: Node)
    ensures TreeOk(nodes + [node]) <==> TreeOk(nodes) && NodeOk(node)
  {
    hide NodeOk;
    var all := nodes + [node];
    if TreeOk(all) {
      assert forall i :: 0 <= i < |nodes| ==> all[i] == nodes[i] && NodeOk(all[i]);
      assert NodeOk(all[|nodes|]);
    }
  }

  // ------------------------------------------------------------ keys of lists

  lemma {:induction false} KeysConcat(a: seq<Node>, b: seq<Node>)
    ensures Keys(a + b) == Keys(a) + Keys(b)
  {
    hide NamesOf;
    if b == [] {
      assert a + b == a;
    } else {
      var n := |b| - 1;
      assert (a + b)[..|a| + n] == a + b[..n];
      assert (a + b)[|a| + n] == b[n];
      KeysConcat(a, b[..n]);
    }
  }

  lemma DistinctConcat(a: seq<string>, b: seq<string>)
    requires Distinct(a) && Distinct(b) && forall x :: x in a ==> x !in b
    ensures Distinct(a + b)
  {
    var c := a + b;
    forall i, j | 0 <= i < j < |c| ensures c[i] != c[j] {
      if i < |a| <= j { assert a[i] in a && b[j - |a|] in b; }
    }
  }

  lemma LowerPlain(s: string)
    requires CommandName(s)
    ensures ToLower(s) == s
  {
    forall i | 0 <= i < |s| ensures LowerChar(s[i]) == s[i] {
      if !PlainName(s) && i > 0 { assert s[1..][i - 1] == s[i]; }
    }
  }

  // ------------------------------------------------ validity is what is asked

  lemma CharIs(c: char)
    ensures IsLowerLetter(c) <==> c in LETTERS
    ensures IsNameChar(c) <==> c in LETTERS || c in DIGITS || c == '-'
  {
    assert forall i :: 0 <= i < 26 ==> LETTERS[i] as int == 'a' as int + i;
    assert forall i :: 0 <= i < 10 ==> DIGITS[i] as int == '0' as int + i;
    if IsLowerLetter(c) { assert LETTERS[c as int - 'a' as int] == c; }
    if '0' <= c <= '9' { assert DIGITS[c as int - '0' as int] == c; }
  }

  lemma NameIs(s: string)
    ensures PlainName(s) <==> IsName(s)
  {
    forall i | 0 <= i < |s|
      ensures IsNameChar(s[i]) <==> s[i] in LETTERS || s[i] in DIGITS || s[i] == '-'
      ensures IsLowerLetter(s[i]) <==> s[i] in LETTERS
    {
      CharIs(s[i]);
    }
    hide IsLowerLetter, IsNameChar;
  }

  lemma BlankIs(s: string)
    ensures Blank(s) <==> !Given(s)
    ensures Given(s) ==> s != ""
  {}

  lemma FlagsAre(flags: seq<Flag>)
    ensures FlagsOk(flags) <==> FlagsAsked(flags)
  {
    forall i | 0 <= i < |flags| ensures Blank(flags[i].short) <==> !Given(flags[i].short) { BlankIs(flags[i].short); }
    BuiltinsAre();
    hide Blank, Given, ToLower, LowerAll;
  }

  lemma BuiltinsAre()
    ensures forall x :: x in LowerAll(BUILTIN_FLAGS) <==> x in FRAMEWORK_NAMES
  {
    forall i | 0 <= i < |BUILTIN_FLAGS| ensures ToLower(BUILTIN_FLAGS[i]) == BUILTIN_FLAGS[i] {
      assert forall j :: 0 <= j < |BUILTIN_FLAGS[i]| ==> LowerChar(BUILTIN_FLAGS[i][j]) == BUILTIN_FLAGS[i][j];
    }
    assert LowerAll(BUILTIN_FLAGS) == BUILTIN_FLAGS;
  }

  /** The keys of siblings are distinct exactly when no two of their names clash. */
  lemma {:induction false} SiblingsAre(nodes: seq<Node>)
    ensures Distinct(Keys(nodes)) <==> SiblingsDiffer(nodes)
  {
    hide SiblingsDiffer, NamesOf, Distinct;
    if nodes == [] {
      NoSiblings();
    } else {
      var n := |nodes| - 1;
      SiblingsAre(nodes[..n]);
      KeysSplit(Keys(nodes[..n]), NamesOf(nodes[n]));
      LastSibling(nodes);
    }
  }

  lemma NoSiblings()
    ensures Distinct([]) && SiblingsDiffer([])
  {}

  lemma KeysSplit(a: seq<string>, b: seq<string>)
    ensures Distinct(a + b) <==> Distinct(a) && Distinct(b) && forall x :: x in a ==> x !in b
  {
    var c := a + b;
    if Distinct(c) {
      forall i, j | 0 <= i < j < |a| ensures a[i] != a[j] { assert c[i] != c[j]; }
      forall i, j | 0 <= i < j < |b| ensures b[i] != b[j] { assert c[|a| + i] != c[|a| + j]; }
      forall i, j | 0 <= i < |a| && 0 <= j < |b| ensures a[i] != b[j] { assert c[i] != c[|a| + j]; }
    } else if Distinct(a) && Distinct(b) && forall x :: x in a ==> x !in b {
      DistinctConcat(a, b);
    }
  }

  lemma NamesAre(a: Node, b: Node)
    ensures NamedApart(a) <==> Distinct(NamesOf(a))
    ensures Unlike(a, b) <==> forall x :: x in NamesOf(a) ==> x !in NamesOf(b)
  {
    hide ToLower;
    assert forall i :: 0 <= i < |NamesFor(a)| ==> NamesOf(a)[i] == ToLower(NamesFor(a)[i]);
    assert forall i :: 0 <= i < |NamesFor(b)| ==> NamesOf(b)[i] == ToLower(NamesFor(b)[i]);
    if !Unlike(a, b) {
      var i, j :| 0 <= i < |NamesFor(a)| && 0 <= j < |NamesFor(b)|
                  && ToLower(NamesFor(a)[i]) == ToLower(NamesFor(b)[j]);
      assert NamesOf(a)[i] in NamesOf(a) && NamesOf(b)[j] in NamesOf(b);
    }
  }

  lemma {:induction false} KeysFrom(nodes: seq<Node>)
    ensures forall x :: x in Keys(nodes) <==> exists k :: 0 <= k < |nodes| && x in NamesOf(nodes[k])
  {
    hide NamesOf;
    if nodes != [] {
      var n := |nodes| - 1;
      KeysFrom(nodes[..n]);
      assert forall k :: 0 <= k < n ==> nodes[..n][k] == nodes[k];
    }
  }

  /** The last node is unlike those before it. */
  lemma LastSibling(nodes: seq<Node>)
    requires nodes != []
    ensures var n := |nodes| - 1;
            SiblingsDiffer(nodes) <==>
            && SiblingsDiffer(nodes[..n]) && Distinct(NamesOf(nodes[n]))
            && forall x :: x in Keys(nodes[..n]) ==> x !in NamesOf(nodes[n])
  {
    hide NamesOf, NamedApart, Unlike, Distinct;
    var n := |nodes| - 1;
    var before := nodes[..n];
    KeysFrom(before);
    NamesAre(nodes[n], nodes[n]);
    forall k | 0 <= k < n
      ensures Unlike(nodes[k], nodes[n]) <==> forall x :: x in NamesOf(nodes[k]) ==> x !in NamesOf(nodes[n])
    {
      NamesAre(nodes[k], nodes[n]);
    }
    assert SiblingsDiffer(nodes) <==>
           && SiblingsDiffer(before) && NamedApart(nodes[n]) && forall k :: 0 <= k < n ==> Unlike(before[k], nodes[n]);
  }

  lemma NodeAsked(node: Node)
    ensures NodeSelfOk(node) <==> Asked(node)
  {
    hide Blank, Given, PlainName, IsName, FlagsOk, FlagsAsked, Keys, Distinct, SiblingsDiffer;
    NameIs(node.name);
    if node.name != "" { NameIs(node.name[1..]); }
    BlankIs(node.handler);
    BlankIs(node.brief);
    FlagsAre(node.flags);
    SiblingsAre(node.children);
  }

  /** A tree is valid exactly when every node in it is as asked. */
  lemma {:induction false} ValidMeans(nodes: seq<Node>)
    ensures TreeOk(nodes) <==> forall n :: Within(n, nodes) ==> Asked(n)
    decreases nodes
  {
    hide Asked, NodeSelfOk;
    forall i | 0 <= i < |nodes|
      ensures NodeOk(nodes[i]) <==> Asked(nodes[i]) && forall n :: Within(n, nodes[i].children) ==> Asked(n)
    {
      NodeAsked(nodes[i]);
      ValidMeans(nodes[i].children);
      assert NodeOk(nodes[i]) <==> NodeSelfOk(nodes[i]) && TreeOk(nodes[i].children);
    }
    hide NodeOk;
    if TreeOk(nodes) {
      forall n | Within(n, nodes) ensures Asked(n) {
        var i :| 0 <= i < |nodes| && (nodes[i] == n || Within(n, nodes[i].children));
        assert NodeOk(nodes[i]);
      }
    } else {
      var i :| 0 <= i < |nodes| && !NodeOk(nodes[i]);
      if Asked(nodes[i]) {
        var n :| Within(n, nodes[i].children) && !Asked(n);
        assert Within(n, nodes);
      } else {
        assert Within(nodes[i], nodes);
      }
    }
  }
}
