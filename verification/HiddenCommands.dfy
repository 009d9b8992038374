/** `Apply`: wraps every executable command once and hides what the policy denies. */
module HiddenCommands {
  import opened Policy

  /** A command of the tree. Only what `Apply` changes is mutable. */
  class TreeCommand {
    const executable: bool
    const view: Command
    const children: seq<TreeCommand>
    ghost const height: nat
    var hidden: bool
    var wrapped: bool
    var layers: nat

    constructor (executable: bool, view: Command, children: seq<TreeCommand>, ghost height: nat, hidden: bool)
      requires forall i :: 0 <= i < |children| ==> children[i].height < height
      ensures this.executable == executable && this.view == view && this.children == children && this.height == height
      ensures this.hidden == hidden && !wrapped && layers == 0
    {
      this.executable, this.view, this.children, this.height := executable, view, children, height;
      this.hidden, wrapped, layers := hidden, false, 0;
    }
  }

  /** Children are below their parents, so the tree is finite. */
  ghost predicate IsTree(c: TreeCommand)
    decreases c.height
  {
    forall i :: 0 <= i < |c.children| ==> c.children[i].height < c.height && IsTree(c.children[i])
  }

  ghost predicate AreTrees(cs: seq<TreeCommand>, below: nat) {
    forall i :: 0 <= i < |cs| ==> cs[i].height < below && IsTree(cs[i])
  }

  /** The commands below some siblings, each followed by its own descendants. */
  ghost function Below(cs: seq<TreeCommand>, below: nat): seq<TreeCommand>
    requires AreTrees(cs, below)
    decreases below, |cs|
  {
    if cs == [] then []
    else Below(cs[..|cs| - 1], below)
         + [cs[|cs| - 1]] + Below(cs[|cs| - 1].children, cs[|cs| - 1].height)
  }

  /** `allCommands`: everything under a command, in the order of the walk. */
  ghost function Descendants(c: TreeCommand): seq<TreeCommand>
    requires IsTree(c)
  {
    Below(c.children, c.height)
  }

  method AllCommands(c: TreeCommand) returns (commands: seq<TreeCommand>)
    requires IsTree(c)
    ensures commands == Descendants(c)
    decreases c.height
  {
    commands := [];
    for i := 0 to |c.children|
      invariant commands == Below(c.children[..i], c.height)
    {
      var child := c.children[i];
      var deeper := AllCommands(child);
      assert c.children[..i + 1][..i] == c.children[..i];
      commands := commands + [child] + deeper;
    }
    assert c.children[..|c.children|] == c.children;
  }

  /** Whether a command must be hidden in the end: it was, the policy denies it, or it is a
      group all of whose children must be. */
  ghost predicate MustHide(glob: PathMatch, rules: seq<Rule>, was: set<TreeCommand>, c: TreeCommand)
    requires IsTree(c)
    decreases c.height
  {
    c in was ||
    if c.executable then !Permitted(glob, rules, c.view)
    else c.children != [] && forall i :: 0 <= i < |c.children| ==> MustHide(glob, rules, was, c.children[i])
  }

  // ------------------------------------------------------------ about the walk

  lemma {:induction false} BelowAreTrees(cs: seq<TreeCommand>, below: nat)
    requires AreTrees(cs, below)
    ensures forall i :: 0 <= i < |Below(cs, below)| ==> IsTree(Below(cs, below)[i])
    decreases below, |cs|
  {
    if cs != [] {
      var n := |cs| - 1;
      BelowAreTrees(cs[..n], below);
      assert IsTree(cs[n]);
      BelowAreTrees(cs[n].children, cs[n].height);
    }
  }

  /** The command at `i` comes before each of its children. */
  ghost predicate ChildrenLater(commands: seq<TreeCommand>, i: nat)
    requires i < |commands|
  {
    forall k :: 0 <= k < |commands[i].children| ==> commands[i].children[k] in commands[i + 1..]
  }

  lemma {:induction false} BelowHas(cs: seq<TreeCommand>, below: nat, k: nat)
    requires AreTrees(cs, below) && k < |cs|
    ensures cs[k] in Below(cs, below)
    decreases |cs|
  {
    var n := |cs| - 1;
    if k < n {
      BelowHas(cs[..n], below, k);
      assert cs[..n][k] == cs[k];
    } else {
      assert cs[n] in [cs[n]];
    }
  }

  lemma {:induction false} WalkIsTopDown(cs: seq<TreeCommand>, below: nat, i: nat)
    requires AreTrees(cs, below) && i < |Below(cs, below)|
    ensures ChildrenLater(Below(cs, below), i)
    decreases below, |cs|
  {
    var n := |cs| - 1;
    var c := cs[n];
    var front, deep := Below(cs[..n], below), Below(c.children, c.height);
    var all := Below(cs, below);
    assert all == front + [c] + deep;
    forall k | 0 <= k < |all[i].children| ensures all[i].children[k] in all[i + 1..] {
      var child := all[i].children[k];
      if i < |front| {
        WalkIsTopDown(cs[..n], below, i);
        assert child in front[i + 1..];
        assert all[i + 1..] == front[i + 1..] + [c] + deep;
      } else if i == |front| {
        BelowHas(c.children, c.height, k);
        assert all[i + 1..] == deep;
      } else {
        WalkIsTopDown(c.children, c.height, i - |front| - 1);
        assert all[i + 1..] == deep[i - |front|..];
      }
    }
  }

  ghost predicate Walked(commands: seq<TreeCommand>) {
    && (forall i :: 0 <= i < |commands| ==> IsTree(commands[i]))
    && forall i :: 0 <= i < |commands| ==> ChildrenLater(commands, i)
  }

  lemma {:induction false} BelowLower(cs: seq<TreeCommand>, below: nat)
    requires AreTrees(cs, below)
    ensures forall c :: c in Below(cs, below) ==> c.height < below
    decreases below, |cs|
  {
    if cs != [] {
      var n := |cs| - 1;
      BelowLower(cs[..n], below);
      assert cs[n].height < below && IsTree(cs[n]);
      BelowLower(cs[n].children, cs[n].height);
    }
  }

  lemma DescendantsWalked(root: TreeCommand)
    requires IsTree(root)
    ensures Walked(Descendants(root)) && root !in Descendants(root)
  {
    BelowAreTrees(root.children, root.height);
    BelowLower(root.children, root.height);
    forall i | 0 <= i < |Descendants(root)| ensures ChildrenLater(Descendants(root), i) {
      WalkIsTopDown(root.children, root.height, i);
    }
  }

  // ----------------------------------------------------------------- the passes

  /** One more layer around an executable command that had none; nothing else. */
  twostate predicate WrappedOnce(c: TreeCommand)
    reads c
  {
    && c.wrapped == (old(c.wrapped) || c.executable)
    && c.layers == old(c.layers) + (if c.executable && !old(c.wrapped) then 1 else 0)
  }

  method WrapAll(commands: seq<TreeCommand>)
    modifies commands
    ensures forall c :: c in commands ==> c.hidden == old(c.hidden) && WrappedOnce(c)
  {
    for i := 0 to |commands|
      invariant forall c :: c in commands ==> c.hidden == old(c.hidden)
      invariant forall c :: c in commands ==>
        if c in commands[..i] then WrappedOnce(c) else c.wrapped == old(c.wrapped) && c.layers == old(c.layers)
    {
      var c := commands[i];
      assert commands[..i + 1] == commands[..i] + [c];
      if !c.executable || c.wrapped { continue; }
      c.wrapped := true;
      c.layers := c.layers + 1;
    }
    assert commands[..|commands|] == commands;
  }

  method HideDenied(glob: PathMatch, rules: seq<Rule>, commands: seq<TreeCommand>)
    modifies commands
    ensures forall c :: c in commands ==>
              c.hidden == (old(c.hidden) || (c.executable && !Permitted(glob, rules, c.view)))
    ensures forall c :: c in commands ==> c.wrapped == old(c.wrapped) && c.layers == old(c.layers)
  {
    hide Permitted, Reported, Permits;
    for i := 0 to |commands|
      invariant forall c :: c in commands ==> c.wrapped == old(c.wrapped) && c.layers == old(c.layers)
      invariant forall c :: c in commands ==>
        c.hidden == (old(c.hidden) || (c in commands[..i] && c.executable && !Permitted(glob, rules, c.view)))
    {
      var c := commands[i];
      assert commands[..i + 1] == commands[..i] + [c];
      if c.executable {
        var denial := FindDenial(glob, rules, c.view);
        if denial.Some? { c.hidden := true; }
      }
    }
    assert commands[..|commands|] == commands;
  }

  /** What the first pass leaves of a command. */
  ghost predicate FirstPass(glob: PathMatch, rules: seq<Rule>, was: set<TreeCommand>, c: TreeCommand) {
    c in was || (c.executable && !Permitted(glob, rules, c.view))
  }

  /** From the last command of the walk to the first, so a group is seen after its children. */
  method HideGroups(glob: PathMatch, rules: seq<Rule>, commands: seq<TreeCommand>, ghost was: set<TreeCommand>)
    requires Walked(commands)
    requires forall c :: c in commands ==> c.hidden == FirstPass(glob, rules, was, c)
    modifies commands
    ensures forall c :: c in commands ==> c.hidden == MustHide(glob, rules, was, c)
    ensures forall c :: c in commands ==> c.wrapped == old(c.wrapped) && c.layers == old(c.layers)
  {
    hide Permitted;
    for i := |commands| downto 0
      invariant forall c :: c in commands ==> c.wrapped == old(c.wrapped) && c.layers == old(c.layers)
      invariant forall c :: c in commands ==>
        c.hidden == if c in commands[i..] then MustHide(glob, rules, was, c) else FirstPass(glob, rules, was, c)
    {
      var c := commands[i];
      assert commands[i..] == [c] + commands[i + 1..];
      assert ChildrenLater(commands, i);
      if c.executable || |c.children| == 0 { continue; }
      var allHidden := AllHidden(c.children);
      if allHidden { c.hidden := true; }
    }
    assert commands[0..] == commands;
  }

  method AllHidden(children: seq<TreeCommand>) returns (all: bool)
    ensures all <==> forall i :: 0 <= i < |children| ==> children[i].hidden
  {
    for i := 0 to |children|
      invariant forall j :: 0 <= j < i ==> children[j].hidden
    {
      if !children[i].hidden { return false; }
    }
    return true;
  }

  ghost function HiddenBelow(root: TreeCommand): set<TreeCommand>
    requires IsTree(root)
    reads Descendants(root)
  {
    set c | c in Descendants(root) && c.hidden
  }

  /** `Runtime.Apply`. */
  method Apply(glob: PathMatch, rules: seq<Rule>, root: TreeCommand)
    requires IsTree(root)
    modifies root, Descendants(root)
    ensures old(allocated(Descendants(root)))
    ensures forall c :: c in [root] + Descendants(root) ==>
              && c.wrapped == (old(c.wrapped) || c.executable)
              && c.layers == old(c.layers) + if c.executable && !old(c.wrapped) then 1 else 0
    ensures root.hidden == old(root.hidden)
    ensures forall c :: c in Descendants(root) ==> IsTree(c)
    ensures rules == [] ==> forall c :: c in Descendants(root) ==> c.hidden == old(c.hidden)
    ensures rules != [] ==> forall c :: c in Descendants(root) ==>
              c.hidden == MustHide(glob, rules, old(HiddenBelow(root)), c)
    ensures rules != [] ==> forall c :: c in Descendants(root) ==>
              (c.hidden <==> old(c.hidden)
                             || (c.executable && !Permitted(glob, rules, c.view))
                             || (!c.executable && c.children != []
                                 && forall i :: 0 <= i < |c.children| ==> c.children[i].hidden))
  {
    hide Permitted, MustHide;
    var commands := AllCommands(root);
    DescendantsWalked(root);
    ghost var was := HiddenBelow(root);
    WrapAll([root]);
    WrapAll(commands);
    if |rules| == 0 { return; }
    HideDenied(glob, rules, commands);
    HideGroups(glob, rules, commands, was);
    forall c | c in commands
      ensures c.hidden <==> c in was
                            || (c.executable && !Permitted(glob, rules, c.view))
                            || (!c.executable && c.children != []
                                && forall i :: 0 <= i < |c.children| ==> c.children[i].hidden)
    {
      var k :| 0 <= k < |commands| && commands[k] == c;
      MustHideMeans(glob, rules, was, commands, k);
    }
  }

  lemma MustHideMeans(glob: PathMatch, rules: seq<Rule>, was: set<TreeCommand>, commands: seq<TreeCommand>, k: nat)
    requires Walked(commands) && k < |commands|
    ensures forall i :: 0 <= i < |commands[k].children| ==> commands[k].children[i] in commands
    ensures var c := commands[k];
            MustHide(glob, rules, was, c) <==>
            c in was || (c.executable && !Permitted(glob, rules, c.view))
            || (!c.executable && c.children != []
                && forall i :: 0 <= i < |c.children| ==> MustHide(glob, rules, was, c.children[i]))
  {
    hide Permitted;
    var c := commands[k];
    assert ChildrenLater(commands, k);
    forall i | 0 <= i < |c.children| ensures c.children[i] in commands { assert c.children[i] in commands[k + 1..]; }
  }

  /** Groups leading down to a command, each the parent of the next. */
  ghost predicate Leads(chain: seq<TreeCommand>) {
    && chain != [] && (forall i :: 0 <= i < |chain| - 1 ==> !chain[i].executable && chain[i + 1] in chain[i].children)
    && forall i :: 0 <= i < |chain| ==> IsTree(chain[i])
  }

  /** A command that was visible and that every rule permits stays so, and so do the groups
      above it that were. */
  lemma {:induction false} PermittedStays(glob: PathMatch, rules: seq<Rule>, was: set<TreeCommand>,
                                          chain: seq<TreeCommand>)
    requires Leads(chain) && forall i :: 0 <= i < |chain| ==> chain[i] !in was
    requires chain[|chain| - 1].executable && Permitted(glob, rules, chain[|chain| - 1].view)
    ensures forall i :: 0 <= i < |chain| ==> !MustHide(glob, rules, was, chain[i])
    decreases |chain|
  {
    hide Permitted;
    if |chain| > 1 {
      var rest := chain[1..];
      assert rest[|rest| - 1] == chain[|chain| - 1];
      forall i | 0 <= i < |rest| - 1 ensures !rest[i].executable && rest[i + 1] in rest[i].children {
        assert rest[i] == chain[i + 1] && rest[i + 1] == chain[i + 2];
      }
      PermittedStays(glob, rules, was, rest);
      assert rest[0] in chain[0].children;
      forall i | 0 <= i < |chain| ensures !MustHide(glob, rules, was, chain[i]) {
        if i > 0 { assert chain[i] == rest[i - 1]; }
      }
    }
  }

  // ------------------------------------------------------------- what it means

  /** Down to the leaves: below a visible command there is, visible too, one that was visible
      before and that the policy permits, or an empty group. */
  lemma {:induction false} VisibleLeads(glob: PathMatch, rules: seq<Rule>, was: set<TreeCommand>, c: TreeCommand)
    requires IsTree(c) && !MustHide(glob, rules, was, c)
    ensures exists d :: d in [c] + Descendants(c) && IsTree(d) && Useful(glob, rules, was, d)
    decreases c.height
  {
    if !c.executable && c.children != [] {
      var i :| 0 <= i < |c.children| && !MustHide(glob, rules, was, c.children[i]);
      var child := c.children[i];
      VisibleLeads(glob, rules, was, child);
      var d :| d in [child] + Descendants(child) && IsTree(d) && Useful(glob, rules, was, d);
      BelowHas(c.children, c.height, i);
      if d != child { BelowClosed(c.children, c.height, i, d); }
      assert d in [c] + Descendants(c);
    } else {
      assert Useful(glob, rules, was, c) && c in [c] + Descendants(c);
    }
  }

  /** Visible, and a permitted command or an empty group. */
  ghost predicate Useful(glob: PathMatch, rules: seq<Rule>, was: set<TreeCommand>, d: TreeCommand)
    requires IsTree(d)
  {
    && !MustHide(glob, rules, was, d) && d !in was
    && if d.executable then Permitted(glob, rules, d.view) else d.children == []
  }

  lemma {:induction false} BelowClosed(cs: seq<TreeCommand>, below: nat, k: nat, d: TreeCommand)
    requires AreTrees(cs, below) && k < |cs| && d in Descendants(cs[k])
    ensures d in Below(cs, below)
    decreases |cs|
  {
    var n := |cs| - 1;
    if k < n {
      assert cs[..n][k] == cs[k];
      BelowClosed(cs[..n], below, k, d);
    }
  }

  /** Applying again changes nothing more. */
  lemma {:induction false} HidingIsStable(glob: PathMatch, rules: seq<Rule>, was: set<TreeCommand>,
                                          now: set<TreeCommand>, c: TreeCommand)
    requires IsTree(c)
    requires forall d :: d in now && IsTree(d) ==> MustHide(glob, rules, was, d)
    requires forall d :: (d == c || d in Descendants(c)) && d in was ==> d in now
    ensures MustHide(glob, rules, now, c) == MustHide(glob, rules, was, c)
    decreases c.height
  {
    if !c.executable {
      forall i | 0 <= i < |c.children|
        ensures MustHide(glob, rules, now, c.children[i]) == MustHide(glob, rules, was, c.children[i]) {
        BelowHas(c.children, c.height, i);
        forall d | d in Descendants(c.children[i]) ensures d in Descendants(c) {
          BelowClosed(c.children, c.height, i, d);
        }
        HidingIsStable(glob, rules, was, now, c.children[i]);
      }
    }
  }
}
