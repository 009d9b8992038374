/** Which commands of an untrusted tool list are accepted, said of the list alone, without the
    functions that screen and clean. */
module Acceptance {
  import opened CommandTree
  import opened DynamicRegistry
  import opened Options
  import opened Text
  import opened TreeContents

  /** Its flag has a plain name that is none of the built-in or global ones. */
  ghost predicate GoodParameter(env: Env, p: Parameter) {
    p.name == "url" ||
    exists flag :: IsKebab(p.name, flag) && IsName(flag) && flag != "help" && flag != "version"
                   && forall i :: 0 <= i < |env.globalFlags| ==> ToLower(env.globalFlags[i]) != ToLower(flag)
  }

  /** The command with clean help texts, and otherwise as it was. */
  ghost predicate IsCleaned(env: Env, c: Mapped, d: Mapped) {
    && d.resource == c.resource && d.action == c.action && d.tool == c.tool && d.hasFields == c.hasFields
    && (env.clean(c.description) != "" ==> d.description == env.clean(c.description))
    && (env.clean(c.description) == "" ==> d.description == "Run dynamic tool")
    && |d.parameters| == |c.parameters|
    && forall i :: 0 <= i < |c.parameters| ==>
         var p, q := c.parameters[i], d.parameters[i];
         q.name == p.name && q.kind == p.kind && q.required == p.required && q.description == env.clean(p.description)
  }

  /** Its path belongs to no one else. */
  predicate Unclaimed(env: Env, c: Mapped) {
    && c.resource !in env.reserved
    && (env.owner(c.resource, c.action).Some? ==> env.owner(c.resource, c.action).value == c.tool)
  }

  /** Nothing is wrong with the command by itself. */
  ghost predicate Sound(env: Env, c: Mapped) {
    && Unclaimed(env, c) && IsName(c.resource) && IsName(c.action)
    && (forall i :: 0 <= i < |c.parameters| ==> GoodParameter(env, c.parameters[i]))
    && exists d :: IsCleaned(env, c, d) && TreeOk(BuildTree(env, [d]))
  }

  /** A sound command with the same path stands before it. */
  ghost predicate ComesLate(env: Env, commands: seq<Mapped>, i: nat)
    requires i < |commands|
  {
    exists j :: 0 <= j < i && Sound(env, commands[j]) && commands[j].resource == commands[i].resource
                && commands[j].action == commands[i].action
  }

  /** The fault of a command of the list. */
  ghost function Fault(env: Env, commands: seq<Mapped>, i: nat): Option<Code>
    requires i < |commands|
  {
    if !Unclaimed(env, commands[i]) then Some(ReservedPath)
    else if !Sound(env, commands[i]) then Some(InvalidCommand)
    else if ComesLate(env, commands, i) then Some(DuplicatePath)
    else None
  }

  /** Exactly the places of the list with a fault, or without one, in order. */
  ghost predicate PlacesWith(env: Env, commands: seq<Mapped>, faulty: bool, n: nat, places: seq<nat>)
    requires n <= |commands|
  {
    && (forall a, b :: 0 <= a < b < |places| ==> places[a] < places[b])
    && (forall a :: 0 <= a < |places| ==> places[a] < n)
    && forall i: nat :: i < n ==> (i in places <==> (Fault(env, commands, i).Some? <==> faulty))
  }

  // ------------------------------------------------------------------- proofs

  lemma ParameterIs(env: Env, p: Parameter)
    ensures ParameterOk(env, p) <==> GoodParameter(env, p)
  {
    hide PlainName, IsName, IsKebab, ToFlagName;
    forall flag ensures IsKebab(p.name, flag) <==> flag == ToFlagName(p.name) { KebabIs(p.name, flag); }
    NameIs(ToFlagName(p.name));
  }

  lemma CleanedIs(env: Env, c: Mapped, d: Mapped)
    ensures IsCleaned(env, c, d) <==> d == Cleaned(env, c)
  {
    if IsCleaned(env, c, d) { assert d.parameters == Cleaned(env, c).parameters; }
  }

  lemma ParametersAre(env: Env, c: Mapped)
    ensures ParametersOk(env, Cleaned(env, c).parameters) <==>
            forall i :: 0 <= i < |c.parameters| ==> GoodParameter(env, c.parameters[i])
  {
    hide GoodParameter, ToFlagName, PlainName;
    var ps := Cleaned(env, c).parameters;
    forall i | 0 <= i < |ps| ensures ParameterOk(env, ps[i]) <==> GoodParameter(env, c.parameters[i]) {
      assert ParameterOk(env, ps[i]) <==> ParameterOk(env, c.parameters[i]);
      ParameterIs(env, c.parameters[i]);
    }
    hide ParameterOk;
  }

  /** Screening a command finds it sound, or gives the code of its fault. */
  lemma ScreenMeans(env: Env, c: Mapped)
    ensures Screen(env, c) ==
            if !Unclaimed(env, c) then Some(ReservedPath) else if !Sound(env, c) then Some(InvalidCommand) else None
  {
    hide BuildTree, TreeOk, Cleaned, PlainName, IsName, ParametersOk, GoodParameter, IsCleaned;
    NameIs(c.resource);
    NameIs(c.action);
    ParametersAre(env, c);
    forall d ensures IsCleaned(env, c, d) <==> d == Cleaned(env, c) { CleanedIs(env, c, d); }
  }

  lemma CodeIs(env: Env, commands: seq<Mapped>, i: nat)
    requires i < |commands|
    ensures CodeOf(env, commands, i) == Fault(env, commands, i)
  {
    hide Screen, Sound, Unclaimed;
    forall j | 0 <= j <= i ensures
        Screen(env, commands[j]) ==
        if !Unclaimed(env, commands[j]) then Some(ReservedPath)
        else if !Sound(env, commands[j]) then Some(InvalidCommand) else None
    {
      ScreenMeans(env, commands[j]);
      SoundUnclaimed(env, commands[j]);
    }
    SoundUnclaimed(env, commands[i]);
    forall j | 0 <= j < i && Sound(env, commands[j]) ensures Screen(env, commands[j]).None? {
      SoundUnclaimed(env, commands[j]);
    }
  }

  lemma SoundUnclaimed(env: Env, c: Mapped)
    ensures Sound(env, c) ==> Unclaimed(env, c)
  {
    hide Unclaimed, IsName, GoodParameter, IsCleaned, TreeOk, BuildTree;
  }

  lemma CodeLocal(env: Env, commands: seq<Mapped>, n: nat, i: nat)
    requires i < n <= |commands|
    ensures CodeOf(env, commands[..n], i) == CodeOf(env, commands, i)
  {
    hide Screen;
  }

  lemma {:induction false} AcceptedPlaces(env: Env, commands: seq<Mapped>, n: nat) returns (places: seq<nat>)
    requires n <= |commands|
    ensures var accepted := Unflagged(env, commands[..n]);
            && PlacesWith(env, commands, false, n, places) && |accepted| == |places|
            && forall a :: 0 <= a < |places| ==> IsCleaned(env, commands[places[a]], accepted[a])
  {
    hide CodeOf, Fault, IsCleaned, Cleaned, PlacesWith;
    if n == 0 {
      NoneYet(env, commands, false);
      places := [];
    } else {
      var before := AcceptedPlaces(env, commands, n - 1);
      var c := commands[n - 1];
      assert commands[..n][..n - 1] == commands[..n - 1] && commands[..n][n - 1] == c;
      CodeLocal(env, commands, n, n - 1);
      CodeIs(env, commands, n - 1);
      CleanedIs(env, c, Cleaned(env, c));
      OneMore(env, commands, false, n - 1, before);
      places := if Fault(env, commands, n - 1).None? then before + [n - 1] else before;
    }
  }

  lemma NoneYet(env: Env, commands: seq<Mapped>, faulty: bool)
    ensures PlacesWith(env, commands, faulty, 0, [])
  {}

  lemma OneMore(env: Env, commands: seq<Mapped>, faulty: bool, n: nat, places: seq<nat>)
    requires n < |commands| && PlacesWith(env, commands, faulty, n, places)
    ensures PlacesWith(env, commands, faulty, n + 1,
                       if Fault(env, commands, n).Some? <==> faulty then places + [n] else places)
  {
    hide Fault;
  }

  lemma {:induction false} IssuePlaces(env: Env, commands: seq<Mapped>, n: nat) returns (places: seq<nat>)
    requires n <= |commands|
    ensures var issues := IssuesOf(env, commands[..n]);
            && PlacesWith(env, commands, true, n, places) && |issues| == |places|
            && forall a :: 0 <= a < |places| ==>
                 Fault(env, commands, places[a]) == Some(issues[a].code) && issues[a].tool == commands[places[a]].tool
  {
    hide CodeOf, Fault, PlacesWith;
    if n == 0 {
      NoneYet(env, commands, true);
      places := [];
    } else {
      var before := IssuePlaces(env, commands, n - 1);
      assert commands[..n][..n - 1] == commands[..n - 1] && commands[..n][n - 1] == commands[n - 1];
      CodeLocal(env, commands, n, n - 1);
      CodeIs(env, commands, n - 1);
      OneMore(env, commands, true, n - 1, before);
      places := if Fault(env, commands, n - 1).Some? then before + [n - 1] else before;
    }
  }

  // ------------------------------------------------------------------ theorems

  /** The accepted commands are, in their order and with clean help texts, exactly those of
      the list that are sound and the first sound ones with their path. */
  lemma AcceptedExactly(env: Env, commands: seq<Mapped>) returns (places: seq<nat>)
    ensures PlacesWith(env, commands, false, |commands|, places) && |Accepted(env, commands)| == |places|
    ensures forall a :: 0 <= a < |places| ==> IsCleaned(env, commands[places[a]], Accepted(env, commands)[a])
  {
    hide *;
    places := AcceptedPlaces(env, commands, |commands|);
    assert commands[..|commands|] == commands;
    AcceptedUnflagged(env, commands);
  }

  /** Every other command is an issue, with the code of its fault, in the order of the list. */
  lemma IssuesExactly(env: Env, commands: seq<Mapped>) returns (places: seq<nat>)
    ensures PlacesWith(env, commands, true, |commands|, places) && |IssuesOf(env, commands)| == |places|
    ensures forall a :: 0 <= a < |places| ==>
              var issue := IssuesOf(env, commands)[a];
              Fault(env, commands, places[a]) == Some(issue.code) && issue.tool == commands[places[a]].tool
  {
    hide *;
    places := IssuePlaces(env, commands, |commands|);
    assert commands[..|commands|] == commands;
  }
}
