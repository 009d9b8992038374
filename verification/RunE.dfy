/** `wrapRunE`: observers, the policy, the choice of wrappers, and the result of a command. */
module RunE {
  // What plugins answer is arbitrary data, and so is the interleaving in which the entered
  // wrappers run.

  import opened Options
  import opened Wrappers
  import Policy

  datatype FailurePolicy = FailOpen | FailClosed

  datatype When = Before | Afterwards

  /** The outcome of a plugin's selector on this command. */
  datatype Selection = Matched | Unmatched | SelectorFailed(err: Error)

  datatype WrapperEntry = WrapperEntry(name: string, policy: FailurePolicy, selection: Selection, factoryIsNil: bool)

  datatype ObserverEntry =
    ObserverEntry(when: When, policy: FailurePolicy, selection: Selection, failure: Option<Error>)

  datatype Chain = Chain(hooks: seq<string>) | ChainFailed(err: Error)

  /** This entry makes the invocation fail before any wrapper runs. */
  predicate Breaks(e: WrapperEntry) {
    || (e.selection.SelectorFailed? && e.policy.FailClosed?)
    || (e.selection.Matched? && e.factoryIsNil)
  }

  function BreakError(e: WrapperEntry): Error
    requires Breaks(e)
  {
    if e.selection.SelectorFailed? then e.selection.err else FactoryFailed(e.name)
  }

  /** The names of the matching wrappers, outermost first. */
  function Selected(entries: seq<WrapperEntry>): seq<string> {
    if entries == [] then []
    else (if entries[0].selection.Matched? then [entries[0].name] else []) + Selected(entries[1..])
  }

  ghost predicate Unbroken(entries: seq<WrapperEntry>) {
    forall i :: 0 <= i < |entries| ==> !Breaks(entries[i])
  }

  /** The error of the last entry that breaks the invocation. */
  ghost predicate LastBreak(entries: seq<WrapperEntry>, err: Error) {
    exists i :: 0 <= i < |entries| && Breaks(entries[i]) && err == BreakError(entries[i])
                && forall j :: i < j < |entries| ==> !Breaks(entries[j])
  }

  /** The loop goes from the last wrapper to the first, each wrapping what was built
      so far. The registered order is the nesting order. */
  method BuildChain(entries: seq<WrapperEntry>) returns (r: Chain)
    ensures r.Chain? <==> Unbroken(entries)
    ensures r.Chain? ==> r.hooks == Selected(entries)
    ensures r.ChainFailed? ==> LastBreak(entries, r.err)
  {
    var handler: seq<string> := [];
    var index := |entries|;
    while index > 0
      invariant 0 <= index <= |entries|
      invariant forall j :: index <= j < |entries| ==> !Breaks(entries[j])
      invariant handler == Selected(entries[index..])
    {
      index := index - 1;
      var entry := entries[index];
      assert entries[index..][1..] == entries[index + 1..];
      match entry.selection {
        case SelectorFailed(err) =>
          if entry.policy.FailClosed? {
            return ChainFailed(err);
          }
        case Unmatched =>
        case Matched =>
          if entry.factoryIsNil { return ChainFailed(FactoryFailed(entry.name)); }
          handler := [entry.name] + handler;
      }
    }
    assert entries[0..] == entries;
    return Chain(handler);
  }

  /** The error this observer stops the stage with, if it does. */
  function ObserverError(o: ObserverEntry): Option<Error> {
    if o.policy.FailOpen? || o.selection.Unmatched? then None
    else if o.selection.SelectorFailed? then Some(o.selection.err)
    else o.failure
  }

  /** No observer of this stage stops the invocation. */
  ghost predicate Quiet(observers: seq<ObserverEntry>, when: When) {
    forall i :: 0 <= i < |observers| && observers[i].when == when ==> ObserverError(observers[i]).None?
  }

  /** The error of the first observer that stops this stage. */
  ghost predicate FirstFailure(observers: seq<ObserverEntry>, when: When, err: Error) {
    exists i :: 0 <= i < |observers| && observers[i].when == when && ObserverError(observers[i]) == Some(err)
                && forall j :: 0 <= j < i && observers[j].when == when ==> ObserverError(observers[j]).None?
  }

  /** The observers of a stage that are told, by their places: the selected ones, in order, up
      to the first that stops it. */
  ghost predicate Told(observers: seq<ObserverEntry>, when: When, told: seq<nat>) {
    && (forall a, b :: 0 <= a < b < |told| ==> told[a] < told[b])
    && (forall a :: 0 <= a < |told| ==> told[a] < |observers|)
    && forall i: nat :: i < |observers| ==>
         (i in told <==>
            observers[i].when == when && observers[i].selection == Matched && Undisturbed(observers, when, i))
  }

  /** None before this one stops the stage. */
  ghost predicate Undisturbed(observers: seq<ObserverEntry>, when: When, n: nat)
    requires n <= |observers|
  {
    forall j :: 0 <= j < n && observers[j].when == when ==> ObserverError(observers[j]).None?
  }

  /** `runObservers`: the first fail-closed failure of a stage, fail-open ones are skipped. */
  method RunObservers(observers: seq<ObserverEntry>, when: When) returns (err: Option<Error>, told: seq<nat>)
    ensures err.None? <==> Quiet(observers, when)
    ensures err.Some? ==> FirstFailure(observers, when, err.value)
    ensures Told(observers, when, told)
  {
    told := [];
    for i := 0 to |observers|
      invariant Undisturbed(observers, when, i)
      invariant Told(observers[..i], when, told)
    {
      var o := observers[i];
      ToldStep(observers, when, i, told);
      if o.when != when { continue; }
      match o.selection {
        case SelectorFailed(failed) =>
          if o.policy.FailOpen? { continue; }
          ToldEnd(observers, when, i, told);
          return Some(failed), told;
        case Unmatched => continue;
        case Matched =>
          told := told + [i];
          if o.failure.Some? {
            if o.policy.FailOpen? { continue; }
            ToldEnd(observers, when, i, told);
            return o.failure, told;
          }
      }
    }
    assert observers[..|observers|] == observers;
    return None, told;
  }

  lemma ToldStep(observers: seq<ObserverEntry>, when: When, i: nat, told: seq<nat>)
    requires i < |observers| && Undisturbed(observers, when, i) && Told(observers[..i], when, told)
    ensures var o := observers[i];
            Told(observers[..i + 1], when, if o.when == when && o.selection == Matched then told + [i] else told)
  {
    hide ObserverError;
    var before, more := observers[..i], observers[..i + 1];
    forall k: nat | k <= i ensures Undisturbed(more, when, k) == Undisturbed(observers, when, k) {
      assert forall j :: 0 <= j < k ==> more[j] == observers[j];
    }
    forall k: nat | k < i ensures Undisturbed(before, when, k) == Undisturbed(observers, when, k) {
      assert forall j :: 0 <= j < k ==> before[j] == observers[j];
    }
  }

  lemma ToldEnd(observers: seq<ObserverEntry>, when: When, i: nat, told: seq<nat>)
    requires i < |observers| && observers[i].when == when && ObserverError(observers[i]).Some?
    requires Told(observers[..i + 1], when, told)
    ensures Told(observers, when, told)
  {
    hide ObserverError;
    var more := observers[..i + 1];
    forall k: nat | k <= i ensures Undisturbed(more, when, k) == Undisturbed(observers, when, k) {
      assert forall j :: 0 <= j < k ==> more[j] == observers[j];
    }
    assert forall k: nat :: i < k < |observers| ==> !Undisturbed(observers, when, k);
    assert forall k: nat :: k <= i ==> more[k] == observers[k];
  }

  // ------------------------------------------------------ what the stages mean

  /** An observer's failure that counts: of its selector, or its own once selected; a
      fail-open observer has none. */
  ghost predicate FailsWith(o: ObserverEntry, err: Error) {
    o.policy == FailClosed && (o.selection == SelectorFailed(err) || (o.selection == Matched && o.failure == Some(err)))
  }

  /** A stage is quiet exactly when none of its observers fails, and otherwise what stops it
      is the failure of one. */
  lemma StageMeans(observers: seq<ObserverEntry>, when: When)
    ensures Quiet(observers, when) <==> forall o, err :: o in observers && o.when == when ==> !FailsWith(o, err)
    ensures forall err :: FirstFailure(observers, when, err) ==>
              exists o :: o in observers && o.when == when && FailsWith(o, err)
  {
    forall o ensures (forall err :: !FailsWith(o, err)) <==> ObserverError(o).None? {
      if ObserverError(o).Some? { assert FailsWith(o, ObserverError(o).value); }
    }
    forall err | FirstFailure(observers, when, err)
      ensures exists o :: o in observers && o.when == when && FailsWith(o, err) {
      var i :| 0 <= i < |observers| && observers[i].when == when && ObserverError(observers[i]) == Some(err);
      assert observers[i] in observers && FailsWith(observers[i], err);
    }
  }

  /** The places of the matching wrappers among the registered ones, in order. */
  ghost predicate Places(entries: seq<WrapperEntry>, start: nat, places: seq<nat>) {
    && (forall a, b :: 0 <= a < b < |places| ==> places[a] < places[b])
    && (forall a :: 0 <= a < |places| ==> start <= places[a] < |entries|)
    && forall i: nat :: start <= i < |entries| ==> (i in places <==> entries[i].selection == Matched)
  }

  /** The chain is the matching wrappers in the order they were registered in; it fails
      exactly for a fail-closed selector that failed or a matching wrapper without a
      factory. */
  lemma ChainMeans(entries: seq<WrapperEntry>) returns (places: seq<nat>)
    ensures Places(entries, 0, places) && |Selected(entries)| == |places|
    ensures forall a :: 0 <= a < |places| ==> Selected(entries)[a] == entries[places[a]].name
    ensures Unbroken(entries) <==>
              forall e :: e in entries ==>
                (e.selection.SelectorFailed? ==> e.policy == FailOpen) && (e.selection.Matched? ==> !e.factoryIsNil)
    ensures forall err :: LastBreak(entries, err) ==>
              exists e :: e in entries &&
                ((e.selection == SelectorFailed(err) && e.policy == FailClosed)
                 || (e.selection == Matched && e.factoryIsNil && err == FactoryFailed(e.name)))
  {
    places := SelectedPlaces(entries, 0);
    assert entries[0..] == entries;
    forall err | LastBreak(entries, err)
      ensures exists e :: e in entries &&
                ((e.selection == SelectorFailed(err) && e.policy == FailClosed)
                 || (e.selection == Matched && e.factoryIsNil && err == FactoryFailed(e.name)))
    {
      var i :| 0 <= i < |entries| && Breaks(entries[i]) && err == BreakError(entries[i]);
      assert entries[i] in entries;
    }
  }

  lemma {:induction false} SelectedPlaces(entries: seq<WrapperEntry>, start: nat) returns (places: seq<nat>)
    requires start <= |entries|
    ensures Places(entries, start, places) && |Selected(entries[start..])| == |places|
    ensures forall a :: 0 <= a < |places| ==> Selected(entries[start..])[a] == entries[places[a]].name
    decreases |entries| - start
  {
    hide Places;
    if start == |entries| {
      NoPlaces(entries);
      places := [];
    } else {
      var rest := SelectedPlaces(entries, start + 1);
      assert entries[start..][1..] == entries[start + 1..];
      PlacesStep(entries, start, rest);
      places := if entries[start].selection.Matched? then [start] + rest else rest;
    }
  }

  lemma NoPlaces(entries: seq<WrapperEntry>)
    ensures Places(entries, |entries|, [])
  {}

  lemma PlacesStep(entries: seq<WrapperEntry>, start: nat, rest: seq<nat>)
    requires start < |entries| && Places(entries, start + 1, rest)
    ensures Places(entries, start, if entries[start].selection.Matched? then [start] + rest else rest)
  {}

  // --------------------------------------------------------- one invocation

  datatype Outcome = Succeeded | Failed(err: Error) | Denied(denial: Policy.Denial)

  /** What plugins have registered. */
  datatype Registered = Registered(observers: seq<ObserverEntry>, rules: seq<Policy.Rule>, wrappers: seq<WrapperEntry>)

  /** Neither the command nor any wrapper entered. */
  const UNTOUCHED := Stack([], NotRun, 0)

  /** What any threads do, in any interleaving, with handlers nested in this order, from the
      moment the outermost is entered until some moment after it has returned. */
  ghost predicate Ran(hooks: seq<string>, events: seq<Event>) {
    Runnable(Start(hooks), events) && HasResult(After(Start(hooks), events), 0)
  }

  /** Nothing keeps the invocation from entering the handlers. */
  ghost predicate MayEnter(glob: Policy.PathMatch, r: Registered, command: Policy.Command) {
    Quiet(r.observers, Before) && Policy.Permitted(glob, r.rules, command) && Unbroken(r.wrappers)
  }

  /** What happened leaves a result and the wrappers it began with; a nil result means that
      nothing that was called returned an error. */
  lemma RanOnce(hooks: seq<string>, events: seq<Event>)
    requires Ran(hooks, events)
    ensures Runnable(Start(hooks), events) && HasResult(After(Start(hooks), events), 0)
    ensures var s := After(Start(hooks), events);
            && s.runs <= 1 && HooksOf(s) == hooks
            && (ResultAt(s, 0).None? ==>
                  && s.runs == 1 && s.command == Finished(None) && Flawless(events)
                  && forall k: nat :: k < |s.levels| ==> s.levels[k].calls == 1)
            && (forall err :: HandlerReturns(0, Some(err)) in events ==>
                  hooks != [] && CameOut(s, 0, hooks[0], err, events))
  {
    hide CameOut;
    var s := After(Start(hooks), events);
    AfterIsReached(Start(hooks), events);
    AtMostOnce(hooks, events, s);
    RunKeepsHooks(Start(hooks), events, s);
    StartHooks(hooks);
    if ResultAt(s, 0).None? {
      NilMeansAllRan(hooks, events, s);
      NilMeansNoFailure(hooks, events, s);
    }
    forall err | HandlerReturns(0, Some(err)) in events ensures hooks != [] && CameOut(s, 0, hooks[0], err, events) {
      HandlerErrorComesOut(hooks, events, s, 0, err);
    }
  }

  /** No handler and no command returned an error, and no factory failed. */
  ghost predicate Flawless(events: seq<Event>) {
    && (forall k, err :: HandlerReturns(k, err) in events ==> err.None?)
    && (forall err :: CommandReturns(err) in events ==> err.None?)
    && (forall k :: FactoryReturns(k, false) !in events)
  }

  /** The function `wrapRunE` returns. `run` is what happens in the handlers. The command runs
      at most once, and not at all when a rule denies it or anything before it fails; success
      means that it ran once and succeeded inside exactly the selected wrappers, each of which
      passed it on once, and that none of them returned an error of its own. An error that the
      outermost wrapper returns comes out of the invocation. `told` are the observers told before
      and afterwards: the latter in any case, whatever came of it. */
  method WrapRunE(glob: Policy.PathMatch, r: Registered, command: Policy.Command, run: seq<string> -> seq<Event>)
    returns (outcome: Outcome, stack: Stack, told: (seq<nat>, seq<nat>))
    requires forall hooks :: Ran(hooks, run(hooks))
    ensures Told(r.observers, Before, told.0) && Told(r.observers, Afterwards, told.1)
    ensures stack.runs <= 1
    ensures !MayEnter(glob, r, command) ==> stack == UNTOUCHED && !outcome.Succeeded?
    ensures MayEnter(glob, r, command) ==>
              var hooks := Selected(r.wrappers);
              && Ran(hooks, run(hooks)) && stack == After(Start(hooks), run(hooks)) && HooksOf(stack) == hooks
    ensures outcome.Succeeded? <==>
              MayEnter(glob, r, command) && ResultAt(stack, 0).None? && Quiet(r.observers, Afterwards)
    ensures outcome.Succeeded? ==>
              && stack.runs == 1 && stack.command == Finished(None) && Flawless(run(Selected(r.wrappers)))
              && forall k: nat :: k < |stack.levels| ==> stack.levels[k].calls == 1
    ensures outcome.Denied? <==> Quiet(r.observers, Before) && !Policy.Permitted(glob, r.rules, command)
    ensures outcome.Failed? ==>
              if !Quiet(r.observers, Before) then FirstFailure(r.observers, Before, outcome.err)
              else if !Unbroken(r.wrappers) then LastBreak(r.wrappers, outcome.err)
              else if ResultAt(stack, 0).Some? then outcome.err == ResultAt(stack, 0).value
              else FirstFailure(r.observers, Afterwards, outcome.err)
    ensures MayEnter(glob, r, command) ==>
              forall err :: HandlerReturns(0, Some(err)) in run(Selected(r.wrappers)) ==>
                && outcome.Failed? && Selected(r.wrappers) != []
                && CameOut(stack, 0, Selected(r.wrappers)[0], err, run(Selected(r.wrappers)))
                && ResultAt(stack, 0) == Some(outcome.err)
  {
    hide Quiet, Told, FirstFailure, Unbroken, LastBreak, Policy.Permitted, Ran, Flawless, CameOut, FailureOf;
    stack := UNTOUCHED;
    var before, first := RunObservers(r.observers, Before);
    if before.Some? {
      var _, last := RunObservers(r.observers, Afterwards);
      return Failed(before.value), stack, (first, last);
    }
    var denial := Policy.FindDenial(glob, r.rules, command);
    if denial.Some? {
      var _, last := RunObservers(r.observers, Afterwards);
      return Denied(denial.value), stack, (first, last);
    }
    var chain := BuildChain(r.wrappers);
    if chain.ChainFailed? {
      var _, last := RunObservers(r.observers, Afterwards);
      return Failed(chain.err), stack, (first, last);
    }
    RanOnce(chain.hooks, run(chain.hooks));
    stack := After(Start(chain.hooks), run(chain.hooks));
    var err := ResultAt(stack, 0);
    forall e | HandlerReturns(0, Some(e)) in run(chain.hooks) ensures err.Some? {
      OutIsFailure(stack, 0, chain.hooks[0], e, run(chain.hooks));
    }
    var after, last := RunObservers(r.observers, Afterwards);
    told := (first, last);
    if after.Some? && err.None? { err := after; }
    outcome := if err.None? then Succeeded else Failed(err.value);
  }

  lemma OutIsFailure(s: Stack, k: nat, hook: string, err: Error, events: seq<Event>)
    requires CameOut(s, k, hook, err, events)
    ensures ResultAt(s, k).Some?
  {}
}
