/** The untrusted wrappers around one command, in every interleaving of their calls. */
module Wrappers {
  // First the tracker of one wrapper call, then a whole stack of them.

  import opened Options

  /** Errors that reach the boundary. `Foreign` is whatever a command or a plugin
      returned; the other forms are made by the runtime. */
  datatype Error =
    | Foreign(id: int)
    | Misuse(hook: string)
    | NextNotCalled(hook: string)
    | FactoryFailed(hook: string)
    | Crossed(hook: string, cause: Error)
    | Delegated(public: Error, cause: Error)

  // ----------------------------------------------------------- one invocation

  /** The fields of `wrapperInvocationTracker`. */
  datatype Tracker = Tracker(hook: string, closed: bool, called: bool, inFlight: int, errs: seq<Error>,
                             violation: Option<Error>)

  function NewTracker(hook: string): Tracker {
    Tracker(hook, false, false, 0, [], None)
  }

  predicate Admits(t: Tracker) { !t.closed && !t.called }

  /** The first critical section of `call`. */
  function Enter(t: Tracker): Tracker {
    if Admits(t) then t.(called := true, inFlight := t.inFlight + 1)
    else if t.violation.None? then t.(violation := Some(Misuse(t.hook)))
    else t
  }

  /** The deferred critical section of `call`. */
  function Leave(t: Tracker, err: Option<Error>): Tracker {
    t.(errs := if err.Some? then t.errs + [err.value] else t.errs, inFlight := t.inFlight - 1)
  }

  /** What `closeAndWait` returns once nothing is in flight. */
  function Verdict(t: Tracker): Option<Error> {
    if t.violation.Some? then t.violation
    else if !t.called then Some(NextNotCalled(t.hook))
    else if t.errs != [] then Some(t.errs[0])
    else None
  }

  /** The tracker as the code keeps it: fields changed under one mutex, each method
      one critical section. */
  class WrapperInvocationTracker {
    const hookName: string
    var closed: bool
    var called: bool
    var inFlight: int
    var errs: seq<Error>
    var violation: Option<Error>

    ghost function State(): Tracker
      reads this
    {
      Tracker(hookName, closed, called, inFlight, errs, violation)
    }

    constructor (hookName: string)
      ensures State() == NewTracker(hookName)
    {
      this.hookName := hookName;
      closed, called, inFlight, errs, violation := false, false, 0, [], None;
    }

    method BeginCall() returns (rejection: Option<Error>)
      modifies this
      ensures State() == Enter(old(State()))
      ensures rejection == if old(closed || called) then Some(Misuse(hookName)) else None
      ensures closed == old(closed) && called == (old(called) || !old(closed)) && errs == old(errs)
      ensures inFlight == old(inFlight) + if rejection.None? then 1 else 0
      ensures violation == if old(violation).Some? then old(violation) else rejection
    {
      if closed || called {
        var raised := Misuse(hookName);
        if violation.None? { violation := Some(raised); }
        return Some(raised);
      }
      called := true;
      inFlight := inFlight + 1;
      return None;
    }

    method EndCall(err: Option<Error>)
      modifies this
      ensures State() == Leave(old(State()), err)
      ensures errs == old(errs) + (if err.Some? then [err.value] else []) && inFlight == old(inFlight) - 1
      ensures closed == old(closed) && called == old(called) && violation == old(violation)
    {
      if err.Some? { errs := errs + [err.value]; }
      inFlight := inFlight - 1;
    }

    method BeginClose()
      modifies this
      ensures State() == old(State()).(closed := true)
    {
      closed := true;
    }

    method EndClose() returns (err: Option<Error>)
      requires closed && inFlight == 0
      ensures err == Verdict(State())
    {
      if violation.Some? { return violation; }
      if !called { return Some(NextNotCalled(hookName)); }
      if |errs| > 0 { return Some(errs[0]); }
      return None;
    }
  }

  /** How `buildWrapper` turns the wrapper's own error into the result. `matching` is
      the downstream error the wrapper's error wraps, if any; `structured` is the
      abort, denial or runtime error found in it, if any. */
  function Boundary(t: Tracker, callErr: Option<Error>, structured: Option<Error>, matches: bool): Option<Error> {
    if callErr.None? then Verdict(t)
    else if matches && t.errs != [] then Some(Delegated(t.errs[0], callErr.value))
    else if structured.Some? then Some(Delegated(structured.value, callErr.value))
    else Some(Crossed(t.hook, callErr.value))
  }

  // ------------------------------------------------------------ the stack

  /** Where one handler made by `buildWrapper` is. */
  datatype Phase =
    | Idle
    | Building                                  // the plugin's factory runs
    | Handling                                  // the plugin's handler runs
    | Returned(callErr: Option<Error>)          // it returned, the tracker is still open
    | Waiting(callErr: Option<Error>)           // closed, waiting for calls in flight
    | Ended(result: Option<Error>)
    | Refused(result: Option<Error>)            // the factory panicked or returned nil

  /** `starts` counts the times this handler was entered; `calls` the calls of its
      `next` until its tracker was closed or its factory failed. */
  datatype Level = Level(tracker: Tracker, phase: Phase, starts: nat, calls: nat)

  datatype Command = NotRun | Running | Finished(result: Option<Error>)

  /** Wrapper 0 is the outermost. `runs` counts the runs of the command itself. */
  datatype Stack = Stack(levels: seq<Level>, command: Command, runs: nat)

  datatype Event =
    | CallNext(k: nat)                                         // anyone holding the `next` of wrapper k
    | FactoryReturns(k: nat, ok: bool)
    | HandlerReturns(k: nat, err: Option<Error>)               // also a recovered panic
    | Close(k: nat)
    | End(k: nat, structured: Option<Error>, matches: bool)
    | NextReturns(k: nat)
    | CommandReturns(err: Option<Error>)                       // also a recovered panic

  function Fresh(hook: string): Level { Level(NewTracker(hook), Idle, 0, 0) }

  /** Entering the handler below wrapper `k`: the next wrapper, or the command. */
  function StartBelow(s: Stack, k: nat): Stack
    requires k < |s.levels|
  {
    StartAt(s, k + 1)
  }

  function StartAt(s: Stack, k: nat): Stack
    requires k <= |s.levels|
  {
    if k == |s.levels| then s.(command := Running, runs := s.runs + 1)
    else
      var l := s.levels[k];
      s.(levels := s.levels[k := Level(NewTracker(l.tracker.hook), Building, l.starts + 1, 0)])
  }

  /** `wrapRunE` enters the outermost handler once. */
  function Start(hooks: seq<string>): Stack {
    StartAt(Stack(seq(|hooks|, k requires 0 <= k < |hooks| => Fresh(hooks[k])), NotRun, 0), 0)
  }

  predicate HasResult(s: Stack, k: nat)
    requires k <= |s.levels|
  {
    if k == |s.levels| then s.command.Finished? else s.levels[k].phase.Ended? || s.levels[k].phase.Refused?
  }

  /** What the handler at `k` returned. */
  function ResultAt(s: Stack, k: nat): Option<Error>
    requires k <= |s.levels| && HasResult(s, k)
  {
    if k == |s.levels| then s.command.result else s.levels[k].phase.result
  }

  predicate Enabled(s: Stack, e: Event) {
    match e
    case CallNext(k) => k < |s.levels| && !s.levels[k].phase.Idle?
    case FactoryReturns(k, ok) => k < |s.levels| && s.levels[k].phase.Building?
    case HandlerReturns(k, err) => k < |s.levels| && s.levels[k].phase.Handling?
    case Close(k) => k < |s.levels| && s.levels[k].phase.Returned?
    case End(k, structured, matches) =>
      k < |s.levels| && s.levels[k].phase.Waiting? && s.levels[k].tracker.inFlight <= 0
    case NextReturns(k) => k < |s.levels| && s.levels[k].tracker.inFlight > 0 && HasResult(s, k + 1)
    case CommandReturns(err) => s.command.Running?
  }

  function SetLevel(s: Stack, k: nat, l: Level): Stack
    requires k < |s.levels|
  {
    s.(levels := s.levels[k := l])
  }

  function Step(s: Stack, e: Event): Stack
    requires Enabled(s, e)
  {
    match e
    case CallNext(k) =>
      var l := s.levels[k];
      var over := l.tracker.closed || l.phase.Refused?;
      var s' := SetLevel(s, k, l.(tracker := Enter(l.tracker), calls := if over then l.calls else l.calls + 1));
      if Admits(l.tracker) then StartBelow(s', k) else s'
    case FactoryReturns(k, ok) =>
      var l := s.levels[k];
      SetLevel(s, k, l.(phase := if ok then Handling else Refused(Some(FactoryFailed(l.tracker.hook)))))
    case HandlerReturns(k, err) => SetLevel(s, k, s.levels[k].(phase := Returned(err)))
    case Close(k) =>
      var l := s.levels[k];
      SetLevel(s, k, l.(phase := Waiting(l.phase.callErr), tracker := l.tracker.(closed := true)))
    case End(k, structured, matches) =>
      var l := s.levels[k];
      SetLevel(s, k, l.(phase := Ended(Boundary(l.tracker, l.phase.callErr, structured, matches))))
    case NextReturns(k) =>
      var l := s.levels[k];
      SetLevel(s, k, l.(tracker := Leave(l.tracker, ResultAt(s, k + 1))))
    case CommandReturns(err) => s.(command := Finished(err))
  }

  /** The states a run of `events` passes through ends here. */
  ghost predicate Reaches(s: Stack, events: seq<Event>, t: Stack)
    decreases |events|
  {
    if events == [] then s == t
    else Enabled(s, events[0]) && Reaches(Step(s, events[0]), events[1..], t)
  }

  // --------------------------------------------------------------- invariant

  /** How often the handler at `k` was entered. */
  function StartsAt(s: Stack, k: nat): nat
    requires k <= |s.levels|
  {
    if k == |s.levels| then s.runs else s.levels[k].starts
  }

  predicate PhaseInv(l: Level) {
    && (l.phase.Idle? <==> l.starts == 0)
    && l.starts <= 1
    && (l.tracker.closed <==> l.phase.Waiting? || l.phase.Ended?)
    && (l.phase.Idle? ==> l.tracker == NewTracker(l.tracker.hook) && l.calls == 0)
    && (!l.phase.Refused? ==> (l.tracker.called <==> l.calls > 0))
    && (!l.phase.Refused? && l.calls > 1 ==> l.tracker.violation.Some?)
    && (!l.phase.Refused? && !l.tracker.closed && l.calls <= 1 ==> l.tracker.violation.None?)
    && 0 <= l.tracker.inFlight <= 1
    && (l.tracker.inFlight == 1 ==> l.tracker.called && l.tracker.errs == [])
    && (!l.tracker.called ==> l.tracker.errs == [])
    && (l.phase.Ended? ==> l.tracker.inFlight == 0)
    && (l.phase == Ended(None) ==> l.tracker.called && l.calls == 1 && l.tracker.errs == [])
    && (l.phase.Refused? ==> l.phase.result == Some(FactoryFailed(l.tracker.hook)))
    && (l.tracker.violation.Some? ==> l.tracker.violation.value == Misuse(l.tracker.hook))
  }

  /** What the tracker of wrapper `k` knows about the handler below. */
  predicate LinkInv(s: Stack, k: nat)
    requires k < |s.levels|
  {
    var t := s.levels[k].tracker;
    && StartsAt(s, k + 1) == (if t.called then 1 else 0)
    && (t.called && t.inFlight == 0 ==>
          HasResult(s, k + 1) && t.errs == if ResultAt(s, k + 1).Some? then [ResultAt(s, k + 1).value] else [])
  }

  predicate Inv(s: Stack) {
    && StartsAt(s, 0) == 1
    && (s.command.NotRun? <==> s.runs == 0)
    && (forall k: nat :: k < |s.levels| ==> PhaseInv(s.levels[k]))
    && (forall k: nat :: k < |s.levels| ==> LinkInv(s, k))
  }

  lemma StartInv(hooks: seq<string>)
    ensures Inv(Start(hooks))
  {}

  lemma StepInv(s: Stack, e: Event)
    requires Inv(s) && Enabled(s, e)
    ensures Inv(Step(s, e))
  {
    match e
    case CallNext(k) => CallNextInv(s, k);
    case CommandReturns(err) => CommandReturnsInv(s, err);
    case FactoryReturns(k, ok) => InsideInv(s, e, k);
    case HandlerReturns(k, err) => InsideInv(s, e, k);
    case Close(k) => InsideInv(s, e, k);
    case End(k, structured, matches) => InsideInv(s, e, k);
    case NextReturns(k) => NextReturnsInv(s, k);
  }

  lemma InsideInv(s: Stack, e: Event, k: nat)
    requires Inv(s) && Enabled(s, e) && !e.CallNext? && !e.CommandReturns? && !e.NextReturns? && e.k == k
    ensures Inv(Step(s, e))
  {
    assert PhaseInv(s.levels[k]) && LinkInv(s, k);
    OneLevelInv(s, k, Step(s, e).levels[k]);
  }

  lemma CommandReturnsInv(s: Stack, err: Option<Error>)
    requires Inv(s) && s.command.Running?
    ensures Inv(Step(s, CommandReturns(err)))
  {
    var s' := Step(s, CommandReturns(err));
    forall j: nat | j < |s'.levels| ensures PhaseInv(s'.levels[j]) && LinkInv(s', j) {
      assert PhaseInv(s.levels[j]) && LinkInv(s, j);
    }
  }

  lemma NextReturnsInv(s: Stack, k: nat)
    requires Inv(s) && Enabled(s, NextReturns(k))
    ensures Inv(Step(s, NextReturns(k)))
  {
    assert PhaseInv(s.levels[k]) && LinkInv(s, k);
    OneLevelInv(s, k, Step(s, NextReturns(k)).levels[k]);
  }

  /** A step inside one level keeps the others' invariants when it keeps its own and
      the result it may already have. */
  lemma OneLevelInv(s: Stack, k: nat, l: Level)
    requires Inv(s) && k < |s.levels|
    requires PhaseInv(l) && LinkInv(SetLevel(s, k, l), k)
    requires l.starts == s.levels[k].starts
    requires HasResult(s, k) ==> l.phase == s.levels[k].phase
    ensures Inv(SetLevel(s, k, l))
  {
    var s' := SetLevel(s, k, l);
    forall j: nat | j < |s'.levels| ensures PhaseInv(s'.levels[j]) && LinkInv(s', j) {
      assert PhaseInv(s.levels[j]) && LinkInv(s, j);
    }
  }

  lemma CallNextInv(s: Stack, k: nat)
    requires Inv(s) && k < |s.levels| && !s.levels[k].phase.Idle?
    ensures Inv(Step(s, CallNext(k)))
  {
    var s' := Step(s, CallNext(k));
    assert PhaseInv(s.levels[k]) && LinkInv(s, k);
    forall j: nat | j < |s'.levels| ensures PhaseInv(s'.levels[j]) && LinkInv(s', j) {
      assert PhaseInv(s.levels[j]) && LinkInv(s, j);
      if j == k + 1 && Admits(s.levels[k].tracker) {
        assert s.levels[j].starts == 0;
        assert s'.levels[j] == Level(NewTracker(s.levels[j].tracker.hook), Building, 1, 0);
        assert StartsAt(s', j + 1) == StartsAt(s, j + 1);
      }
    }
  }

  lemma {:induction false} RunInv(s: Stack, events: seq<Event>, t: Stack)
    requires Inv(s) && Reaches(s, events, t)
    ensures Inv(t) && |t.levels| == |s.levels|
    decreases |events|
  {
    if events != [] {
      StepInv(s, events[0]);
      RunInv(Step(s, events[0]), events[1..], t);
    }
  }

  /** The names of the wrappers, outermost first. */
  function HooksOf(s: Stack): seq<string> {
    seq(|s.levels|, k requires 0 <= k < |s.levels| => s.levels[k].tracker.hook)
  }

  lemma StartHooks(hooks: seq<string>)
    ensures HooksOf(Start(hooks)) == hooks
  {}

  lemma {:induction false} RunKeepsHooks(s: Stack, events: seq<Event>, t: Stack)
    requires Reaches(s, events, t)
    ensures HooksOf(t) == HooksOf(s)
    decreases |events|
  {
    if events != [] {
      var s' := Step(s, events[0]);
      assert forall k :: 0 <= k < |s.levels| ==> s'.levels[k].tracker.hook == s.levels[k].tracker.hook;
      RunKeepsHooks(s', events[1..], t);
    }
  }

  // ---------------------------------------------------------------- theorems

  /** The command, and every wrapper's handler, is entered at most once whatever the
      wrappers do. */
  lemma AtMostOnce(hooks: seq<string>, events: seq<Event>, t: Stack)
    requires Reaches(Start(hooks), events, t)
    ensures t.runs <= 1
    ensures forall k: nat :: k < |t.levels| ==> t.levels[k].starts <= 1
  {
    StartInv(hooks);
    RunInv(Start(hooks), events, t);
    assert forall k: nat :: k < |t.levels| ==> PhaseInv(t.levels[k]);
    if |t.levels| > 0 { assert LinkInv(t, |t.levels| - 1); }
  }

  /** A nil result of the whole stack: every wrapper called its `next` exactly once
      and returned nil, and the command ran exactly once and returned nil. */
  lemma NilMeansAllRan(hooks: seq<string>, events: seq<Event>, t: Stack)
    requires Reaches(Start(hooks), events, t)
    requires HasResult(t, 0) && ResultAt(t, 0).None?
    ensures t.runs == 1 && t.command == Finished(None) && |t.levels| == |hooks|
    ensures forall k: nat :: k < |t.levels| ==> t.levels[k].phase == Ended(None) && t.levels[k].calls == 1
  {
    StartInv(hooks);
    RunInv(Start(hooks), events, t);
    NilBelow(t, 0);
  }

  lemma {:induction false} NilBelow(t: Stack, k: nat)
    requires Inv(t) && k <= |t.levels| && HasResult(t, k) && ResultAt(t, k).None?
    requires StartsAt(t, k) == 1
    ensures t.runs == 1 && t.command == Finished(None)
    ensures forall j: nat :: k <= j < |t.levels| ==> t.levels[j].phase == Ended(None) && t.levels[j].calls == 1
    decreases |t.levels| - k
  {
    if k < |t.levels| {
      assert PhaseInv(t.levels[k]) && LinkInv(t, k);
      NilBelow(t, k + 1);
    }
  }

  /** An error below is never lost: a wrapper that swallows it still yields it, and
      any other result is an error too. */
  lemma ErrorSurvives(hooks: seq<string>, events: seq<Event>, t: Stack, k: nat)
    requires Reaches(Start(hooks), events, t) && k < |t.levels|
    requires t.levels[k].phase.Waiting? && t.levels[k].tracker.inFlight == 0
    requires HasResult(t, k + 1) && ResultAt(t, k + 1).Some?
    ensures forall structured, matches ::
              var r := Boundary(t.levels[k].tracker, t.levels[k].phase.callErr, structured, matches);
              && r.Some?
              && (t.levels[k].phase.callErr.None? && t.levels[k].tracker.violation.None? ==> r == ResultAt(t, k + 1))
  {
    StartInv(hooks);
    RunInv(Start(hooks), events, t);
    assert PhaseInv(t.levels[k]) && LinkInv(t, k);
    StartedBelow(t, k + 1);
  }

  lemma StartedBelow(t: Stack, k: nat)
    requires Inv(t) && k <= |t.levels| && HasResult(t, k)
    ensures StartsAt(t, k) >= 1
  {
    if k < |t.levels| { assert PhaseInv(t.levels[k]); }
  }

  /** What the handler below wrapper `k` returned, if it was entered. */
  function BelowAt(s: Stack, k: nat): Option<Error>
    requires k < |s.levels| && (StartsAt(s, k + 1) > 0 ==> HasResult(s, k + 1))
  {
    if StartsAt(s, k + 1) == 0 then None else ResultAt(s, k + 1)
  }

  /** What comes out for an error that a wrapper returned: the error from below it wraps, the
      structured error found in it, or else a failure that names the wrapper. */
  function FailureOf(hook: string, err: Error, below: Option<Error>, structured: Option<Error>, matches: bool): Error {
    if below.Some? && matches then Delegated(below.value, err)
    else if structured.Some? then Delegated(structured.value, err)
    else Crossed(hook, err)
  }

  /** How a wrapper that is over decides: its own error comes out as a failure; without one, a
      second or late call of `next` does, then that it was never called, then what came from
      below. */
  lemma EndDecides(hooks: seq<string>, events: seq<Event>, t: Stack, k: nat, structured: Option<Error>, matches: bool)
    requires Reaches(Start(hooks), events, t) && Enabled(t, End(k, structured, matches))
    ensures |t.levels| == |hooks| && (StartsAt(t, k + 1) > 0 ==> HasResult(t, k + 1))
    ensures ResultAt(Step(t, End(k, structured, matches)), k) ==
            match t.levels[k].phase.callErr
            case Some(err) => Some(FailureOf(hooks[k], err, BelowAt(t, k), structured, matches))
            case None =>
              if t.levels[k].tracker.violation.Some? then Some(Misuse(hooks[k]))
              else if StartsAt(t, k + 1) == 0 then Some(NextNotCalled(hooks[k]))
              else ResultAt(t, k + 1)
  {
    StartInv(hooks);
    RunInv(Start(hooks), events, t);
    RunKeepsHooks(Start(hooks), events, t);
    StartHooks(hooks);
    assert HooksOf(t)[k] == t.levels[k].tracker.hook;
    assert PhaseInv(t.levels[k]) && LinkInv(t, k);
  }

  lemma {:induction false} RunFinal(s: Stack, events: seq<Event>, t: Stack, k: nat)
    requires Inv(s) && Reaches(s, events, t) && k <= |s.levels| && HasResult(s, k)
    ensures k <= |t.levels| && HasResult(t, k) && ResultAt(t, k) == ResultAt(s, k)
    decreases |events|
  {
    hide Inv, Step;
    if events != [] {
      StepInv(s, events[0]);
      RunInv(s, [events[0]], Step(s, events[0]));
      ResultIsFinal(s, events[0], k);
      RunFinal(Step(s, events[0]), events[1..], t, k);
    }
  }

  /** Once closed, a tracker stays closed, and whether its `next` was called is settled. */
  lemma {:induction false} ClosedStays(s: Stack, events: seq<Event>, t: Stack, k: nat)
    requires Inv(s) && Reaches(s, events, t) && k < |s.levels| && s.levels[k].tracker.closed
    ensures k < |t.levels| && t.levels[k].tracker.called == s.levels[k].tracker.called
    decreases |events|
  {
    if events != [] {
      StepInv(s, events[0]);
      ClosedStep(s, events[0], k);
      ClosedStays(Step(s, events[0]), events[1..], t, k);
    }
  }

  lemma ClosedStep(s: Stack, e: Event, k: nat)
    requires Inv(s) && Enabled(s, e) && k < |s.levels| && s.levels[k].tracker.closed
    ensures var t := Step(s, e);
            |t.levels| == |s.levels| && t.levels[k].tracker.closed
            && t.levels[k].tracker.called == s.levels[k].tracker.called
  {
    assert PhaseInv(s.levels[k]);
    if e.CallNext? { assert LinkInv(s, e.k) && PhaseInv(s.levels[e.k]); }
  }

  /** The handler of wrapper `k` has returned this error and is not over yet. */
  predicate Failing(s: Stack, k: nat, err: Error) {
    k < |s.levels| && (s.levels[k].phase == Returned(Some(err)) || s.levels[k].phase == Waiting(Some(err)))
  }

  /** The wrapper is over, and its error came out as some end of it decided. */
  ghost predicate CameOut(s: Stack, k: nat, hook: string, err: Error, events: seq<Event>) {
    && k < |s.levels| && HasResult(s, k) && (StartsAt(s, k + 1) > 0 ==> HasResult(s, k + 1))
    && exists structured, matches ::
         End(k, structured, matches) in events
         && ResultAt(s, k) == Some(FailureOf(hook, err, BelowAt(s, k), structured, matches))
  }

  lemma FailingStep(s: Stack, e: Event, k: nat, err: Error)
    requires Inv(s) && Enabled(s, e) && Failing(s, k, err)
    ensures var t := Step(s, e);
            Failing(t, k, err) || (e.End? && e.k == k && CameOut(t, k, s.levels[k].tracker.hook, err, [e]))
  {
    assert PhaseInv(s.levels[k]) && LinkInv(s, k);
    if e.CallNext? { assert LinkInv(s, e.k) && PhaseInv(s.levels[e.k]); }
    if e.End? && e.k == k { assert e in [e]; }
  }

  lemma CameOutStays(s: Stack, events: seq<Event>, t: Stack, k: nat, hook: string, err: Error, before: seq<Event>)
    requires Inv(s) && Reaches(s, events, t) && CameOut(s, k, hook, err, before) && s.levels[k].phase.Ended?
    ensures CameOut(t, k, hook, err, before + events)
  {
    hide Step, FailureOf;
    RunInv(s, events, t);
    RunFinal(s, events, t, k);
    assert PhaseInv(s.levels[k]) && LinkInv(s, k) && LinkInv(t, k);
    ClosedStays(s, events, t, k);
    if StartsAt(s, k + 1) > 0 { RunFinal(s, events, t, k + 1); }
    var structured, matches :| End(k, structured, matches) in before
      && ResultAt(s, k) == Some(FailureOf(hook, err, BelowAt(s, k), structured, matches));
    assert End(k, structured, matches) in before + events;
  }

  lemma {:induction false} FailingRun(s: Stack, events: seq<Event>, t: Stack, k: nat, err: Error)
    requires Inv(s) && Reaches(s, events, t) && Failing(s, k, err)
    ensures Failing(t, k, err) || CameOut(t, k, s.levels[k].tracker.hook, err, events)
    decreases |events|
  {
    hide Inv, CameOut, Failing;
    if events != [] {
      var e, s1 := events[0], Step(s, events[0]);
      StepInv(s, e);
      FailingHook(s, e, k, err);
      FailingStep(s, e, k, err);
      if Failing(s1, k, err) {
        FailingRun(s1, events[1..], t, k, err);
        if !Failing(t, k, err) { CameOutMore(t, k, s.levels[k].tracker.hook, err, events[1..], events); }
      } else {
        CameOutStays(s1, events[1..], t, k, s.levels[k].tracker.hook, err, [e]);
        assert [e] + events[1..] == events;
      }
    }
  }

  lemma FailingHook(s: Stack, e: Event, k: nat, err: Error)
    requires Enabled(s, e) && Failing(s, k, err)
    ensures k < |s.levels| == |Step(s, e).levels| && Step(s, e).levels[k].tracker.hook == s.levels[k].tracker.hook
    ensures e.End? && e.k == k ==> Step(s, e).levels[k].phase.Ended?
  {}

  lemma CameOutMore(s: Stack, k: nat, hook: string, err: Error, events: seq<Event>, more: seq<Event>)
    requires CameOut(s, k, hook, err, events) && forall e :: e in events ==> e in more
    ensures CameOut(s, k, hook, err, more)
  {}

  lemma {:induction false} ReturnedError(s: Stack, events: seq<Event>, t: Stack, k: nat, err: Error)
    requires Inv(s) && Reaches(s, events, t) && HandlerReturns(k, Some(err)) in events
    ensures k < |s.levels| && (Failing(t, k, err) || CameOut(t, k, s.levels[k].tracker.hook, err, events))
    decreases |events|
  {
    hide Inv, CameOut;
    var e, s1 := events[0], Step(s, events[0]);
    StepInv(s, e);
    if e == HandlerReturns(k, Some(err)) {
      FailingRun(s1, events[1..], t, k, err);
    } else {
      assert HandlerReturns(k, Some(err)) in events[1..];
      ReturnedError(s1, events[1..], t, k, err);
      RunKeepsHooks(s, [e], s1);
      assert HooksOf(s)[k] == HooksOf(s1)[k];
    }
    if !Failing(t, k, err) { CameOutMore(t, k, s.levels[k].tracker.hook, err, events[1..], events); }
  }

  /** An error that a wrapper's handler returned in a run is its result once it is over: the
      error from below that it wraps, the structured error in it, or a failure that names it. */
  lemma HandlerErrorComesOut(hooks: seq<string>, events: seq<Event>, t: Stack, k: nat, err: Error)
    requires Reaches(Start(hooks), events, t) && HandlerReturns(k, Some(err)) in events
    ensures k < |t.levels| == |hooks|
    ensures HasResult(t, k) ==> CameOut(t, k, hooks[k], err, events)
  {
    hide CameOut;
    StartInv(hooks);
    RunInv(Start(hooks), events, t);
    ReturnedError(Start(hooks), events, t, k, err);
    StartHooks(hooks);
    assert HooksOf(Start(hooks))[k] == hooks[k];
  }

  /** After a nil result of the whole stack no handler has returned an error. */
  lemma NilMeansNoError(hooks: seq<string>, events: seq<Event>, t: Stack, k: nat, err: Option<Error>)
    requires Reaches(Start(hooks), events, t) && HasResult(t, 0) && ResultAt(t, 0).None?
    requires HandlerReturns(k, err) in events
    ensures err.None?
  {
    NilMeansAllRan(hooks, events, t);
    if err.Some? { HandlerErrorComesOut(hooks, events, t, k, err.value); }
  }

  /** A factory that failed in a run made its wrapper fail with a failure that names it. */
  lemma {:induction false} FactoryFailureComesOut(hooks: seq<string>, before: seq<Event>, s: Stack, events: seq<Event>,
                                                  t: Stack, k: nat)
    requires Reaches(Start(hooks), before, s) && Reaches(s, events, t) && FactoryReturns(k, false) in events
    ensures k < |t.levels| == |hooks| && HasResult(t, k) && ResultAt(t, k) == Some(FactoryFailed(hooks[k]))
    decreases |events|
  {
    StartInv(hooks);
    RunInv(Start(hooks), before, s);
    var e, s1 := events[0], Step(s, events[0]);
    Continue(Start(hooks), before, s, e);
    if e == FactoryReturns(k, false) {
      StepInv(s, e);
      RunFinal(s1, events[1..], t, k);
      RunInv(s1, events[1..], t);
      RunKeepsHooks(Start(hooks), before, s);
      StartHooks(hooks);
      assert HooksOf(s)[k] == s.levels[k].tracker.hook;
    } else {
      assert FactoryReturns(k, false) in events[1..];
      FactoryFailureComesOut(hooks, before + [e], s1, events[1..], t, k);
    }
  }

  lemma {:induction false} Continue(s: Stack, events: seq<Event>, t: Stack, e: Event)
    requires Reaches(s, events, t) && Enabled(t, e)
    ensures Reaches(s, events + [e], Step(t, e))
    decreases |events|
  {
    hide Step, Enabled;
    var all := events + [e];
    if events == [] {
      assert all == [e] && all[1..] == [];
    } else {
      assert all[0] == events[0] && all[1..] == events[1..] + [e];
      Continue(Step(s, events[0]), events[1..], t, e);
    }
  }

  /** What the command returned in a run is what it is known to have returned. */
  lemma {:induction false} CommandReturnStays(s: Stack, events: seq<Event>, t: Stack, err: Option<Error>)
    requires Inv(s) && Reaches(s, events, t) && CommandReturns(err) in events
    ensures t.command == Finished(err)
    decreases |events|
  {
    hide Inv;
    var s1 := Step(s, events[0]);
    StepInv(s, events[0]);
    if events[0] == CommandReturns(err) {
      RunFinal(s1, events[1..], t, |s.levels|);
      RunInv(s1, events[1..], t);
    } else {
      assert CommandReturns(err) in events[1..];
      CommandReturnStays(s1, events[1..], t, err);
    }
  }

  /** A run in which a handler or the command returned an error, or a factory failed, does not
      end with a nil result. */
  lemma NilMeansNoFailure(hooks: seq<string>, events: seq<Event>, t: Stack)
    requires Reaches(Start(hooks), events, t) && HasResult(t, 0) && ResultAt(t, 0).None?
    ensures forall k, err :: HandlerReturns(k, err) in events ==> err.None?
    ensures forall err :: CommandReturns(err) in events ==> err.None?
    ensures forall k :: FactoryReturns(k, false) !in events
  {
    hide Inv, Enabled, Step, Reaches;
    NilMeansAllRan(hooks, events, t);
    StartInv(hooks);
    forall k, err | HandlerReturns(k, err) in events ensures err.None? { NilMeansNoError(hooks, events, t, k, err); }
    forall err | CommandReturns(err) in events ensures err.None? { CommandReturnStays(Start(hooks), events, t, err); }
    forall k | FactoryReturns(k, false) in events ensures false {
      Nothing(Start(hooks));
      FactoryFailureComesOut(hooks, [], Start(hooks), events, t, k);
    }
  }

  lemma Nothing(s: Stack)
    ensures Reaches(s, [], s)
  {}

  /** A run that is no more than its events. */
  predicate Runnable(s: Stack, events: seq<Event>)
    decreases |events|
  {
    events == [] || (Enabled(s, events[0]) && Runnable(Step(s, events[0]), events[1..]))
  }

  function After(s: Stack, events: seq<Event>): Stack
    requires Runnable(s, events)
    decreases |events|
  {
    if events == [] then s else After(Step(s, events[0]), events[1..])
  }

  lemma {:induction false} AfterIsReached(s: Stack, events: seq<Event>)
    requires Runnable(s, events)
    ensures Reaches(s, events, After(s, events))
    decreases |events|
  {
    hide Step, Enabled;
    if events != [] { AfterIsReached(Step(s, events[0]), events[1..]); }
  }

  /** After `closeAndWait` nothing is in flight, and every later call of `next` is
      turned away without entering anything. */
  lemma LateCallsRejected(hooks: seq<string>, events: seq<Event>, t: Stack, k: nat)
    requires Reaches(Start(hooks), events, t) && k < |t.levels| && t.levels[k].phase.Ended?
    ensures t.levels[k].tracker.inFlight == 0
    ensures var t' := Step(t, CallNext(k));
            && t'.runs == t.runs && t'.command == t.command
            && t'.levels[k].phase == t.levels[k].phase
            && t'.levels[k].tracker.violation.Some?
            && forall j: nat :: j < |t.levels| && j != k ==> t'.levels[j] == t.levels[j]
  {
    StartInv(hooks);
    RunInv(Start(hooks), events, t);
    assert PhaseInv(t.levels[k]);
  }

  /** A result once returned stays what it was. */
  lemma ResultIsFinal(s: Stack, e: Event, k: nat)
    requires Inv(s) && Enabled(s, e) && k <= |s.levels| && HasResult(s, k)
    ensures HasResult(Step(s, e), k) && ResultAt(Step(s, e), k) == ResultAt(s, k)
  {
    StartedBelow(s, k);
    if e.CallNext? {
      assert LinkInv(s, e.k) && PhaseInv(s.levels[e.k]);
      assert e.k + 1 == k ==> !Admits(s.levels[e.k].tracker);
      if k == 0 { assert StartsAt(s, 0) == 1; }
    }
  }

  /** The one way a call of `next` gets through after the wrapper's handler is over:
      the factory itself failed, so that its tracker was never closed, and `next` was
      not called before. */
  lemma LateCallAdmittedIff(hooks: seq<string>, events: seq<Event>, t: Stack, k: nat)
    requires Reaches(Start(hooks), events, t) && k < |t.levels| && HasResult(t, k)
    ensures StartsAt(Step(t, CallNext(k)), k + 1) > StartsAt(t, k + 1)
            <==> t.levels[k].phase.Refused? && !t.levels[k].tracker.called
  {
    StartInv(hooks);
    RunInv(Start(hooks), events, t);
    assert PhaseInv(t.levels[k]) && LinkInv(t, k);
  }

  /** A run in which the command starts after the whole stack has returned an error:
      the factory of the only wrapper leaks `next` and then panics. */
  lemma LeakedNextRuns(hook: string)
    ensures var s := Start([hook]);
            var refused := Step(s, FactoryReturns(0, false));
            && HasResult(refused, 0) && ResultAt(refused, 0).Some? && refused.command.NotRun?
            && Step(refused, CallNext(0)).command.Running?
  {}

  // ----------------------------------------------------------- nothing blocks

  lemma {:induction false} ReachesOn(s: Stack, events: seq<Event>, t: Stack, more: seq<Event>, u: Stack)
    requires Reaches(s, events, t) && Reaches(t, more, u)
    ensures Reaches(s, events + more, u)
    decreases |events|
  {
    hide Step, Enabled;
    if events == [] {
      assert events + more == more;
    } else {
      ReachesOn(Step(s, events[0]), events[1..], t, more, u);
      assert (events + more)[1..] == events[1..] + more;
    }
  }

  /** The step that brings the handler at `k` on, when nothing below is in its way. */
  function NextOf(s: Stack, k: nat): Event
    requires k <= |s.levels|
  {
    if k == |s.levels| then CommandReturns(None)
    else match s.levels[k].phase
      case Building => FactoryReturns(k, true)
      case Handling => HandlerReturns(k, None)
      case Returned(_) => Close(k)
      case _ => if s.levels[k].tracker.inFlight > 0 then NextReturns(k) else End(k, None, false)
  }

  /** How many such steps the handler is from its end. */
  function StepsLeft(s: Stack, k: nat): nat
    requires k <= |s.levels|
  {
    if HasResult(s, k) then 0 else if k == |s.levels| then 1
    else match s.levels[k].phase
      case Building => 5
      case Handling => 4
      case Returned(_) => 3
      case _ => if s.levels[k].tracker.inFlight > 0 then 2 else 1
  }

  lemma OneOn(s: Stack, k: nat)
    requires Inv(s) && k <= |s.levels| && StartsAt(s, k) == 1 && !HasResult(s, k)
    requires k < |s.levels| && s.levels[k].phase.Waiting? && s.levels[k].tracker.inFlight > 0 ==> HasResult(s, k + 1)
    ensures Enabled(s, NextOf(s, k))
    ensures var t := Step(s, NextOf(s, k));
            && |t.levels| == |s.levels| && StepsLeft(t, k) < StepsLeft(s, k) && StartsAt(t, k) == 1
            && forall j :: 0 <= j < k ==> t.levels[j] == s.levels[j]
  {
    if k < |s.levels| { assert PhaseInv(s.levels[k]); }
    hide LinkInv;
  }

  /** However the threads got there, an entered handler can be brought to its end without
      touching the ones above it: `closeAndWait` waits for nothing that cannot finish. */
  lemma {:induction false} NeverStuck(s: Stack, k: nat) returns (events: seq<Event>, t: Stack)
    requires Inv(s) && k <= |s.levels| && StartsAt(s, k) == 1
    ensures Reaches(s, events, t) && |t.levels| == |s.levels| && HasResult(t, k)
    ensures forall j :: 0 <= j < k ==> t.levels[j] == s.levels[j]
    decreases |s.levels| - k, StepsLeft(s, k)
  {
    hide Step, Enabled, LinkInv, PhaseInv, NextOf;
    if HasResult(s, k) { return [], s; }
    var before, u := [], s;
    if k < |s.levels| && s.levels[k].phase.Waiting? && s.levels[k].tracker.inFlight > 0 {
      BelowEntered(s, k);
      before, u := NeverStuck(s, k + 1);
      RunInv(s, before, u);
    }
    OneOn(u, k);
    StepInv(u, NextOf(u, k));
    var rest;
    rest, t := NeverStuck(Step(u, NextOf(u, k)), k);
    var on := [NextOf(u, k)] + rest;
    assert on[1..] == rest;
    ReachesOn(s, before, u, on, t);
    events := before + on;
  }

  lemma BelowEntered(s: Stack, k: nat)
    requires Inv(s) && k < |s.levels| && s.levels[k].tracker.inFlight > 0
    ensures StartsAt(s, k + 1) == 1
  {
    assert PhaseInv(s.levels[k]) && LinkInv(s, k);
  }

  /** Every reachable state has a continuation in which the whole stack returns. */
  lemma EveryRunCanEnd(hooks: seq<string>, events: seq<Event>, t: Stack) returns (more: seq<Event>, u: Stack)
    requires Reaches(Start(hooks), events, t)
    ensures Reaches(t, more, u) && HasResult(u, 0)
  {
    StartInv(hooks);
    RunInv(Start(hooks), events, t);
    more, u := NeverStuck(t, 0);
  }

  /** The handler at `k` was entered and has done nothing yet, and what is below it waits. */
  predicate JustEntered(s: Stack, k: nat) {
    && k <= |s.levels|
    && (if k == |s.levels| then s.command.Running? else
          && s.levels[k].tracker == NewTracker(s.levels[k].tracker.hook) && s.levels[k].phase.Building?
          && s.command.NotRun?)
    && forall j :: k < j < |s.levels| ==> s.levels[j].phase.Idle?
  }

  /** The wrapper takes its `next`, and calls it. */
  lemma Descend(s: Stack, k: nat)
    requires k < |s.levels| && JustEntered(s, k)
    ensures Enabled(s, FactoryReturns(k, true)) && Enabled(Step(s, FactoryReturns(k, true)), CallNext(k))
    ensures var u := Step(Step(s, FactoryReturns(k, true)), CallNext(k));
            && |u.levels| == |s.levels| && JustEntered(u, k + 1)
            && u.levels[k].phase.Handling?
            && u.levels[k].tracker == Tracker(s.levels[k].tracker.hook, false, true, 1, [], None)
            && forall j :: 0 <= j < k ==> u.levels[j] == s.levels[j]
  {}

  /** Its call of `next` returns nil, and so does the wrapper. */
  lemma Ascend(s: Stack, k: nat)
    requires k < |s.levels| && HasResult(s, k + 1) && ResultAt(s, k + 1).None?
    requires s.levels[k].phase.Handling?
    requires s.levels[k].tracker == Tracker(s.levels[k].tracker.hook, false, true, 1, [], None)
    ensures exists t :: Reaches(s, [NextReturns(k), HandlerReturns(k, None), Close(k), End(k, None, false)], t)
                        && |t.levels| == |s.levels| && HasResult(t, k) && ResultAt(t, k).None?
                        && t.command == s.command && forall j :: 0 <= j < k ==> t.levels[j] == s.levels[j]
  {
    var a := Step(s, NextReturns(k));
    var b := Step(a, HandlerReturns(k, None));
    var c := Step(b, Close(k));
    var d := Step(c, End(k, None, false));
    var up := [NextReturns(k), HandlerReturns(k, None), Close(k), End(k, None, false)];
    hide Step;
    assert Reaches(d, up[4..], d);
    assert up[3..][1..] == up[4..] && Reaches(c, up[3..], d);
    assert up[2..][1..] == up[3..] && Reaches(b, up[2..], d);
    assert up[1..][1..] == up[2..] && Reaches(a, up[1..], d);
    assert Reaches(s, up, d);
  }

  lemma {:induction false} CanSucceedFrom(s: Stack, k: nat) returns (events: seq<Event>, t: Stack)
    requires JustEntered(s, k)
    ensures Reaches(s, events, t) && |t.levels| == |s.levels| && HasResult(t, k) && ResultAt(t, k).None?
    ensures t.command == Finished(None) && forall j :: 0 <= j < k ==> t.levels[j] == s.levels[j]
    decreases |s.levels| - k
  {
    if k == |s.levels| {
      events, t := [CommandReturns(None)], Step(s, CommandReturns(None));
      assert events[1..] == [];
    } else {
      hide Step, Enabled, JustEntered;
      Descend(s, k);
      var down := [FactoryReturns(k, true), CallNext(k)];
      var v := Step(s, FactoryReturns(k, true));
      var u := Step(v, CallNext(k));
      assert down[1..][1..] == [] && Reaches(v, down[1..], u);
      var inner, w := CanSucceedFrom(u, k + 1);
      ReachesOn(s, down, u, inner, w);
      Ascend(w, k);
      var up := [NextReturns(k), HandlerReturns(k, None), Close(k), End(k, None, false)];
      t :| Reaches(w, up, t) && |t.levels| == |w.levels| && HasResult(t, k) && ResultAt(t, k).None?
           && t.command == w.command && forall j :: 0 <= j < k ==> t.levels[j] == w.levels[j];
      ReachesOn(s, down + inner, w, up, t);
      events := down + inner + up;
    }
  }

  /** Every stack of wrappers has a run in which the command runs and all return nil. */
  lemma CanSucceed(hooks: seq<string>) returns (events: seq<Event>, t: Stack)
    ensures Reaches(Start(hooks), events, t) && HasResult(t, 0) && ResultAt(t, 0).None? && t.command == Finished(None)
  {
    events, t := CanSucceedFrom(Start(hooks), 0);
  }
}
