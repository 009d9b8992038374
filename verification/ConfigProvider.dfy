/** `CLIConfigProvider` over the cache: concurrent reads, refreshes and clears. */
module ConfigProvider {
  // The clock never goes back. A cache read yields what the path held when it was opened, as
  // the file cache guarantees.

  import opened Options

  /** A configuration of the server. */
  type Config = int

  /** What the cache file holds: a time stamp in milliseconds and a configuration. When the
      server gave the configuration is history that nothing reads. */
  datatype Entry = Entry(stamp: int, config: Config, servedAt: int)

  const NANOS_PER_MILLI := 1_000_000

  /** `time.Since(time.UnixMilli(stamp)) > ttl`, all in nanoseconds. */
  predicate Stale(entry: Entry, now: int, ttl: int) { now - entry.stamp * NANOS_PER_MILLI > ttl }

  datatype Answer = Cached(entry: Entry, at: int) | Fetched(reply: Option<Config>) | NoConfig

  datatype Getter =
    | Idle
    | Loaded(found: Option<Entry>)          // the cache was read
    | Fetching                              // asks the server
    | Storing(config: Config, servedAt: int) // about to stamp it
    | Stamped(entry: Entry)                 // about to rename the cache file
    | Done(answer: Answer)
    | Crashed

  /** A configuration the server returned, and when; an entry, and when it was stamped. */
  datatype Served = Served(config: Config, at: int)
  datatype Kept = Kept(entry: Entry, at: int)

  datatype System = System(ttl: int, now: int, cache: Option<Entry>, getters: seq<Getter>, served: set<Served>,
                           kept: set<Kept>)

  datatype Action =
    | Load                                  // reads the cache
    | Decide                                // looks at the clock
    | Serve(config: Option<Config>)         // the server answers, maybe with nothing
    | ServerFails
    | Stamp
    | Publish
    | StoreFails
    | Crash

  datatype Event = Tick(span: nat) | Clear | Act(g: nat, a: Action)

  predicate AtRest(g: Getter) { g.Idle? || g.Done? }

  predicate Enabled(s: System, e: Event) {
    match e
    case Act(g, a) =>
      g < |s.getters| &&
      (match a
       case Load => AtRest(s.getters[g])
       case Decide => s.getters[g].Loaded?
       case Serve(_) => s.getters[g].Fetching?
       case ServerFails => s.getters[g].Fetching?
       case Stamp => s.getters[g].Storing?
       case Publish => s.getters[g].Stamped?
       case StoreFails => s.getters[g].Stamped? || s.getters[g].Storing?
       case Crash => true)
    case _ => true
  }

  function Move(s: System, g: nat, to: Getter): System
    requires g < |s.getters|
  {
    s.(getters := s.getters[g := to])
  }

  function Step(s: System, e: Event): System
    requires Enabled(s, e)
  {
    match e
    case Tick(span) => s.(now := s.now + span)
    case Clear => s.(cache := None)
    case Act(g, a) =>
      var ph := s.getters[g];
      match a
      case Load => Move(s, g, Loaded(s.cache))
      case Decide =>
        if ph.found.Some? && !Stale(ph.found.value, s.now, s.ttl) then Move(s, g, Done(Cached(ph.found.value, s.now)))
        else Move(s, g, Fetching)
      case Serve(config) =>
        if config.None? then Move(s, g, Done(Fetched(None)))
        else Move(s, g, Storing(config.value, s.now)).(served := s.served + {Served(config.value, s.now)})
      case ServerFails => Move(s, g, Done(NoConfig))
      case Stamp =>
        var entry := Entry(s.now / NANOS_PER_MILLI, ph.config, ph.servedAt);
        Move(s, g, Stamped(entry)).(kept := s.kept + {Kept(entry, s.now)})
      case Publish => Move(s, g, Done(Fetched(Some(ph.entry.config)))).(cache := Some(ph.entry))
      case StoreFails =>
        Move(s, g, Done(Fetched(Some(if ph.Stamped? then ph.entry.config else ph.config))))
      case Crash => Move(s, g, Crashed)
  }

  /** Nobody at work; what is cached was stored, and what was stored was served, before. */
  ghost predicate Initial(s: System) {
    && (forall g :: 0 <= g < |s.getters| ==> s.getters[g].Idle?)
    && (forall k :: k in s.kept ==> KeptOk(s, k))
    && (s.cache.Some? ==> IsKept(s.kept, s.cache.value))
  }

  ghost predicate Reaches(s: System, events: seq<Event>, t: System)
    decreases |events|
  {
    if events == [] then s == t
    else Enabled(s, events[0]) && Reaches(Step(s, events[0]), events[1..], t)
  }

  // --------------------------------------------------------------- invariant

  /** The server returned it at some time. */
  ghost predicate IsServed(served: set<Served>, config: Config) {
    exists v :: v in served && v.config == config
  }

  /** The entry was stamped, with the clock in milliseconds, after the server had given it. */
  predicate KeptOk(s: System, k: Kept) {
    && Served(k.entry.config, k.entry.servedAt) in s.served
    && k.entry.servedAt <= k.at <= s.now && k.entry.stamp == k.at / NANOS_PER_MILLI
  }

  ghost predicate IsKept(kept: set<Kept>, entry: Entry) {
    exists k :: k in kept && k.entry == entry
  }

  ghost predicate AnswerOk(s: System, answer: Answer) {
    match answer
    case Cached(entry, at) =>
      at <= s.now && !Stale(entry, at, s.ttl) && exists k :: k in s.kept && k.entry == entry && k.at <= at
    case Fetched(reply) => reply.Some? ==> IsServed(s.served, reply.value)
    case NoConfig => true
  }

  ghost predicate GetterOk(s: System, g: Getter) {
    match g
    case Loaded(found) => found.Some? ==> IsKept(s.kept, found.value)
    case Storing(config, servedAt) => Served(config, servedAt) in s.served && servedAt <= s.now
    case Stamped(entry) => IsKept(s.kept, entry)
    case Done(answer) => AnswerOk(s, answer)
    case _ => true
  }

  ghost predicate Inv(s: System) {
    && (forall k :: k in s.kept ==> KeptOk(s, k))
    && (s.cache.Some? ==> IsKept(s.kept, s.cache.value))
    && forall g :: 0 <= g < |s.getters| ==> GetterOk(s, s.getters[g])
  }

  /** Time passes, and nothing known is forgotten. */
  predicate Later(s: System, t: System) {
    s.now <= t.now && s.served <= t.served && s.kept <= t.kept && s.ttl == t.ttl
  }

  lemma StaysOk(s: System, t: System, g: Getter)
    requires GetterOk(s, g) && Later(s, t)
    ensures GetterOk(t, g)
  {
    match g
    case Loaded(found) => if found.Some? { KeptLater(s, t, found.value); }
    case Stamped(entry) => KeptLater(s, t, entry);
    case Done(answer) =>
      if answer.Fetched? && answer.reply.Some? {
        var v :| v in s.served && v.config == answer.reply.value;
        assert v in t.served;
      }
    case _ =>
  }

  lemma KeptLater(s: System, t: System, entry: Entry)
    requires IsKept(s.kept, entry) && Later(s, t)
    ensures IsKept(t.kept, entry)
  {
    var k :| k in s.kept && k.entry == entry;
    assert k in t.kept;
  }

  /** Where a getter goes is in order. */
  lemma MovedOk(s: System, g: nat, a: Action)
    requires Inv(s) && Enabled(s, Act(g, a))
    ensures var t := Step(s, Act(g, a)); GetterOk(t, t.getters[g])
  {
    var t, ph := Step(s, Act(g, a)), s.getters[g];
    assert GetterOk(s, ph);
    match a
    case Decide =>
      if ph.found.Some? {
        var k :| k in s.kept && k.entry == ph.found.value;
        assert k in t.kept && KeptOk(s, k);
      }
    case Serve(config) =>
      if config.Some? { assert Served(config.value, s.now) in t.served; }
    case Stamp =>
      assert Kept(t.getters[g].entry, s.now) in t.kept;
    case Publish => EntryServed(s, ph.entry);
    case StoreFails =>
      if ph.Stamped? {
        EntryServed(s, ph.entry);
      } else {
        assert Served(ph.config, ph.servedAt) in t.served;
      }
    case _ =>
  }

  lemma EntryServed(s: System, entry: Entry)
    requires Inv(s) && IsKept(s.kept, entry)
    ensures IsServed(s.served, entry.config)
  {
    var k :| k in s.kept && k.entry == entry;
    assert KeptOk(s, k);
    assert Served(entry.config, entry.servedAt) in s.served;
  }

  lemma StepInv(s: System, e: Event)
    requires Inv(s) && Enabled(s, e)
    ensures Inv(Step(s, e)) && Later(s, Step(s, e))
  {
    var t := Step(s, e);
    if e.Act? {
      assert GetterOk(s, s.getters[e.g]);
      MovedOk(s, e.g, e.a);
    }
    forall k | k in t.kept ensures KeptOk(t, k) {
      if k in s.kept { assert KeptOk(s, k); }
    }
    hide GetterOk;
    if t.cache.Some? && t.cache == s.cache { KeptLater(s, t, s.cache.value); }
    forall g | 0 <= g < |t.getters| ensures GetterOk(t, t.getters[g]) {
      if t.getters[g] == s.getters[g] { StaysOk(s, t, s.getters[g]); }
    }
  }

  lemma {:induction false} RunInv(s: System, events: seq<Event>, t: System)
    requires Inv(s) && Reaches(s, events, t)
    ensures Inv(t) && Later(s, t)
    decreases |events|
  {
    hide Inv;
    if events != [] {
      StepInv(s, events[0]);
      RunInv(Step(s, events[0]), events[1..], t);
    }
  }

  // ---------------------------------------------------------------- theorems

  /** An answer is a configuration the server returned; a cached one was stored, after the
      server had returned it, no longer than the TTL before the answer. */
  lemma AnswersAreServed(s: System, events: seq<Event>, t: System, g: nat)
    requires Initial(s) && Reaches(s, events, t) && g < |t.getters| && t.getters[g].Done?
    ensures match t.getters[g].answer
            case Cached(entry, at) =>
              && Served(entry.config, entry.servedAt) in t.served
              && exists k :: k in t.kept && k.entry == entry && entry.servedAt <= k.at <= at <= k.at + s.ttl
            case Fetched(reply) => reply.Some? ==> exists v :: v in t.served && v.config == reply.value
            case NoConfig => true
  {
    RunInv(s, events, t);
    assert GetterOk(t, t.getters[g]);
    match t.getters[g].answer
    case Cached(entry, at) =>
      var k :| k in t.kept && k.entry == entry && k.at <= at;
      assert KeptOk(t, k);
      assert entry.servedAt <= k.at <= at <= k.at + s.ttl;
    case _ =>
  }

  lemma Prepend(s: System, e: Event, events: seq<Event>, t: System)
    requires Enabled(s, e) && Reaches(Step(s, e), events, t)
    ensures Reaches(s, [e] + events, t)
  {
    assert ([e] + events)[1..] == events;
  }

  /** The first getter stamps what it holds, and the second answers from the cache. */
  lemma StampThenRead(s: System) returns (events: seq<Event>, t: System)
    requires |s.getters| == 2 && s.getters[0].Storing? && s.getters[1].Idle? && s.ttl >= NANOS_PER_MILLI && s.now >= 0
    ensures Reaches(s, events, t) && |t.getters| == 2
    ensures t.served == s.served && t.now == s.now
    ensures var stored := Entry(s.now / NANOS_PER_MILLI, s.getters[0].config, s.getters[0].servedAt);
            t.getters[1] == Done(Cached(stored, s.now))
  {
    var s1 := Step(s, Act(0, Stamp));
    var s2 := Step(s1, Act(0, Publish));
    var s3 := Step(s2, Act(1, Load));
    t := Step(s3, Act(1, Decide));
    Prepend(s3, Act(1, Decide), [], t);
    Prepend(s2, Act(1, Load), [Act(1, Decide)] + [], t);
    Prepend(s1, Act(0, Publish), [Act(1, Load)] + ([Act(1, Decide)] + []), t);
    Prepend(s, Act(0, Stamp), [Act(0, Publish)] + ([Act(1, Load)] + ([Act(1, Decide)] + [])), t);
    events := [Act(0, Stamp)] + ([Act(0, Publish)] + ([Act(1, Load)] + ([Act(1, Decide)] + [])));
  }

  /** Whenever the entry is an answer from now on, that is within the TTL of the reply. */
  ghost predicate FreshFromReply(s: System, entry: Entry) {
    forall events, t, g: nat :: Reaches(s, events, t) && AnsweredBy(t, g, entry) ==>
                             t.getters[g].answer.at <= entry.servedAt + s.ttl
  }

  predicate AnsweredBy(s: System, g: nat, entry: Entry) {
    g < |s.getters| && s.getters[g].Done? && s.getters[g].answer.Cached? && s.getters[g].answer.entry == entry
  }

  /** What the TTL bounds is the age since storing. It bounds the age since the server's
      reply, in every continuation of a run in which the entry can still be an answer,
      exactly if the entry was stamped in the very millisecond of the reply. */
  lemma FreshFromReplyIff(s: System, events: seq<Event>, t: System, g: nat)
    requires Initial(s) && Reaches(s, events, t)
    requires t.cache.Some? && !Stale(t.cache.value, t.now, t.ttl)
    requires g < |t.getters| && AtRest(t.getters[g])
    ensures var entry := t.cache.value;
            FreshFromReply(t, entry) <==> entry.stamp == entry.servedAt / NANOS_PER_MILLI
  {
    var entry := t.cache.value;
    RunInv(s, events, t);
    var k :| k in t.kept && k.entry == entry;
    assert KeptOk(t, k);
    MillisMonotone(entry.servedAt, k.at);
    if entry.stamp == entry.servedAt / NANOS_PER_MILLI {
      forall later, u, h: nat | Reaches(t, later, u) && AnsweredBy(u, h, entry)
        ensures u.getters[h].answer.at <= entry.servedAt + t.ttl
      {
        RunInv(t, later, u);
        assert GetterOk(u, u.getters[h]);
      }
    } else {
      var later, u := AnsweredLast(t, g);
      assert AnsweredBy(u, g, entry);
    }
  }

  lemma MillisMonotone(a: int, b: int)
    requires a <= b
    ensures a / NANOS_PER_MILLI <= b / NANOS_PER_MILLI
    ensures b / NANOS_PER_MILLI > a / NANOS_PER_MILLI <==> b / NANOS_PER_MILLI * NANOS_PER_MILLI > a
  {}

  /** A getter reads the entry at the last moment at which it is not stale. */
  lemma AnsweredLast(s: System, g: nat) returns (events: seq<Event>, t: System)
    requires s.cache.Some? && !Stale(s.cache.value, s.now, s.ttl)
    requires g < |s.getters| && AtRest(s.getters[g])
    ensures Reaches(s, events, t) && |t.getters| == |s.getters|
    ensures t.getters[g] == Done(Cached(s.cache.value, s.cache.value.stamp * NANOS_PER_MILLI + s.ttl))
  {
    var wait := Tick(s.cache.value.stamp * NANOS_PER_MILLI + s.ttl - s.now);
    var s1 := Step(s, wait);
    var s2 := Step(s1, Act(g, Load));
    t := Step(s2, Act(g, Decide));
    Prepend(s2, Act(g, Decide), [], t);
    Prepend(s1, Act(g, Load), [Act(g, Decide)] + [], t);
    events := [wait] + ([Act(g, Load)] + ([Act(g, Decide)] + []));
    Prepend(s, wait, [Act(g, Load)] + ([Act(g, Decide)] + []), t);
  }

  /** A slow `Get` can stamp an answer long after the server gave it. */
  lemma AgeCountsFromStoring(s: System, delay: nat, config: Config) returns (events: seq<Event>, t: System)
    requires Initial(s) && s.cache.None?
    requires |s.getters| == 2 && s.ttl >= NANOS_PER_MILLI && s.now >= 0
    ensures Reaches(s, events, t) && |t.getters| == 2 && t.now == s.now + delay
    ensures t.getters[1] == Done(Cached(Entry(t.now / NANOS_PER_MILLI, config, s.now), t.now))
  {
    var s1 := Step(s, Act(0, Load));
    var s2 := Step(s1, Act(0, Decide));
    var s3 := Step(s2, Act(0, Serve(Some(config))));
    var s4 := Step(s3, Tick(delay));
    var later;
    later, t := StampThenRead(s4);
    hide Reaches;
    Prepend(s3, Tick(delay), later, t);
    Prepend(s2, Act(0, Serve(Some(config))), [Tick(delay)] + later, t);
    events := [Act(0, Serve(Some(config)))] + ([Tick(delay)] + later);
    Prepend(s1, Act(0, Decide), events, t);
    events := [Act(0, Decide)] + events;
    Prepend(s, Act(0, Load), events, t);
    events := [Act(0, Load)] + events;
  }
}
