/** Processes that share one profile's credential file, its lock file and an OAuth server. */
module TokenRefresh {
  // `GetToken`, `TryRefresh` and `ClearTokenIfCurrent` in any interleaving, with crashes at any
  // step. A lock is never taken for stale, saving succeeds, the server never issues an access
  // token twice, and nobody logs in or out meanwhile.

  datatype Credential = Credential(access: string, refresh: string, client: string, expiresAt: int)

  /** The credential file. `Save` truncates it and then writes it; in between it reads
      as if there were none. */
  datatype File = Absent | Torn | Holds(cred: Credential)

  datatype Loaded = Nothing | Found(cred: Credential)

  function Load(file: File): Loaded {
    if file.Holds? then Found(file.cred) else Nothing
  }

  datatype Request = AskToken | AskRefresh | AskClear(expected: string)

  datatype Op = GetToken | TryRefresh(snapshot: Credential) | ClearIf(expected: string)

  datatype Outcome = Token(text: string) | Refreshed | Cleared(done: bool) | Failed

  datatype Phase =
    | Idle
    | FirstLoad(request: Request)                  // reads the file without the lock
    | Queued(op: Op)                               // waits for the lock file
    | Locked(op: Op)                               // created the lock file
    | Refreshing(op: Op, cred: Credential)         // loaded it under the lock, about to exchange
    | Exchanged(op: Op, renewed: Credential)         // the server answered
    | Saving(op: Op, renewed: Credential)            // truncated the file
    | Clearing(expected: string)                   // about to remove the file
    | Releasing(outcome: Outcome)                  // about to remove the lock file
    | Done(outcome: Outcome)
    | Crashed(held: bool, saving: bool)

  /** What the server answers a refresh grant with. */
  datatype Reply = Reply(access: string, refresh: string, expiresAt: int)

  /** One successful refresh grant: the credential presented, the answer, and what is made of it. */
  datatype Exchange = Exchange(used: Credential, reply: Reply, renewed: Credential)

  datatype Lock = Free | HeldBy(owner: nat)

  /** The credential the run started from and every successful exchange since. */
  datatype History = History(initial: Credential, host: string, exchanges: seq<Exchange>, cleared: bool)

  datatype System = System(file: File, lock: Lock, clock: int, procs: seq<Phase>, past: History)

  datatype Action =
    | Call(request: Request)
    | ReadFile
    | Acquire
    | GiveUp
    | ReadLocked
    | ExchangeFails
    | ExchangeSucceeds(reply: Reply)
    | Truncate
    | Write
    | RemoveFile
    | Release
    | Crash

  datatype Event = Tick(span: nat) | Act(p: nat, a: Action)

  predicate Expired(c: Credential, now: int) { c.expiresAt > 0 && now > c.expiresAt }

  /** `RefreshToken` has what it needs. */
  predicate Refreshable(c: Credential, host: string) {
    c.refresh != "" && c.client != "" && host != ""
  }

  /** `tokenDataChanged`: compares all four fields. */
  predicate Changed(a: Credential, b: Credential) {
    a.access != b.access || a.refresh != b.refresh || a.client != b.client || a.expiresAt != b.expiresAt
  }

  predicate InLock(ph: Phase) {
    || ph.Locked? || ph.Refreshing? || ph.Exchanged? || ph.Saving? || ph.Clearing? || ph.Releasing?
    || (ph.Crashed? && ph.held)
  }

  /** Every access token the server is known to have issued. */
  function Issued(h: History): seq<string> {
    [h.initial.access] + seq(|h.exchanges|, i requires 0 <= i < |h.exchanges| => h.exchanges[i].renewed.access)
  }

  // ------------------------------------------------------------------- steps

  /** After the first, unlocked load. */
  function AfterFirstLoad(request: Request, loaded: Loaded, now: int): Phase {
    match request
    case AskToken =>
      if loaded.Nothing? then Done(Token(""))
      else if Expired(loaded.cred, now) then Queued(GetToken)
      else Done(Token(loaded.cred.access))
    case AskRefresh => if loaded.Nothing? then Done(Failed) else Queued(TryRefresh(loaded.cred))
    case AskClear(expected) => if expected == "" then Done(Cleared(false)) else Queued(ClearIf(expected))
  }

  /** After the load under the lock. */
  function AfterLockedLoad(op: Op, loaded: Loaded, now: int, host: string): Phase {
    match op
    case GetToken =>
      if loaded.Nothing? then Releasing(Token(""))
      else if !Expired(loaded.cred, now) then Releasing(Token(loaded.cred.access))
      else if !Refreshable(loaded.cred, host) then Releasing(Token(""))
      else Refreshing(op, loaded.cred)
    case TryRefresh(snapshot) =>
      if loaded.Nothing? then Releasing(Failed)
      else if loaded.cred.access != "" && Changed(snapshot, loaded.cred) then Releasing(Refreshed)
      else if !Refreshable(loaded.cred, host) then Releasing(Failed)
      else Refreshing(op, loaded.cred)
    case ClearIf(expected) =>
      if loaded.Nothing? || loaded.cred.access != expected then Releasing(Cleared(false)) else Clearing(expected)
  }

  /** The new credential: a missing refresh token keeps the old one. */
  function Successor(used: Credential, reply: Reply): Credential {
    Credential(reply.access, if reply.refresh == "" then used.refresh else reply.refresh, used.client, reply.expiresAt)
  }

  function OutcomeOf(op: Op, renewed: Credential): Outcome {
    if op.GetToken? then Token(renewed.access) else Refreshed
  }

  predicate Enabled(s: System, e: Event) {
    match e
    case Tick(span) => true
    case Act(p, a) => p < |s.procs| && ActionEnabled(s, s.procs[p], a)
  }

  predicate ActionEnabled(s: System, ph: Phase, a: Action) {
    match a
    case Call(request) => ph.Idle? || ph.Done?
    case ReadFile => ph.FirstLoad?
    case Acquire => ph.Queued? && s.lock.Free?
    case GiveUp => ph.Queued?
    case ReadLocked => ph.Locked?
    case ExchangeFails => ph.Refreshing?
    case ExchangeSucceeds(reply) => ph.Refreshing? && reply.access != "" && reply.access !in Issued(s.past)
    case Truncate => ph.Exchanged?
    case Write => ph.Saving?
    case RemoveFile => ph.Clearing?
    case Release => ph.Releasing?
    case Crash => !ph.Crashed?
  }

  function Extend(h: History, used: Credential, reply: Reply, renewed: Credential): History {
    h.(exchanges := h.exchanges + [Exchange(used, reply, renewed)])
  }

  function Move(s: System, p: nat, ph: Phase): System
    requires p < |s.procs|
  {
    s.(procs := s.procs[p := ph])
  }

  function Step(s: System, e: Event): System
    requires Enabled(s, e)
  {
    match e
    case Tick(span) => s.(clock := s.clock + span)
    case Act(p, a) =>
      var ph := s.procs[p];
      match a
      case Call(request) => Move(s, p, FirstLoad(request))
      case ReadFile => Move(s, p, AfterFirstLoad(ph.request, Load(s.file), s.clock))
      case Acquire => Move(s, p, Locked(ph.op)).(lock := HeldBy(p))
      case GiveUp => Move(s, p, Done(Failed))
      case ReadLocked => Move(s, p, AfterLockedLoad(ph.op, Load(s.file), s.clock, s.past.host))
      case ExchangeFails => Move(s, p, Releasing(Failed))
      case ExchangeSucceeds(reply) =>
        var renewed := Successor(ph.cred, reply);
        Move(s, p, Exchanged(ph.op, renewed)).(past := Extend(s.past, ph.cred, reply, renewed))
      case Truncate => Move(s, p, Saving(ph.op, ph.renewed)).(file := Torn)
      case Write => Move(s, p, Releasing(OutcomeOf(ph.op, ph.renewed))).(file := Holds(ph.renewed))
      case RemoveFile => Move(s, p, Releasing(Cleared(true))).(file := Absent, past := s.past.(cleared := true))
      case Release => Move(s, p, Done(ph.outcome)).(lock := if s.lock == HeldBy(p) then Free else s.lock)
      case Crash => Move(s, p, Crashed(InLock(ph), MidSave(ph)))
  }

  /** The file is truncated and not yet written. */
  predicate MidSave(ph: Phase) { ph.Saving? || (ph.Crashed? && ph.saving) }

  /** Any number of processes at rest; the file holds the initial credential or is absent. */
  predicate Initial(s: System) {
    && s.file == (if s.past.cleared then Absent else Holds(s.past.initial))
    && s.lock.Free? && s.past.exchanges == []
    && forall p :: 0 <= p < |s.procs| ==> s.procs[p].Idle?
  }

  ghost predicate Reaches(s: System, events: seq<Event>, t: System)
    decreases |events|
  {
    if events == [] then s == t
    else Enabled(s, events[0]) && Reaches(Step(s, events[0]), events[1..], t)
  }

  // --------------------------------------------------------------- invariant

  /** The newest credential. */
  function Current(h: History): Credential {
    if h.exchanges == [] then h.initial else h.exchanges[|h.exchanges| - 1].renewed
  }

  /** Each exchange presents what the one before it obtained. */
  predicate Chained(h: History) {
    forall i :: 0 <= i < |h.exchanges| ==> h.exchanges[i].used == Before(h, i)
  }

  /** The credential that exchange `i` found. */
  function Before(h: History, i: nat): Credential
    requires i < |h.exchanges|
  {
    if i == 0 then h.initial else h.exchanges[i - 1].renewed
  }

  /** What is made of an answer: its token and its expiry, for the same client, and its refresh
      token if it carries one, else the one presented. */
  predicate Keeps(e: Exchange) {
    && e.renewed.access == e.reply.access && e.renewed.expiresAt == e.reply.expiresAt
    && e.renewed.client == e.used.client
    && (e.reply.refresh != "" ==> e.renewed.refresh == e.reply.refresh)
    && (e.reply.refresh == "" ==> e.renewed.refresh == e.used.refresh)
  }

  predicate Distinct(texts: seq<string>) {
    forall i, j :: 0 <= i < j < |texts| ==> texts[i] != texts[j]
  }

  predicate Lineage(h: History) {
    && Chained(h)
    && Distinct(Issued(h))
    && (forall i :: 0 <= i < |h.exchanges| ==>
          Refreshable(h.exchanges[i].used, h.host) && Refreshable(h.exchanges[i].renewed, h.host)
          && h.exchanges[i].renewed.client == h.initial.client && Keeps(h.exchanges[i]))
  }

  predicate Settled(file: File, h: History) {
    file == if h.cleared then Absent else Holds(Current(h))
  }

  /** What a process knows in each phase. */
  predicate PhaseInv(file: File, h: History, ph: Phase) {
    match ph
    case Queued(op) => Known(h, op)
    case Locked(op) => Settled(file, h) && Known(h, op)
    case Refreshing(op, cred) =>
      file == Holds(cred) && Settled(file, h) && Refreshable(cred, h.host) && Known(h, op) && !op.ClearIf?
    case Exchanged(op, renewed) =>
      !h.cleared && file.Holds? && renewed == Current(h) && h.exchanges != [] && !op.ClearIf? && Superseded(h, op)
    case Saving(op, renewed) =>
      !h.cleared && renewed == Current(h) && h.exchanges != [] && !op.ClearIf? && Superseded(h, op)
    case Clearing(expected) => Settled(file, h) && !h.cleared && Current(h).access == expected
    case Releasing(outcome) => Settled(file, h) && Handed(h, outcome)
    case Done(outcome) => Handed(h, outcome)
    case _ => true
  }

  /** A token handed out is empty or was issued by the server. */
  predicate Handed(h: History, outcome: Outcome) {
    outcome.Token? ==> outcome.text == "" || outcome.text in Issued(h)
  }

  /** A snapshot was once stored. */
  predicate Known(h: History, op: Op) {
    op.TryRefresh? ==> op.snapshot.access in Issued(h)
  }

  /** A snapshot is not the newest credential any more. */
  predicate Superseded(h: History, op: Op) {
    op.TryRefresh? ==> op.snapshot.access != Current(h).access
  }

  predicate LockInv(s: System, p: nat)
    requires p < |s.procs|
  {
    InLock(s.procs[p]) <==> s.lock == HeldBy(p)
  }

  predicate Inv(s: System) {
    && Lineage(s.past)
    && (forall p :: 0 <= p < |s.procs| ==> LockInv(s, p))
    && (forall p :: 0 <= p < |s.procs| ==> PhaseInv(s.file, s.past, s.procs[p]))
    && (s.lock.Free? ==> Settled(s.file, s.past))
    && FileInv(s)
  }

  predicate FileInv(s: System) {
    && (s.file.Holds? ==> s.file.cred.access in Issued(s.past))
    && (s.file.Absent? <==> s.past.cleared)
    && (s.file.Torn? <==> exists p :: 0 <= p < |s.procs| && MidSave(s.procs[p]))
    && (forall p :: 0 <= p < |s.procs| && MidSave(s.procs[p]) ==> InLock(s.procs[p]))
  }

  lemma InitialInv(s: System)
    requires Initial(s)
    ensures Inv(s)
  {
    assert Issued(s.past)[0] == s.past.initial.access;
  }

  /** A process outside the lock relies only on the history. */
  lemma OutsideLock(file: File, h: History, file': File, h': History, ph: Phase)
    requires PhaseInv(file, h, ph) && !InLock(ph)
    requires forall a :: a in Issued(h) ==> a in Issued(h')
    ensures PhaseInv(file', h', ph)
  {}

  /** A step of the process that holds the lock, or takes or gives it up. */
  lemma LockStepInv(s: System, t: System, p: nat)
    requires Inv(s) && p < |s.procs| == |t.procs|
    requires forall q :: 0 <= q < |s.procs| && q != p ==> t.procs[q] == s.procs[q]
    requires s.lock == HeldBy(p) || s.lock.Free?
    requires t.lock == HeldBy(p) || t.lock.Free?
    requires t.lock == HeldBy(p) <==> InLock(t.procs[p])
    requires forall a :: a in Issued(s.past) ==> a in Issued(t.past)
    requires Lineage(t.past) && PhaseInv(t.file, t.past, t.procs[p])
    requires t.lock.Free? ==> Settled(t.file, t.past)
    requires t.file.Holds? ==> t.file.cred.access in Issued(t.past)
    requires t.file.Absent? <==> t.past.cleared
    requires t.file.Torn? <==> MidSave(t.procs[p])
    requires MidSave(t.procs[p]) ==> InLock(t.procs[p])
    ensures Inv(t)
  {
    forall q: nat | q < |t.procs| ensures LockInv(t, q) && PhaseInv(t.file, t.past, t.procs[q]) {
      if q != p {
        assert LockInv(s, q) && !MidSave(s.procs[q]);
        OutsideLock(s.file, s.past, t.file, t.past, s.procs[q]);
      }
    }
  }

  /** A step of a process that leaves the file, the lock and the history alone. */
  lemma LocalStepInv(s: System, p: nat, ph: Phase)
    requires Inv(s) && p < |s.procs|
    requires InLock(ph) == InLock(s.procs[p]) && PhaseInv(s.file, s.past, ph)
    requires MidSave(ph) == MidSave(s.procs[p])
    ensures Inv(Move(s, p, ph))
  {
    var t := Move(s, p, ph);
    forall q: nat | q < |t.procs| ensures LockInv(t, q) && PhaseInv(t.file, t.past, t.procs[q]) {
      assert LockInv(s, q) && PhaseInv(s.file, s.past, s.procs[q]);
    }
    if s.file.Torn? {
      var q :| 0 <= q < |s.procs| && MidSave(s.procs[q]);
      assert MidSave(t.procs[q]);
    }
  }

  lemma TickInv(s: System, span: nat)
    requires Inv(s)
    ensures Inv(Step(s, Tick(span)))
  {
    hide Lineage, Issued;
    assert forall p: nat :: p < |s.procs| ==> LockInv(Step(s, Tick(span)), p) == LockInv(s, p);
  }

  lemma StepInv(s: System, e: Event)
    requires Inv(s) && Enabled(s, e)
    ensures Inv(Step(s, e))
  {
    hide Inv, Step;
    match e
    case Tick(span) => TickInv(s, span);
    case Act(p, a) =>
      if a.ExchangeSucceeds? {
        ExchangeInv(s, p, a);
      } else if a.Acquire? || a.Release? {
        TakeOrGiveInv(s, p, a);
      } else if a.Truncate? || a.Write? || a.RemoveFile? {
        FileStepInv(s, p, a);
      } else if a.ReadFile? {
        ReadFileInv(s, p);
      } else if a.ReadLocked? {
        ReadLockedInv(s, p);
      } else {
        LocalActionInv(s, p, a);
      }
  }

  lemma LocalActionInv(s: System, p: nat, a: Action)
    requires Inv(s) && Enabled(s, Act(p, a)) && (a.Call? || a.GiveUp? || a.ExchangeFails? || a.Crash?)
    ensures Inv(Step(s, Act(p, a)))
  {
    hide Lineage, Issued;
    assert LockInv(s, p) && PhaseInv(s.file, s.past, s.procs[p]);
    LocalStepInv(s, p, Step(s, Act(p, a)).procs[p]);
  }

  lemma ReadFileInv(s: System, p: nat)
    requires Inv(s) && Enabled(s, Act(p, ReadFile))
    ensures Inv(Step(s, Act(p, ReadFile)))
  {
    hide Lineage, Issued;
    assert LockInv(s, p) && PhaseInv(s.file, s.past, s.procs[p]);
    LocalStepInv(s, p, AfterFirstLoad(s.procs[p].request, Load(s.file), s.clock));
  }

  lemma ReadLockedInv(s: System, p: nat)
    requires Inv(s) && Enabled(s, Act(p, ReadLocked))
    ensures Inv(Step(s, Act(p, ReadLocked)))
  {
    hide Lineage, Issued;
    assert LockInv(s, p) && PhaseInv(s.file, s.past, s.procs[p]);
    LocalStepInv(s, p, AfterLockedLoad(s.procs[p].op, Load(s.file), s.clock, s.past.host));
  }

  lemma TakeOrGiveInv(s: System, p: nat, a: Action)
    requires Inv(s) && Enabled(s, Act(p, a)) && (a.Acquire? || a.Release?)
    ensures Inv(Step(s, Act(p, a)))
  {
    hide Lineage, Issued;
    assert LockInv(s, p) && PhaseInv(s.file, s.past, s.procs[p]);
    LockStepInv(s, Step(s, Act(p, a)), p);
  }

  lemma FileStepInv(s: System, p: nat, a: Action)
    requires Inv(s) && Enabled(s, Act(p, a)) && (a.Truncate? || a.Write? || a.RemoveFile?)
    ensures Inv(Step(s, Act(p, a)))
  {
    hide Lineage, Issued, Current;
    assert LockInv(s, p) && PhaseInv(s.file, s.past, s.procs[p]);
    CurrentIssued(s.past);
    ClearingKeepsLineage(s.past);
    LockStepInv(s, Step(s, Act(p, a)), p);
  }

  lemma ClearingKeepsLineage(h: History)
    requires Lineage(h)
    ensures Lineage(h.(cleared := true)) && Issued(h.(cleared := true)) == Issued(h)
  {
    assert Issued(h.(cleared := true)) == Issued(h);
  }

  lemma CurrentIssued(h: History)
    ensures Current(h).access in Issued(h)
  {
    assert Issued(h)[|h.exchanges|] == Current(h).access;
  }

  lemma ExchangeInv(s: System, p: nat, a: Action)
    requires Inv(s) && Enabled(s, Act(p, a)) && a.ExchangeSucceeds?
    ensures Inv(Step(s, Act(p, a)))
  {
    var t := Step(s, Act(p, a));
    assert LockInv(s, p) && PhaseInv(s.file, s.past, s.procs[p]);
    assert Issued(t.past) == Issued(s.past) + [a.reply.access];
    LineageExtends(s.past, s.procs[p].cred, a.reply, t.procs[p].renewed);
    hide Lineage, Issued;
    LockStepInv(s, t, p);
  }

  lemma LineageExtends(h: History, used: Credential, reply: Reply, renewed: Credential)
    requires Lineage(h) && used == Current(h) && Refreshable(used, h.host)
    requires renewed.access !in Issued(h) && renewed.refresh != "" && Keeps(Exchange(used, reply, renewed))
    ensures Lineage(Extend(h, used, reply, renewed))
  {
    var h' := Extend(h, used, reply, renewed);
    assert Issued(h') == Issued(h) + [renewed.access];
    DistinctExtends(Issued(h), renewed.access);
    ChainExtends(h, used, reply, renewed);
    hide Issued, Distinct, Chained;
    if h.exchanges != [] {
      assert h.exchanges[|h.exchanges| - 1].renewed == used;
    }
  }

  lemma DistinctExtends(texts: seq<string>, text: string)
    requires Distinct(texts) && text !in texts
    ensures Distinct(texts + [text])
  {}

  lemma ChainExtends(h: History, used: Credential, reply: Reply, renewed: Credential)
    requires Chained(h) && used == Current(h)
    ensures Chained(Extend(h, used, reply, renewed))
  {
    var h' := Extend(h, used, reply, renewed);
    forall i | 0 <= i < |h'.exchanges| ensures h'.exchanges[i].used == Before(h', i) {
      if i < |h.exchanges| { assert h.exchanges[i].used == Before(h, i) == Before(h', i); }
    }
  }

  lemma {:induction false} RunInv(s: System, events: seq<Event>, t: System)
    requires Inv(s) && Reaches(s, events, t)
    ensures Inv(t) && t.past.initial == s.past.initial && t.past.host == s.past.host
    decreases |events|
  {
    if events != [] {
      StepInv(s, events[0]);
      RunInv(Step(s, events[0]), events[1..], t);
    }
  }

  // ---------------------------------------------------------------- theorems

  /** At most one process is between creating and removing the lock file. */
  lemma MutualExclusion(s: System, events: seq<Event>, t: System, p: nat, q: nat)
    requires Initial(s) && Reaches(s, events, t)
    requires p < |t.procs| && q < |t.procs| && InLock(t.procs[p]) && InLock(t.procs[q])
    ensures p == q
  {
    InitialInv(s);
    RunInv(s, events, t);
    assert LockInv(t, p) && LockInv(t, q);
  }

  /** The successful exchanges form one chain from the initial credential. Each presents the
      token that the answer before brought, and the refresh token that it brought, if it did,
      else the one presented before. So no credential is exchanged twice. */
  lemma RotationChain(s: System, events: seq<Event>, t: System)
    requires Initial(s) && Reaches(s, events, t)
    ensures t.past.initial == s.past.initial
    ensures var xs := t.past.exchanges;
            && (xs != [] ==> xs[0].used == t.past.initial)
            && (forall i :: 0 <= i < |xs| ==> xs[i].used.client == t.past.initial.client)
            && (forall i :: 0 < i < |xs| ==>
                  && xs[i].used.access == xs[i - 1].reply.access && xs[i].used.expiresAt == xs[i - 1].reply.expiresAt
                  && xs[i].used.refresh ==
                     if xs[i - 1].reply.refresh != "" then xs[i - 1].reply.refresh else xs[i - 1].used.refresh)
            && forall i, j :: 0 <= i < j < |xs| ==> xs[i].used.access != xs[j].used.access
  {
    hide Issued, Distinct, Refreshable;
    InitialInv(s);
    RunInv(s, events, t);
    UsedOnce(t.past);
    var xs := t.past.exchanges;
    forall i | 0 < i < |xs|
      ensures xs[i].used.access == xs[i - 1].reply.access && xs[i].used.expiresAt == xs[i - 1].reply.expiresAt
      ensures xs[i].used.refresh ==
              if xs[i - 1].reply.refresh != "" then xs[i - 1].reply.refresh else xs[i - 1].used.refresh {
      assert Keeps(xs[i - 1]) && xs[i].used == Before(t.past, i);
    }
    forall i | 0 <= i < |xs| ensures xs[i].used.client == t.past.initial.client {
      assert xs[i].used == Before(t.past, i);
    }
  }

  /** Every answer carries a refresh token that is new. */
  predicate Rotates(h: History) {
    && (forall i :: 0 <= i < |h.exchanges| ==> h.exchanges[i].reply.refresh !in ["", h.initial.refresh])
    && forall i, j :: 0 <= i < j < |h.exchanges| ==> h.exchanges[i].reply.refresh != h.exchanges[j].reply.refresh
  }

  /** A server that always sends a new refresh token is never presented one twice. */
  lemma RefreshTokensUsedOnce(s: System, events: seq<Event>, t: System)
    requires Initial(s) && Reaches(s, events, t) && Rotates(t.past)
    ensures var xs := t.past.exchanges; forall i, j :: 0 <= i < j < |xs| ==> xs[i].used.refresh != xs[j].used.refresh
  {
    hide Reaches;
    RotationChain(s, events, t);
    var xs := t.past.exchanges;
    forall i, j | 0 <= i < j < |xs| ensures xs[i].used.refresh != xs[j].used.refresh {
      assert xs[j].used.refresh == xs[j - 1].reply.refresh;
      assert i > 0 ==> xs[i].used.refresh == xs[i - 1].reply.refresh;
    }
  }

  /** What is saved is what the last answer brought. */
  lemma SavesTheReply(s: System, events: seq<Event>, t: System, p: nat)
    requires Initial(s) && Reaches(s, events, t) && Enabled(t, Act(p, Write))
    ensures t.past.exchanges != []
    ensures var last, file := t.past.exchanges[|t.past.exchanges| - 1], Step(t, Act(p, Write)).file;
            && file.Holds? && file.cred.access == last.reply.access && file.cred.expiresAt == last.reply.expiresAt
            && file.cred.refresh == (if last.reply.refresh != "" then last.reply.refresh else last.used.refresh)
            && file.cred.client == last.used.client
  {
    hide Issued, Distinct, Chained;
    InitialInv(s);
    RunInv(s, events, t);
    assert PhaseInv(t.file, t.past, t.procs[p]);
  }

  /** The token of the credential in the file, which has not expired. */
  predicate StoredAndFresh(s: System, text: string) {
    && s.file.Holds? && s.file.cred.access == text
    && (s.file.cred.expiresAt <= 0 || s.clock <= s.file.cred.expiresAt)
  }

  /** What can be refreshed: it has a refresh token and a client, and the host is known. */
  predicate HasGrant(file: File, host: string) {
    file.Holds? && file.cred.refresh != "" && file.cred.client != "" && host != ""
  }

  /** A call for a token ends with the stored token if that has not expired, also when it has
      waited for the lock, and with the newest one after a refresh. It ends with none only if
      none is found or the one found has expired and cannot be refreshed. A refresh that fails, and
      a lock that is not obtained, fail the call. */
  lemma HandsOut(s: System, events: seq<Event>, t: System, p: nat, a: Action)
    requires Initial(s) && Reaches(s, events, t) && Enabled(t, Act(p, a))
    ensures var before, now := t.procs[p], Step(t, Act(p, a)).procs[p];
            && (a == ReadFile && before.request.AskToken? ==>
                  if t.file.Holds? && !StoredAndFresh(t, t.file.cred.access) then now == Queued(GetToken)
                  else if t.file.Holds? then now == Done(Token(t.file.cred.access))
                  else now == Done(Token("")))
            && (a == ReadLocked && before.op.GetToken? ==>
                  if t.file.Holds? && StoredAndFresh(t, t.file.cred.access) then
                    now == Releasing(Token(t.file.cred.access))
                  else if HasGrant(t.file, t.past.host) then now == Refreshing(GetToken, t.file.cred)
                  else now == Releasing(Token("")))
            && (a == Write ==>
                  now == Releasing(if before.op.GetToken? then Token(Current(t.past).access) else Refreshed))
            && (a == ReadFile && before.request.AskRefresh? ==>
                  now == if t.file.Holds? then Queued(TryRefresh(t.file.cred)) else Done(Failed))
            && (a == ReadFile && before.request.AskClear? ==>
                  var expected := before.request.expected;
                  now == if expected == "" then Done(Cleared(false)) else Queued(ClearIf(expected)))
            && (a == ExchangeFails ==> now == Releasing(Failed))
            && (a == GiveUp ==> now == Done(Failed))
            && (a == Release ==> now == Done(before.outcome))
  {
    hide Issued, Lineage;
    InitialInv(s);
    RunInv(s, events, t);
    assert PhaseInv(t.file, t.past, t.procs[p]);
  }

  /** A call that clears reports that it did exactly when it removes the file; it leaves the
      file when that is absent or holds another token than the one expected. A call for a
      refresh fails under the lock exactly when it finds nothing, or finds what its caller had
      seen and cannot refresh it. */
  lemma LockedCallsDecide(s: System, events: seq<Event>, t: System, p: nat, a: Action)
    requires Initial(s) && Reaches(s, events, t) && Enabled(t, Act(p, a)) && (a.ReadLocked? || a.RemoveFile?)
    ensures var before, next := t.procs[p], Step(t, Act(p, a));
            && (a.RemoveFile? ==> next.procs[p] == Releasing(Cleared(true)) && next.file.Absent?)
            && (a.ReadLocked? ==> next.file == t.file)
            && (a.ReadLocked? && before.op.ClearIf? ==>
                  if t.file.Holds? && t.file.cred.access == before.op.expected then next.procs[p].Clearing?
                  else next.procs[p] == Releasing(Cleared(false)))
            && (a.ReadLocked? && before.op.TryRefresh? ==>
                  if t.file.Holds? && t.file.cred.access != "" && t.file.cred != before.op.snapshot then
                    next.procs[p] == Releasing(Refreshed)
                  else if HasGrant(t.file, t.past.host) then next.procs[p] == Refreshing(before.op, t.file.cred)
                  else next.procs[p] == Releasing(Failed))
  {
    hide Issued, Lineage;
    InitialInv(s);
    RunInv(s, events, t);
    assert PhaseInv(t.file, t.past, t.procs[p]);
  }

  lemma UsedOnce(h: History)
    requires Lineage(h)
    ensures forall i, j :: 0 <= i < j < |h.exchanges| ==> h.exchanges[i].used.access != h.exchanges[j].used.access
  {
    forall i, j | 0 <= i < j < |h.exchanges| ensures h.exchanges[i].used.access != h.exchanges[j].used.access {
      UsedIsIssued(h, i);
      UsedIsIssued(h, j);
      hide Issued;
      assert Issued(h)[i] != Issued(h)[j];
    }
  }

  lemma UsedIsIssued(h: History, i: nat)
    requires Chained(h) && i < |h.exchanges|
    ensures i < |Issued(h)| && Issued(h)[i] == h.exchanges[i].used.access
  {
    assert h.exchanges[i].used == Before(h, i);
  }

  /** Whenever nobody holds the lock, the file holds the newest credential, unless it
      was cleared. */
  lemma RestsOnNewest(s: System, events: seq<Event>, t: System)
    requires Initial(s) && Reaches(s, events, t) && t.lock.Free?
    ensures t.file == if t.past.cleared then Absent else Holds(Current(t.past))
  {
    InitialInv(s);
    RunInv(s, events, t);
  }

  /** `ClearTokenIfCurrent` removes only the credential it was asked about, which then
      is the newest one. */
  lemma ClearsOnlyExpected(s: System, events: seq<Event>, t: System, p: nat)
    requires Initial(s) && Reaches(s, events, t) && Enabled(t, Act(p, RemoveFile))
    ensures t.file == Holds(Current(t.past)) && t.file.cred.access == t.procs[p].expected
  {
    InitialInv(s);
    RunInv(s, events, t);
    assert PhaseInv(t.file, t.past, t.procs[p]);
  }

  /** The initial credential, or what some exchange obtained. */
  predicate Obtained(h: History, c: Credential) {
    c == h.initial || exists i :: 0 <= i < |h.exchanges| && h.exchanges[i].renewed == c
  }

  predicate HoldsObtained(s: System) { s.file.Holds? ==> Obtained(s.past, s.file.cred) }

  lemma StepObtained(s: System, e: Event)
    requires Inv(s) && Enabled(s, e) && HoldsObtained(s)
    ensures HoldsObtained(Step(s, e))
  {
    hide Issued, Chained, FileInv, Known, Handed, Superseded;
    var t := Step(s, e);
    if e.Act? && e.a.Write? { assert PhaseInv(s.file, s.past, s.procs[e.p]); }
    if s.file.Holds? && t.file == s.file && s.file.cred != s.past.initial {
      var i :| 0 <= i < |s.past.exchanges| && s.past.exchanges[i].renewed == s.file.cred;
      assert t.past.exchanges[i] == s.past.exchanges[i];
    }
  }

  lemma {:induction false} RunObtained(s: System, events: seq<Event>, t: System)
    requires Inv(s) && Reaches(s, events, t) && HoldsObtained(s)
    ensures HoldsObtained(t)
    decreases |events|
  {
    hide Inv, HoldsObtained;
    if events != [] {
      StepInv(s, events[0]);
      StepObtained(s, events[0]);
      RunObtained(Step(s, events[0]), events[1..], t);
    }
  }

  /** A credential that could be refreshed stays refreshable, for the same client, through
      any number of refreshes, also while one is under way or after one has crashed. */
  lemma StaysRefreshable(s: System, events: seq<Event>, t: System)
    requires Initial(s) && Reaches(s, events, t) && t.file.Holds?
    requires Refreshable(s.past.initial, s.past.host)
    ensures Refreshable(t.file.cred, t.past.host) && t.file.cred.client == s.past.initial.client
  {
    InitialInv(s);
    RunInv(s, events, t);
    RunObtained(s, events, t);
  }

  /** A successful `TryRefresh` leaves a credential that differs from the one its
      caller had seen. */
  lemma RefreshedMeansChanged(s: System, events: seq<Event>, t: System, p: nat, a: Action)
    requires Initial(s) && Reaches(s, events, t) && Enabled(t, Act(p, a))
    requires a == ReadLocked || a == Write
    requires t.procs[p].op.TryRefresh? && Step(t, Act(p, a)).procs[p] == Releasing(Refreshed)
    ensures var file := Step(t, Act(p, a)).file;
            file.Holds? && file.cred == Current(t.past) && Changed(t.procs[p].op.snapshot, file.cred)
  {
    InitialInv(s);
    RunInv(s, events, t);
    assert PhaseInv(t.file, t.past, t.procs[p]);
  }

  /** A token `GetToken` hands out was issued by the server, or is empty. */
  lemma TokensAreIssued(s: System, events: seq<Event>, t: System, p: nat)
    requires Initial(s) && Reaches(s, events, t)
    requires p < |t.procs| && t.procs[p].Done? && t.procs[p].outcome.Token?
    ensures t.procs[p].outcome.text == "" || t.procs[p].outcome.text in Issued(t.past)
  {
    InitialInv(s);
    RunInv(s, events, t);
    assert PhaseInv(t.file, t.past, t.procs[p]);
  }

  /** `p` holds the lock all along and neither obtains, stores nor removes a credential. */
  ghost predicate OnlyHolds(s: System, events: seq<Event>, p: nat)
    decreases |events|
  {
    && p < |s.procs| && InLock(s.procs[p])
    && (events != [] ==>
          && Enabled(s, events[0])
          && !(events[0].Act? && events[0].p == p
               && (events[0].a.ExchangeSucceeds? || events[0].a.Truncate? || events[0].a.Write?
                   || events[0].a.RemoveFile?))
          && OnlyHolds(Step(s, events[0]), events[1..], p))
  }

  /** A refresh whose exchange fails leaves the stored credential as it was when the
      lock was taken, whatever the other processes do meanwhile. */
  lemma {:induction false} FailureKeepsFile(s: System, events: seq<Event>, t: System, p: nat)
    requires Inv(s) && Reaches(s, events, t) && OnlyHolds(s, events, p)
    ensures t.file == s.file && t.past == s.past
    decreases |events|
  {
    if events != [] {
      StepInv(s, events[0]);
      FileUntouched(s, events[0], p);
      FailureKeepsFile(Step(s, events[0]), events[1..], t, p);
    }
  }

  lemma FileUntouched(s: System, e: Event, p: nat)
    requires Inv(s) && Enabled(s, e) && p < |s.procs| && InLock(s.procs[p])
    requires e.Act? && e.p == p ==> !e.a.ExchangeSucceeds? && !e.a.Truncate? && !e.a.Write? && !e.a.RemoveFile?
    ensures Step(s, e).file == s.file && Step(s, e).past == s.past
  {
    assert LockInv(s, p);
    if e.Act? { assert LockInv(s, e.p); }
  }

  /** The unlocked first load of `GetToken` and `TryRefresh` finds no credential,
      though none was cleared, exactly while some process is in the middle of saving
      one: the save truncates the file before it writes it. */
  lemma FindsNothingIff(s: System, events: seq<Event>, t: System)
    requires Initial(s) && Reaches(s, events, t) && !t.past.cleared
    ensures Load(t.file) == Nothing <==> exists p :: 0 <= p < |t.procs| && MidSave(t.procs[p])
  {
    InitialInv(s);
    RunInv(s, events, t);
  }

  /** Under the lock that never happens. */
  lemma LockedLoadFinds(s: System, events: seq<Event>, t: System, p: nat)
    requires Initial(s) && Reaches(s, events, t) && Enabled(t, Act(p, ReadLocked))
    ensures Load(t.file) == if t.past.cleared then Nothing else Found(Current(t.past))
  {
    InitialInv(s);
    RunInv(s, events, t);
    assert PhaseInv(t.file, t.past, t.procs[p]);
  }

  lemma Prepend(s: System, e: Event, next: System, events: seq<Event>, t: System)
    requires Enabled(s, e) && Step(s, e).procs == next.procs && Step(s, e).(procs := next.procs) == next
    requires Reaches(next, events, t)
    ensures Reaches(s, [e] + events, t)
  {
    assert ([e] + events)[1..] == events;
  }

  /** A run in which `GetToken` answers with no token and no error although the
      profile holds a refreshable credential throughout. */
  lemma TornReadHappens(c: Credential, text: string)
    requires Refreshable(c, "h") && text != "" && text != c.access && c.expiresAt > 0
    ensures exists s, events, t ::
              && Initial(s) && s.file == Holds(c) && Reaches(s, events, t) && !t.past.cleared
              && |t.procs| == 2 && t.procs[1] == Done(Token(""))
  {
    var h, now := History(c, "h", [], false), c.expiresAt + 1;
    var reply := Reply(text, "", 0);
    var r := Successor(c, reply);
    var h' := Extend(h, c, reply, r);
    var t := System(Torn, HeldBy(0), now, [Saving(GetToken, r), Done(Token(""))], h');
    var s0 := System(Holds(c), Free, now, [Idle, Idle], h);
    var s1 := s0.(procs := [FirstLoad(AskToken), Idle]);
    var s2 := s0.(procs := [Queued(GetToken), Idle]);
    var s3 := s0.(lock := HeldBy(0), procs := [Locked(GetToken), Idle]);
    var e3 := UntilTruncated(c, text, now, s3, t);
    hide Extend, Successor;
    Prepend(s2, Act(0, Acquire), s3, e3, t);
    var e2 := [Act(0, Acquire)] + e3;
    Prepend(s1, Act(0, ReadFile), s2, e2, t);
    var e1 := [Act(0, ReadFile)] + e2;
    Prepend(s0, Act(0, Call(AskToken)), s1, e1, t);
    assert Reaches(s0, [Act(0, Call(AskToken))] + e1, t);
  }

  lemma UntilTruncated(c: Credential, text: string, now: int, s3: System, t: System) returns (events: seq<Event>)
    requires Refreshable(c, "h") && text != "" && text != c.access && Expired(c, now)
    requires s3 == System(Holds(c), HeldBy(0), now, [Locked(GetToken), Idle], History(c, "h", [], false))
    requires var r := Successor(c, Reply(text, "", 0));
             && t.past == Extend(s3.past, c, Reply(text, "", 0), r)
             && t == System(Torn, HeldBy(0), now, [Saving(GetToken, r), Done(Token(""))], t.past)
    ensures Reaches(s3, events, t)
  {
    var reply := Reply(text, "", 0);
    var r := Successor(c, reply);
    var s4 := s3.(procs := [Refreshing(GetToken, c), Idle]);
    var s5 := s3.(procs := [Exchanged(GetToken, r), Idle], past := Extend(s3.past, c, reply, r));
    var s6 := s5.(procs := [Saving(GetToken, r), Idle], file := Torn);
    assert Issued(s4.past) == [c.access];
    var e6 := TornRead(now, r, s6.past, t);
    Prepend(s5, Act(0, Truncate), s6, e6, t);
    var e5 := [Act(0, Truncate)] + e6;
    Prepend(s4, Act(0, ExchangeSucceeds(reply)), s5, e5, t);
    events := [Act(0, ExchangeSucceeds(reply))] + e5;
    Prepend(s3, Act(0, ReadLocked), s4, events, t);
    events := [Act(0, ReadLocked)] + events;
  }

  lemma TornRead(now: int, r: Credential, h: History, t: System) returns (events: seq<Event>)
    requires t == System(Torn, HeldBy(0), now, [Saving(GetToken, r), Done(Token(""))], h)
    ensures Reaches(System(Torn, HeldBy(0), now, [Saving(GetToken, r), Idle], h), events, t)
  {
    var a := System(Torn, HeldBy(0), now, [Saving(GetToken, r), Idle], h);
    var b := a.(procs := [Saving(GetToken, r), FirstLoad(AskToken)]);
    Prepend(b, Act(1, ReadFile), t, [], t);
    Prepend(a, Act(1, Call(AskToken)), b, [Act(1, ReadFile)] + [], t);
    events := [Act(1, Call(AskToken))] + ([Act(1, ReadFile)] + []);
  }
}
