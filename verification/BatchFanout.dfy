/** The batch executor: workers, a job channel, a cancellable context and one slot per ID. */
module BatchFanout {
  // A few workers run in any interleaving; then the slots become the response.

  import opened Options

  /** What one tool call answers. */
  datatype Answer = Data(data: int) | ItemError(code: string, message: string) | Unauthorized(id: int)

  /** A result slot; `Unset` is the zero value no worker wrote. */
  datatype Slot = Unset | Item(id: string, answer: Answer)

  datatype Worker =
    | Ready                                    // about to receive from the channel
    | Received(index: nat)                     // about to look at the context
    | Calling(index: nat)                      // the tool call is in flight
    | Answered(index: nat, answer: Answer)     // about to record the answer
    | Exited

  datatype Result = Response(items: seq<Slot>) | AuthFailure(id: int) | Cancelled

  /** `place` is where the job of each index is. */
  datatype Place = Unsent | InChannel | With(worker: nat) | Recorded | Abandoned

  datatype State = State(
    ids: seq<string>, sent: nat, jobs: seq<nat>, closed: bool, workers: seq<Worker>,
    firstErr: Option<int>, fanCancelled: bool, parentCancelled: bool,
    slots: seq<Slot>, result: Option<Result>,
    place: seq<Place>, calls: seq<nat>, answers: seq<Option<Answer>>)

  const BATCH_CONCURRENCY := 3

  function Start(ids: seq<string>): State {
    var n := |ids|;
    State(ids, 0, [], false, seq(if n < BATCH_CONCURRENCY then n else BATCH_CONCURRENCY, i => Ready),
          None, false, false, seq(n, i => Unset), None,
          seq(n, i => Unsent), seq(n, i => 0), seq(n, i => None))
  }

  datatype Event =
    | Send | CloseJobs | CancelParent | Finish
    | Receive(w: nat) | Leave(w: nat) | Check(w: nat) | Answer(w: nat, answer: Answer) | Record(w: nat)

  predicate Enabled(s: State, e: Event) {
    match e
    case Send => s.sent < |s.ids| && !s.closed
    case CloseJobs => s.sent == |s.ids| && !s.closed
    case CancelParent => true
    case Finish => s.closed && s.result.None? && forall w :: 0 <= w < |s.workers| ==> s.workers[w].Exited?
    case Receive(w) => w < |s.workers| && s.workers[w].Ready? && s.jobs != []
    case Leave(w) => w < |s.workers| && s.workers[w].Ready? && s.jobs == [] && s.closed
    case Check(w) => w < |s.workers| && s.workers[w].Received?
    case Answer(w, answer) => w < |s.workers| && s.workers[w].Calling?
    case Record(w) => w < |s.workers| && s.workers[w].Answered?
  }

  predicate Shaped(s: State) {
    && s.sent <= |s.ids|
    && |s.slots| == |s.place| == |s.calls| == |s.answers| == |s.ids|
    && (forall k :: 0 <= k < |s.jobs| ==> s.jobs[k] < |s.ids|)
    && (forall w :: 0 <= w < |s.workers| ==> Held(s.workers[w]).Some? ==> Held(s.workers[w]).value < |s.ids|)
  }

  /** The job a worker is busy with. */
  function Held(worker: Worker): Option<nat> {
    if worker.Ready? || worker.Exited? then None else Some(worker.index)
  }

  function Step(s: State, e: Event): State
    requires Shaped(s) && Enabled(s, e)
  {
    match e
    case Send => s.(sent := s.sent + 1, jobs := s.jobs + [s.sent], place := s.place[s.sent := InChannel])
    case CloseJobs => s.(closed := true)
    case CancelParent => s.(parentCancelled := true, fanCancelled := true)
    case Finish => s.(result := Some(Outcome(s)))
    case Receive(w) =>
      s.(jobs := s.jobs[1..], workers := s.workers[w := Received(s.jobs[0])], place := s.place[s.jobs[0] := With(w)])
    case Leave(w) => s.(workers := s.workers[w := Exited])
    case Check(w) =>
      var i := s.workers[w].index;
      if s.fanCancelled then s.(workers := s.workers[w := Exited], place := s.place[i := Abandoned])
      else s.(workers := s.workers[w := Calling(i)], calls := s.calls[i := s.calls[i] + 1])
    case Answer(w, answer) =>
      var i := s.workers[w].index;
      s.(workers := s.workers[w := Answered(i, answer)], answers := s.answers[i := Some(answer)])
    case Record(w) =>
      var i := s.workers[w].index;
      var answer := s.workers[w].answer;
      if answer.Unauthorized? then
        s.(firstErr := if s.firstErr.None? then Some(answer.id) else s.firstErr, fanCancelled := true,
           workers := s.workers[w := Exited], place := s.place[i := Abandoned])
      else
        s.(slots := s.slots[i := Item(s.ids[i], answer)], workers := s.workers[w := Ready],
           place := s.place[i := Recorded])
  }

  /** What `Execute` returns after all workers are done. */
  function Outcome(s: State): Result {
    if s.firstErr.Some? then AuthFailure(s.firstErr.value)
    else if s.parentCancelled then Cancelled
    else Response(s.slots)
  }

  ghost predicate Reaches(s: State, events: seq<Event>, t: State)
    decreases |events|
  {
    if events == [] then s == t
    else Shaped(s) && Enabled(s, events[0]) && Reaches(Step(s, events[0]), events[1..], t)
  }

  // --------------------------------------------------------------- invariant

  predicate JobsInv(s: State)
    requires Shaped(s)
  {
    && (forall k, l :: 0 <= k < l < |s.jobs| ==> s.jobs[k] != s.jobs[l])
    && (forall k :: 0 <= k < |s.jobs| ==> s.place[s.jobs[k]] == InChannel)
    && (forall i :: 0 <= i < |s.ids| && s.place[i].InChannel? ==> i in s.jobs)
    && (forall i :: 0 <= i < |s.ids| ==> (s.place[i].Unsent? <==> i >= s.sent))
    && (s.closed ==> s.sent == |s.ids|)
  }

  predicate WorkerInv(s: State, w: nat)
    requires Shaped(s) && w < |s.workers|
  {
    match s.workers[w]
    case Ready => true
    case Exited => s.fanCancelled || (s.closed && s.jobs == [])
    case Received(i) => s.place[i] == With(w) && s.calls[i] == 0 && s.answers[i].None?
    case Calling(i) => s.place[i] == With(w) && s.calls[i] == 1 && s.answers[i] == None
    case Answered(i, answer) => s.place[i] == With(w) && s.calls[i] == 1 && s.answers[i] == Some(answer)
  }

  predicate IndexInv(s: State, i: nat)
    requires Shaped(s) && i < |s.ids|
  {
    match s.place[i]
    case Unsent => s.calls[i] == 0 && s.slots[i].Unset? && s.answers[i].None?
    case InChannel => s.calls[i] == 0 && s.slots[i].Unset? && s.answers[i].None?
    case With(w) =>
      w < |s.workers| && Held(s.workers[w]) == Some(i) && s.slots[i].Unset?
    case Recorded =>
      && s.calls[i] == 1 && s.answers[i].Some? && !s.answers[i].value.Unauthorized?
      && s.slots[i] == Item(s.ids[i], s.answers[i].value)
    case Abandoned =>
      && s.fanCancelled && s.calls[i] <= 1 && s.slots[i].Unset?
      && (s.answers[i].Some? ==> s.answers[i].value.Unauthorized? && s.firstErr.Some?)
  }

  predicate ErrInv(s: State)
    requires Shaped(s)
  {
    && (s.fanCancelled <==> s.firstErr.Some? || s.parentCancelled)
    && (s.firstErr.Some? ==> exists i :: 0 <= i < |s.ids| && s.answers[i] == Some(Unauthorized(s.firstErr.value)))
  }

  predicate Inv(s: State) {
    && Shaped(s)
    && JobsInv(s)
    && (forall w: nat :: w < |s.workers| ==> WorkerInv(s, w))
    && (forall i: nat :: i < |s.ids| ==> IndexInv(s, i))
    && ErrInv(s)
    && |s.workers| == (if |s.ids| < BATCH_CONCURRENCY then |s.ids| else BATCH_CONCURRENCY)
  }

  lemma StartInv(ids: seq<string>)
    ensures Inv(Start(ids))
  {}

  lemma StepInv(s: State, e: Event)
    requires Inv(s) && Enabled(s, e)
    ensures Inv(Step(s, e))
  {
    StepShaped(s, e);
    StepJobs(s, e);
    StepErr(s, e);
    hide JobsInv, ErrInv, WorkerInv, IndexInv, Shaped, Enabled;
    var t := Step(s, e);
    forall w: nat | w < |t.workers| ensures WorkerInv(t, w) { StepWorker(s, e, w); }
    forall i: nat | i < |t.ids| ensures IndexInv(t, i) { StepIndex(s, e, i); }
  }

  lemma StepShaped(s: State, e: Event)
    requires Inv(s) && Enabled(s, e)
    ensures Shaped(Step(s, e)) && |Step(s, e).workers| == |s.workers| && Step(s, e).ids == s.ids
  {
    hide JobsInv, ErrInv, WorkerInv, IndexInv;
  }

  /** The worker that moves holds the job it works on. */
  lemma Mover(s: State, e: Event)
    requires Inv(s) && Enabled(s, e)
    ensures e.Receive? ==> IndexInv(s, s.jobs[0]) && s.place[s.jobs[0]].InChannel?
    ensures e.Receive? || e.Leave? || e.Check? || e.Answer? || e.Record? ==> WorkerInv(s, e.w)
    ensures e.Check? || e.Answer? || e.Record? ==> s.place[s.workers[e.w].index] == With(e.w)
    ensures e.Check? || e.Answer? || e.Record? ==> IndexInv(s, s.workers[e.w].index)
  {
    hide ErrInv, IndexInv;
    if e.Check? || e.Answer? || e.Record? { assert WorkerInv(s, e.w); }
  }

  lemma StepJobs(s: State, e: Event)
    requires Inv(s) && Enabled(s, e)
    ensures Shaped(Step(s, e)) && JobsInv(Step(s, e))
  {
    hide ErrInv, IndexInv, WorkerInv;
    StepShaped(s, e);
    if e.Send? {
      SendJobs(s);
    } else if e.Receive? {
      ReceiveJobs(s, e.w);
    } else {
      Mover(s, e);
      SameJobs(s, Step(s, e));
    }
  }

  lemma SendJobs(s: State)
    requires Shaped(s) && JobsInv(s) && Enabled(s, Send)
    ensures Shaped(Step(s, Send)) && JobsInv(Step(s, Send))
  {
    var t := Step(s, Send);
    forall i | 0 <= i < |t.ids| && t.place[i].InChannel? ensures i in t.jobs {
      if i == s.sent { assert t.jobs[|s.jobs|] == i; } else { assert i in s.jobs; }
    }
  }

  lemma ReceiveJobs(s: State, w: nat)
    requires Shaped(s) && JobsInv(s) && Enabled(s, Receive(w))
    ensures Shaped(Step(s, Receive(w))) && JobsInv(Step(s, Receive(w)))
  {
    var t := Step(s, Receive(w));
    assert s.jobs == [s.jobs[0]] + t.jobs;
    assert forall k :: 0 <= k < |t.jobs| ==> t.jobs[k] == s.jobs[k + 1];
    assert t.place == s.place[s.jobs[0] := With(w)];
    hide Step;
    forall i | 0 <= i < |t.ids| && t.place[i].InChannel? ensures i in t.jobs {
      assert i in s.jobs;
    }
  }

  /** The channel only cares which jobs are in it and which were sent. */
  lemma SameJobs(s: State, t: State)
    requires Shaped(s) && JobsInv(s) && Shaped(t)
    requires t.jobs == s.jobs && t.sent == s.sent && |t.ids| == |s.ids|
    requires forall i :: 0 <= i < |s.ids| ==>
               t.place[i].InChannel? == s.place[i].InChannel? && t.place[i].Unsent? == s.place[i].Unsent?
    requires t.closed ==> t.sent == |t.ids|
    ensures JobsInv(t)
  {}

  lemma StepErr(s: State, e: Event)
    requires Inv(s) && Enabled(s, e)
    ensures Shaped(Step(s, e)) && ErrInv(Step(s, e))
  {
    StepShaped(s, e);
    Mover(s, e);
    hide JobsInv, IndexInv;
    var t := Step(s, e);
    if s.firstErr.Some? {
      var i :| 0 <= i < |s.ids| && s.answers[i] == Some(Unauthorized(s.firstErr.value));
      assert t.answers[i] == s.answers[i];
    } else if t.firstErr.Some? {
      assert t.answers[s.workers[e.w].index] == Some(s.workers[e.w].answer);
    }
  }

  /** The worker an event is about. */
  function Actor(e: Event): Option<nat> {
    match e
    case Receive(w) => Some(w)
    case Leave(w) => Some(w)
    case Check(w) => Some(w)
    case Answer(w, _) => Some(w)
    case Record(w) => Some(w)
    case _ => None
  }

  lemma StepWorker(s: State, e: Event, w: nat)
    requires Inv(s) && Enabled(s, e) && w < |s.workers|
    ensures Shaped(Step(s, e)) && w < |Step(s, e).workers| && WorkerInv(Step(s, e), w)
  {
    StepShaped(s, e);
    Mover(s, e);
    assert e.Send? ==> s.place[s.sent].Unsent?;
    hide JobsInv, ErrInv, Step, Enabled, Shaped, IndexInv;
    assert WorkerInv(s, w);
    if Actor(e) == Some(w) { MovedWorker(s, e, w); } else { OtherWorker(s, e, w); }
  }

  /** A worker that did not move: nothing it relies on changed, since the job that moved is
      another one's. */
  lemma OtherWorker(s: State, e: Event, w: nat)
    requires Shaped(s) && Enabled(s, e) && w < |s.workers| && WorkerInv(s, w) && Actor(e) != Some(w)
    requires (e.Send? ==> s.place[s.sent].Unsent?) && (e.Receive? ==> s.place[s.jobs[0]].InChannel?)
    requires e.Check? || e.Answer? || e.Record? ==> s.place[s.workers[e.w].index] == With(e.w)
    requires Shaped(Step(s, e)) && |Step(s, e).workers| == |s.workers|
    ensures WorkerInv(Step(s, e), w)
  {
    var t := Step(s, e);
    assert t.workers[w] == s.workers[w];
    var held := Held(s.workers[w]);
    if held.Some? {
      var i := held.value;
      assert t.place[i] == s.place[i] && t.calls[i] == s.calls[i] && t.answers[i] == s.answers[i];
    }
  }

  lemma MovedWorker(s: State, e: Event, w: nat)
    requires Shaped(s) && Enabled(s, e) && w < |s.workers| && WorkerInv(s, w) && Actor(e) == Some(w)
    requires e.Receive? ==> IndexInv(s, s.jobs[0]) && s.place[s.jobs[0]].InChannel?
    requires e.Check? || e.Answer? || e.Record? ==> s.place[s.workers[e.w].index] == With(e.w)
    requires Shaped(Step(s, e)) && |Step(s, e).workers| == |s.workers|
    ensures WorkerInv(Step(s, e), w)
  {
    var t := Step(s, e);
    match e
    case Receive(_) => assert t.workers[w] == Received(s.jobs[0]) && t.place[s.jobs[0]] == With(w);
    case Leave(_) => assert t.workers[w] == Exited;
    case Check(_) => assert t.workers[w] == if s.fanCancelled then Exited else Calling(s.workers[w].index);
    case Answer(_, answer) => assert t.workers[w] == Answered(s.workers[w].index, answer);
    case Record(_) => assert t.workers[w].Exited? || t.workers[w].Ready?;
  }

  lemma StepIndex(s: State, e: Event, i: nat)
    requires Inv(s) && Enabled(s, e) && i < |s.ids|
    ensures Shaped(Step(s, e)) && i < |Step(s, e).ids| && IndexInv(Step(s, e), i)
  {
    StepShaped(s, e);
    Mover(s, e);
    StepErr(s, e);
    hide JobsInv;
    assert IndexInv(s, i);
    if e.Record? { RecordIndex(s, e.w, i); }
  }

  lemma RecordIndex(s: State, w: nat, i: nat)
    requires Shaped(s) && Enabled(s, Record(w)) && i < |s.ids| && WorkerInv(s, w) && IndexInv(s, i)
    requires Shaped(Step(s, Record(w)))
    ensures IndexInv(Step(s, Record(w)), i)
  {}

  lemma {:induction false} RunInv(s: State, events: seq<Event>, t: State)
    requires Inv(s) && Reaches(s, events, t)
    ensures Inv(t) && t.ids == s.ids
    decreases |events|
  {
    if events != [] {
      StepInv(s, events[0]);
      RunInv(Step(s, events[0]), events[1..], t);
    }
  }

  // ---------------------------------------------------------------- theorems

  /** No ID is called twice, and at most three calls are in flight. */
  lemma CalledAtMostOnce(ids: seq<string>, events: seq<Event>, t: State)
    requires Reaches(Start(ids), events, t)
    ensures |t.calls| == |ids| && forall i :: 0 <= i < |ids| ==> t.calls[i] <= 1
    ensures |set w | 0 <= w < |t.workers| && t.workers[w].Calling?| <= 3
  {
    StartInv(ids);
    RunInv(Start(ids), events, t);
    AtMostAll(set w | 0 <= w < |t.workers| && t.workers[w].Calling?, |t.workers|);
    forall i | 0 <= i < |ids| ensures t.calls[i] <= 1 {
      assert IndexInv(t, i);
      if t.place[i].With? { assert WorkerInv(t, t.place[i].worker); }
    }
  }

  lemma {:induction false} AtMostAll(numbers: set<int>, n: nat)
    requires forall x :: x in numbers ==> 0 <= x < n
    ensures |numbers| <= n
  {
    if n == 0 {
      assert forall x :: x !in numbers;
    } else {
      AtMostAll(numbers - {n - 1}, n - 1);
    }
  }

  /** When all workers are done and nothing cancelled the context, every slot holds
      the answer of its own ID's only call. */
  lemma AllRecorded(ids: seq<string>, events: seq<Event>, t: State)
    requires Reaches(Start(ids), events, t) && Enabled(t, Finish) && ids != []
    requires Outcome(t).Response?
    ensures |t.slots| == |t.calls| == |t.answers| == |ids|
    ensures forall i :: 0 <= i < |ids| ==>
              && t.calls[i] == 1 && t.answers[i].Some? && !t.answers[i].value.Unauthorized?
              && t.slots[i] == Item(ids[i], t.answers[i].value)
  {
    StartInv(ids);
    RunInv(Start(ids), events, t);
    assert WorkerInv(t, 0);
    forall i | 0 <= i < |ids|
      ensures t.calls[i] == 1 && t.answers[i].Some? && !t.answers[i].value.Unauthorized?
      ensures t.slots[i] == Item(ids[i], t.answers[i].value)
    {
      assert IndexInv(t, i);
      assert t.place[i].Recorded?;
    }
  }

  /** The whole step fails for authorisation exactly when some call did, and then with
      the error of such a call. */
  lemma AuthFailureIff(ids: seq<string>, events: seq<Event>, t: State)
    requires Reaches(Start(ids), events, t) && Enabled(t, Finish)
    ensures |t.answers| == |ids|
    ensures Outcome(t).AuthFailure? <==>
              exists i :: 0 <= i < |ids| && t.answers[i].Some? && t.answers[i].value.Unauthorized?
    ensures Outcome(t).AuthFailure? ==>
              exists i :: 0 <= i < |ids| && t.answers[i] == Some(Unauthorized(Outcome(t).id))
  {
    StartInv(ids);
    RunInv(Start(ids), events, t);
    forall i | 0 <= i < |ids| && t.answers[i].Some? && t.answers[i].value.Unauthorized?
      ensures t.firstErr.Some?
    {
      assert IndexInv(t, i);
    }
    if t.firstErr.Some? {
      var i :| 0 <= i < |t.ids| && t.answers[i] == Some(Unauthorized(t.firstErr.value));
      assert t.answers[i].value.Unauthorized?;
    }
  }

  /** Nothing is reported for a cancelled batch: a response needs an uncancelled run. */
  lemma NoResponseWhenCancelled(ids: seq<string>, events: seq<Event>, t: State)
    requires Reaches(Start(ids), events, t) && t.fanCancelled
    ensures !Outcome(t).Response?
  {
    StartInv(ids);
    RunInv(Start(ids), events, t);
  }

  /** A call that is answered with an authorisation failure. */
  predicate Refused(e: Event) { e.Answer? && e.answer.Unauthorized? }

  predicate AnyRefused(s: State) { exists i :: 0 <= i < |s.answers| && RefusedAt(s.answers[i]) }

  predicate RefusedAt(answer: Option<Answer>) { answer.Some? && answer.value.Unauthorized? }

  lemma StepRefused(s: State, e: Event)
    requires Inv(s) && Enabled(s, e)
    ensures AnyRefused(Step(s, e)) <==> AnyRefused(s) || Refused(e)
    ensures Step(s, e).parentCancelled <==> s.parentCancelled || e.CancelParent?
  {
    hide JobsInv, ErrInv, IndexInv;
    var t := Step(s, e);
    if e.Answer? {
      assert WorkerInv(s, e.w);
      var k := s.workers[e.w].index;
      assert t.answers[k] == Some(e.answer);
      if i :| 0 <= i < |s.answers| && RefusedAt(s.answers[i]) { assert t.answers[i] == s.answers[i]; }
    } else {
      assert t.answers == s.answers;
    }
  }

  lemma {:induction false} RunRefused(s: State, events: seq<Event>, t: State)
    requires Inv(s) && Reaches(s, events, t)
    ensures AnyRefused(t) <==> AnyRefused(s) || exists i :: 0 <= i < |events| && Refused(events[i])
    ensures t.parentCancelled <==> s.parentCancelled || CancelParent in events
    decreases |events|
  {
    hide Inv, AnyRefused, Refused;
    if events != [] {
      StepInv(s, events[0]);
      StepRefused(s, events[0]);
      RunRefused(Step(s, events[0]), events[1..], t);
      assert forall i :: 1 <= i < |events| ==> events[i] == events[1..][i - 1];
      assert events == [events[0]] + events[1..];
    }
  }

  /** How every batch ends: with the error of a refused call if any call was refused, as
      cancelled if the caller cancelled, and otherwise with the response of all slots. */
  lemma EveryEnd(ids: seq<string>, events: seq<Event>, t: State)
    requires Reaches(Start(ids), events, t) && Enabled(t, Finish)
    ensures Shaped(t)
    ensures var end := Step(t, Finish).result;
            if exists i :: 0 <= i < |events| && Refused(events[i]) then
              end.Some? && end.value.AuthFailure? && exists w :: Answer(w, Unauthorized(end.value.id)) in events
            else if CancelParent in events then end == Some(Cancelled)
            else end == Some(Response(t.slots))
  {
    StartInv(ids);
    RunInv(Start(ids), events, t);
    RunRefused(Start(ids), events, t);
    AuthFailureIff(ids, events, t);
    assert AnyRefused(t) <==> Outcome(t).AuthFailure?;
    if Outcome(t).AuthFailure? {
      var i :| 0 <= i < |ids| && t.answers[i] == Some(Unauthorized(Outcome(t).id));
      AnswersGiven(Start(ids), events, t, i);
    }
  }

  /** The first refusal that is recorded decides: its worker stops, and whatever the others do
      after it, the batch fails with its error. */
  lemma FirstRefusalDecides(ids: seq<string>, before: seq<Event>, u: State, w: nat, after: seq<Event>, t: State)
    requires Reaches(Start(ids), before, u) && Shaped(u) && Enabled(u, Record(w)) && u.firstErr.None?
    requires u.workers[w].answer.Unauthorized? && Reaches(Step(u, Record(w)), after, t)
    ensures Step(u, Record(w)).workers[w].Exited?
    ensures Outcome(t) == AuthFailure(u.workers[w].answer.id)
  {
    ErrStays(Step(u, Record(w)), after, t);
  }

  lemma {:induction false} ErrStays(s: State, events: seq<Event>, t: State)
    requires Reaches(s, events, t) && s.firstErr.Some?
    ensures t.firstErr == s.firstErr
    decreases |events|
  {
    if events != [] { ErrStays(Step(s, events[0]), events[1..], t); }
  }

  /** Every recorded answer was given by a call. */
  lemma {:induction false} AnswersGiven(s: State, events: seq<Event>, t: State, i: nat)
    requires Shaped(s) && Reaches(s, events, t) && i < |t.answers| && t.answers[i].Some?
    ensures (i < |s.answers| && s.answers[i] == t.answers[i]) || exists w :: Answer(w, t.answers[i].value) in events
    decreases |events|
  {
    if events != [] {
      var u := Step(s, events[0]);
      if Shaped(u) {
        AnswersGiven(u, events[1..], t, i);
        if i < |u.answers| && u.answers[i] == t.answers[i] && !(i < |s.answers| && s.answers[i] == u.answers[i]) {
          assert events[0] == Answer(events[0].w, t.answers[i].value);
        }
      } else {
        assert events[1..] == [] && u == t;
      }
    }
  }

  // ---------------------------------------------------------- the response

  datatype Row = Row(id: string, data: int)
  datatype ErrorRow = ErrorRow(id: string, code: string, message: string)
  datatype Summary = Summary(total: nat, succeeded: nat, failed: nat)
  datatype Assembled = Assembled(results: seq<Row>, errors: seq<ErrorRow>, summary: Summary)

  predicate Failed(slot: Slot) { slot.Item? && slot.answer.ItemError? }

  /** A slot with data, or the zero value. */
  function RowOf(slot: Slot): Row {
    if slot.Item? && slot.answer.Data? then Row(slot.id, slot.answer.data) else Row("", 0)
  }

  function ErrorRowOf(slot: Slot): ErrorRow
    requires Failed(slot)
  {
    ErrorRow(slot.id, slot.answer.code, slot.answer.message)
  }

  function Rows(items: seq<Slot>): seq<Row> {
    if items == [] then [] else
      var rest, last := Rows(items[..|items| - 1]), items[|items| - 1];
      if Failed(last) then rest else rest + [RowOf(last)]
  }

  function ErrorRows(items: seq<Slot>): seq<ErrorRow> {
    if items == [] then [] else
      var rest, last := ErrorRows(items[..|items| - 1]), items[|items| - 1];
      if Failed(last) then rest + [ErrorRowOf(last)] else rest
  }

  /** `assembleBatchResponse`: successes and errors apart, each in slot order. */
  method AssembleBatchResponse(items: seq<Slot>) returns (r: Assembled)
    ensures r.results == Rows(items) && r.errors == ErrorRows(items)
    ensures r.summary == Summary(|items|, |r.results|, |r.errors|)
    ensures r.summary.succeeded + r.summary.failed == r.summary.total
  {
    var results: seq<Row> := [];
    var errs: seq<ErrorRow> := [];
    var succeeded := 0;
    for k := 0 to |items|
      invariant results == Rows(items[..k]) && errs == ErrorRows(items[..k])
      invariant succeeded == |results| && |results| + |errs| == k
    {
      assert items[..k + 1][..k] == items[..k];
      var it := items[k];
      if it.Item? && it.answer.ItemError? {
        errs := errs + [ErrorRowOf(it)];
        continue;
      }
      results := results + [RowOf(it)];
      succeeded := succeeded + 1;
    }
    assert items[..|items|] == items;
    return Assembled(results, errs, Summary(|items|, succeeded, |items| - succeeded));
  }

  /** The IDs of a list of slots that satisfy `keep`, in order. */
  function Filter(ids: seq<string>, answers: seq<Answer>, failed: bool): seq<string>
    requires |ids| == |answers|
  {
    if ids == [] then [] else
      var n := |ids| - 1;
      var rest := Filter(ids[..n], answers[..n], failed);
      if answers[n].ItemError? == failed then rest + [ids[n]] else rest
  }

  /** Every slot holds its own ID with an answer that is no authorisation failure. */
  ghost predicate Filled(ids: seq<string>, answers: seq<Answer>, items: seq<Slot>) {
    && |ids| == |answers| == |items|
    && forall i :: 0 <= i < |ids| ==> !answers[i].Unauthorized? && items[i] == Item(ids[i], answers[i])
  }

  /** The rows of recorded slots: the results are the IDs whose call succeeded and the
      errors the IDs whose call failed, both in input order, with their own answers. */
  lemma {:induction false} RowsPartition(ids: seq<string>, answers: seq<Answer>, items: seq<Slot>)
    requires Filled(ids, answers, items)
    ensures RowIds(Rows(items)) == Filter(ids, answers, false)
    ensures ErrorIds(ErrorRows(items)) == Filter(ids, answers, true)
    ensures forall r :: r in Rows(items) ==> exists i :: 0 <= i < |ids| && answers[i] == Data(r.data) && ids[i] == r.id
    ensures forall r :: r in ErrorRows(items) ==>
              exists i :: 0 <= i < |ids| && answers[i] == ItemError(r.code, r.message) && ids[i] == r.id
  {
    if ids != [] {
      var n := |ids| - 1;
      RowsPartition(ids[..n], answers[..n], items[..n]);
      RowsOwn(ids, answers, items);
    }
  }

  lemma RowsOwn(ids: seq<string>, answers: seq<Answer>, items: seq<Slot>)
    requires Filled(ids, answers, items)
    ensures forall r :: r in Rows(items) ==> exists i :: 0 <= i < |ids| && answers[i] == Data(r.data) && ids[i] == r.id
    ensures forall r :: r in ErrorRows(items) ==>
              exists i :: 0 <= i < |ids| && answers[i] == ItemError(r.code, r.message) && ids[i] == r.id
  {
    RowsFrom(items);
    hide Rows, ErrorRows;
    forall r | r in Rows(items) ensures exists i :: 0 <= i < |ids| && answers[i] == Data(r.data) && ids[i] == r.id {
      var i :| 0 <= i < |items| && !Failed(items[i]) && r == RowOf(items[i]);
      assert answers[i] == Data(r.data);
    }
    forall r | r in ErrorRows(items)
      ensures exists i :: 0 <= i < |ids| && answers[i] == ItemError(r.code, r.message) && ids[i] == r.id {
      var i :| 0 <= i < |items| && Failed(items[i]) && r == ErrorRowOf(items[i]);
      assert answers[i] == ItemError(r.code, r.message);
    }
  }

  /** Every row is that of some slot. */
  lemma {:induction false} RowsFrom(items: seq<Slot>)
    ensures forall r :: r in Rows(items) ==> exists i :: 0 <= i < |items| && !Failed(items[i]) && r == RowOf(items[i])
    ensures forall r :: r in ErrorRows(items) ==>
              exists i :: 0 <= i < |items| && Failed(items[i]) && r == ErrorRowOf(items[i])
  {
    hide Failed, RowOf, ErrorRowOf;
    if items != [] {
      var n := |items| - 1;
      RowsFrom(items[..n]);
      assert forall i :: 0 <= i < n ==> items[..n][i] == items[i];
    }
  }

  function RowIds(rows: seq<Row>): seq<string> { seq(|rows|, i requires 0 <= i < |rows| => rows[i].id) }

  function ErrorIds(rows: seq<ErrorRow>): seq<string> { seq(|rows|, i requires 0 <= i < |rows| => rows[i].id) }

  /** The response of a batch that is not an error: each ID was called exactly once and
      stands, with the answer of its own call, in the results or in the errors. */
  lemma ResponseIsComplete(ids: seq<string>, events: seq<Event>, t: State)
    requires Reaches(Start(ids), events, t) && Enabled(t, Finish) && ids != []
    requires Outcome(t).Response?
    ensures |t.calls| == |t.answers| == |ids| && forall i :: 0 <= i < |ids| ==> t.calls[i] == 1 && t.answers[i].Some?
    ensures var answers := seq(|ids|, i requires 0 <= i < |ids| => t.answers[i].value);
            var items := Outcome(t).items;
            && RowIds(Rows(items)) == Filter(ids, answers, false)
            && ErrorIds(ErrorRows(items)) == Filter(ids, answers, true)
  {
    AllRecorded(ids, events, t);
    var answers := seq(|ids|, i requires 0 <= i < |ids| => t.answers[i].value);
    RowsPartition(ids, answers, t.slots);
  }
}
