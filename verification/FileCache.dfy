/** The cache file: any number of writers, readers and clears, interleaved step by step. */
module FileCache {
  // Processes may crash and the machine may lose power at any point.

  import opened Options

  /** A file's bytes, and whether they reached the disk. */
  datatype File = File(content: string, synced: bool)

  datatype Stage =
    | Filling(written: nat)        // created, that many bytes written
    | Synced
    | Closed                       // about to rename
    | Failing                      // about to remove the temporary file

  datatype Process =
    | Idle
    | Writer(file: nat, data: string, stage: Stage)
    | Reader(file: nat, got: string, held: string)    // what it read; what the path held when it was opened
    | Returned(text: Option<string>, atOpen: Option<string>)
    | Stored
    | SetFailed
    | Crashed(left: Option<nat>)

  /** The initial value, every value passed to a `Set`, and the files the path ever named. */
  datatype History = History(initial: Option<string>, sets: set<string>, published: set<nat>)

  /** Files are numbered in the order of their creation; `temps` have a temporary name. */
  datatype System = System(files: seq<File>, path: Option<nat>, temps: set<nat>, procs: seq<Process>, past: History)

  datatype Action =
    | StartSet(data: string)       // creates a temporary file of its own
    | Write(bytes: nat)
    | Sync
    | Close
    | Rename
    | Fail
    | Unlink
    | StartGet                     // opens the path
    | Read(bytes: nat)
    | EndOfFile
    | Clear
    | Crash

  datatype Event = Act(p: nat, a: Action) | PowerLoss(garbled: seq<string>)

  predicate AtRest(ph: Process) { ph.Idle? || ph.Returned? || ph.Stored? || ph.SetFailed? }

  predicate Enabled(s: System, e: Event) {
    match e
    case PowerLoss(garbled) => |garbled| == |s.files|
    case Act(p, a) => p < |s.procs| && CanDo(s, s.procs[p], a)
  }

  predicate CanDo(s: System, ph: Process, a: Action) {
    match a
    case StartSet(_) => AtRest(ph)
    case Write(n) => ph.Writer? && ph.stage.Filling? && ph.stage.written + n <= |ph.data|
    case Sync => ph.Writer? && ph.stage == Filling(|ph.data|) && ph.file < |s.files|
    case Close => ph.Writer? && ph.stage.Synced?
    case Rename => ph.Writer? && ph.stage.Closed?
    case Fail => ph.Writer? && !ph.stage.Failing?
    case Unlink => ph.Writer? && ph.stage.Failing?
    case StartGet => AtRest(ph) && (s.path.Some? ==> s.path.value < |s.files|)
    case Read(n) => ph.Reader? && ph.file < |s.files| && |ph.got| + n <= |s.files[ph.file].content|
    case EndOfFile => ph.Reader? && ph.file < |s.files| && |ph.got| == |s.files[ph.file].content|
    case Clear => AtRest(ph)
    case Crash => !ph.Crashed?
  }

  function Move(s: System, p: nat, ph: Process): System
    requires p < |s.procs|
  {
    s.(procs := s.procs[p := ph])
  }

  /** What a crash leaves of a process. */
  function Fallen(ph: Process): Process {
    match ph
    case Writer(file, _, _) => Crashed(Some(file))
    case Crashed(left) => Crashed(left)
    case _ => Crashed(None)
  }

  function Step(s: System, e: Event): System
    requires Enabled(s, e)
  {
    match e
    case PowerLoss(garbled) => Outage(s, garbled)
    case Act(p, a) =>
      var ph := s.procs[p];
      match a
      case StartSet(data) =>
        Move(s, p, Writer(|s.files|, data, Filling(0)))
          .(files := s.files + [File("", false)], temps := s.temps + {|s.files|},
            past := s.past.(sets := s.past.sets + {data}))
      case Write(n) => Append(s, p, n)
      case Sync => Move(s, p, ph.(stage := Synced)).(files := s.files[ph.file := s.files[ph.file].(synced := true)])
      case Close => Move(s, p, ph.(stage := Closed))
      case Rename =>
        Move(s, p, Stored)
          .(path := Some(ph.file), temps := s.temps - {ph.file},
            past := s.past.(published := s.past.published + {ph.file}))
      case Fail => Move(s, p, ph.(stage := Failing))
      case Unlink => Move(s, p, SetFailed).(temps := s.temps - {ph.file})
      case StartGet =>
        if s.path.None? then Move(s, p, Returned(None, None))
        else Move(s, p, Reader(s.path.value, "", s.files[s.path.value].content))
      case Read(n) => Move(s, p, ph.(got := ph.got + s.files[ph.file].content[|ph.got|..|ph.got| + n]))
      case EndOfFile => Move(s, p, Returned(Some(ph.got), Some(ph.held)))
      case Clear => s.(path := None)
      case Crash => Move(s, p, Fallen(ph))
  }

  /** A writer puts its next bytes at the end of its file. */
  function Append(s: System, p: nat, n: nat): System
    requires p < |s.procs| && s.procs[p].Writer? && s.procs[p].stage.Filling?
    requires s.procs[p].stage.written + n <= |s.procs[p].data|
  {
    var ph := s.procs[p];
    var k := ph.stage.written;
    var moved := Move(s, p, ph.(stage := Filling(k + n)));
    if ph.file < |s.files| then
      moved.(files := s.files[ph.file := File(s.files[ph.file].content + ph.data[k..k + n], false)])
    else moved
  }

  /** Every process ends; what was not synced may read as anything. */
  function Outage(s: System, garbled: seq<string>): System
    requires |garbled| == |s.files|
  {
    s.(procs := seq(|s.procs|, p requires 0 <= p < |s.procs| => Fallen(s.procs[p])),
       files := seq(|s.files|, i requires 0 <= i < |s.files| =>
         if s.files[i].synced then s.files[i] else File(garbled[i], false)))
  }

  predicate Initial(s: System) {
    && (forall p :: 0 <= p < |s.procs| ==> s.procs[p].Idle?) && s.temps == {} && s.past.sets == {}
    && match s.past.initial
       case None => s.files == [] && s.path == None && s.past.published == {}
       case Some(text) => s.files == [File(text, true)] && s.path == Some(0) && s.past.published == {0}
  }

  ghost predicate Reaches(s: System, events: seq<Event>, t: System)
    decreases |events|
  {
    if events == [] then s == t
    else Enabled(s, events[0]) && Reaches(Step(s, events[0]), events[1..], t)
  }

  // --------------------------------------------------------------- invariant

  /** One complete value passed to some `Set`, or the one there from the start. */
  predicate Whole(h: History, text: string) { text in h.sets || h.initial == Some(text) }

  predicate PublishedOk(files: seq<File>, h: History, i: nat) {
    i < |files| && files[i].synced && Whole(h, files[i].content)
  }

  predicate ProcessOk(files: seq<File>, h: History, ph: Process) {
    match ph
    case Writer(i, data, stage) =>
      && i < |files| && i !in h.published && data in h.sets
      && (match stage
          case Filling(k) => k <= |data| && files[i] == File(data[..k], false)
          case Failing => true
          case _ => files[i] == File(data, true))
    case Reader(i, got, held) => i in h.published && i < |files| && got <= held && files[i].content == held
    case Returned(text, atOpen) => text == atOpen && (text.Some? ==> Whole(h, text.value))
    case _ => true
  }

  predicate OwnFile(a: Process, b: Process) { a.Writer? && b.Writer? ==> a.file != b.file }

  ghost predicate Inv(s: System) {
    && (s.path.Some? ==> s.path.value in s.past.published)
    && (forall i :: i in s.past.published ==> PublishedOk(s.files, s.past, i))
    && (forall p :: 0 <= p < |s.procs| ==> ProcessOk(s.files, s.past, s.procs[p]))
    && (forall p, q :: 0 <= p < q < |s.procs| ==> OwnFile(s.procs[p], s.procs[q]))
  }

  /** What other processes rely on: published files stay as they are, and so does a file
      that another writer owns. */
  ghost predicate Undisturbed(s: System, t: System, ph: Process) {
    && s.past.sets <= t.past.sets && s.past.initial == t.past.initial && s.past.published <= t.past.published
    && (forall i :: i in s.past.published ==> i < |t.files| && i < |s.files| && t.files[i] == s.files[i])
    && (ph.Writer? ==> ph.file < |t.files| && ph.file < |s.files| && t.files[ph.file] == s.files[ph.file]
                       && ph.file !in t.past.published)
  }

  lemma StaysOk(s: System, t: System, ph: Process)
    requires ProcessOk(s.files, s.past, ph) && Undisturbed(s, t, ph)
    ensures ProcessOk(t.files, t.past, ph)
  {}

  lemma InitialInv(s: System)
    requires Initial(s)
    ensures Inv(s)
  {}

  /** A step of process `p` that leaves the others undisturbed and itself in order. */
  lemma ActInv(s: System, t: System, p: nat)
    requires Inv(s) && p < |s.procs| == |t.procs|
    requires forall q :: 0 <= q < |s.procs| && q != p ==> t.procs[q] == s.procs[q] && Undisturbed(s, t, s.procs[q])
    requires forall q :: 0 <= q < |s.procs| && q != p ==> OwnFile(t.procs[p], s.procs[q])
    requires ProcessOk(t.files, t.past, t.procs[p])
    requires t.path.Some? ==> t.path.value in t.past.published
    requires forall i :: i in t.past.published ==> PublishedOk(t.files, t.past, i)
    ensures Inv(t)
  {
    hide ProcessOk, Undisturbed, PublishedOk;
    forall q | 0 <= q < |t.procs| ensures ProcessOk(t.files, t.past, t.procs[q]) {
      if q != p { StaysOk(s, t, s.procs[q]); }
    }
    forall q, r | 0 <= q < r < |t.procs| ensures OwnFile(t.procs[q], t.procs[r]) {
      assert OwnFile(s.procs[q], s.procs[r]);
    }
  }

  lemma WriterStep(s: System, p: nat, a: Action)
    requires Inv(s) && Enabled(s, Act(p, a)) && s.procs[p].Writer?
    ensures Inv(Step(s, Act(p, a)))
  {
    var t := Step(s, Act(p, a));
    var ph := s.procs[p];
    assert ProcessOk(s.files, s.past, ph);
    forall q | 0 <= q < |s.procs| && q != p
      ensures t.procs[q] == s.procs[q] && Undisturbed(s, t, s.procs[q]) && OwnFile(t.procs[p], s.procs[q]) {
      assert ProcessOk(s.files, s.past, s.procs[q]);
      assert if p < q then OwnFile(ph, s.procs[q]) else OwnFile(s.procs[q], ph);
    }
    if a.Write? {
      var k := ph.stage.written;
      assert ph.data[..k] + ph.data[k..k + a.bytes] == ph.data[..k + a.bytes];
    }
    if a.Sync? { assert ph.data[..|ph.data|] == ph.data; }
    ActInv(s, t, p);
  }

  lemma OtherOk(s: System, p: nat, a: Action)
    requires Inv(s) && Enabled(s, Act(p, a)) && !s.procs[p].Writer?
    ensures var t := Step(s, Act(p, a)); ProcessOk(t.files, t.past, t.procs[p])
  {
    var ph := s.procs[p];
    assert ProcessOk(s.files, s.past, ph);
    if a.Read? {
      var n := |ph.got| + a.bytes;
      assert ph.got + ph.held[|ph.got|..n] == ph.held[..n];
    }
    if a.StartGet? && s.path.Some? { assert PublishedOk(s.files, s.past, s.path.value); }
    if a.EndOfFile? {
      assert PublishedOk(s.files, s.past, ph.file);
      assert ph.got == ph.held;
    }
  }

  lemma OtherStep(s: System, p: nat, a: Action)
    requires Inv(s) && Enabled(s, Act(p, a)) && !s.procs[p].Writer?
    ensures Inv(Step(s, Act(p, a)))
  {
    var t := Step(s, Act(p, a));
    var ph := s.procs[p];
    assert ProcessOk(s.files, s.past, ph);
    forall q | 0 <= q < |s.procs| && q != p
      ensures t.procs[q] == s.procs[q] && Undisturbed(s, t, s.procs[q]) && OwnFile(t.procs[p], s.procs[q]) {
      assert ProcessOk(s.files, s.past, s.procs[q]);
    }
    OtherOk(s, p, a);
    ActInv(s, t, p);
  }

  lemma OutageInv(s: System, garbled: seq<string>)
    requires Inv(s) && |garbled| == |s.files|
    ensures Inv(Outage(s, garbled))
  {
    var t := Outage(s, garbled);
    forall i | i in t.past.published ensures PublishedOk(t.files, t.past, i) {
      assert PublishedOk(s.files, s.past, i);
    }
  }

  lemma {:induction false} RunInv(s: System, events: seq<Event>, t: System)
    requires Inv(s) && Reaches(s, events, t)
    ensures Inv(t) && t.past.initial == s.past.initial
    decreases |events|
  {
    hide Inv;
    if events != [] {
      match events[0] {
        case PowerLoss(garbled) => OutageInv(s, garbled);
        case Act(p, a) => if s.procs[p].Writer? { WriterStep(s, p, a); } else { OtherStep(s, p, a); }
      }
      RunInv(Step(s, events[0]), events[1..], t);
    }
  }

  // ---------------------------------------------------------------- theorems

  /** Some `Set` of the run was called with that value, or it was there from the start. */
  ghost predicate Given(s: System, events: seq<Event>, text: string) {
    s.past.initial == Some(text) || exists p :: Act(p, StartSet(text)) in events
  }

  lemma {:induction false} SetsAreCalls(s: System, events: seq<Event>, t: System)
    requires Reaches(s, events, t)
    ensures forall text :: text in t.past.sets ==> text in s.past.sets || exists p :: Act(p, StartSet(text)) in events
    decreases |events|
  {
    if events != [] {
      var u := Step(s, events[0]);
      SetsAreCalls(u, events[1..], t);
      forall text | text in t.past.sets && text !in s.past.sets ensures exists p :: Act(p, StartSet(text)) in events {
        if text in u.past.sets { assert events[0] == Act(events[0].p, StartSet(text)); }
      }
    }
  }

  /** At every moment the path is absent or names a file, safe on disk, with one complete
      value passed to some `Set` or the initial one. */
  lemma PathIsWhole(s: System, events: seq<Event>, t: System)
    requires Initial(s) && Reaches(s, events, t)
    ensures t.path.Some? ==>
              && t.path.value < |t.files| && t.files[t.path.value].synced
              && Given(s, events, t.files[t.path.value].content)
  {
    InitialInv(s);
    RunInv(s, events, t);
    SetsAreCalls(s, events, t);
    assert t.path.Some? ==> PublishedOk(t.files, t.past, t.path.value);
  }

  /** A read that ends returns exactly what the path held when it was opened, whatever was
      renamed or removed meanwhile: a miss, or one complete value. */
  lemma ReadsAreWhole(s: System, events: seq<Event>, t: System, p: nat)
    requires Initial(s) && Reaches(s, events, t) && p < |t.procs| && t.procs[p].Returned?
    ensures t.procs[p].text == t.procs[p].atOpen
    ensures t.procs[p].text.Some? ==> Given(s, events, t.procs[p].text.value)
  {
    InitialInv(s);
    RunInv(s, events, t);
    SetsAreCalls(s, events, t);
    assert ProcessOk(t.files, t.past, t.procs[p]);
  }

  /** What a `Set` has not synced a power loss may turn into anything; that is why it syncs
      before it renames. */
  lemma UnsyncedMayChange(s: System, events: seq<Event>, t: System, p: nat, garbled: seq<string>)
    requires Initial(s) && Reaches(s, events, t) && p < |t.procs| && t.procs[p].Writer? && t.procs[p].stage.Filling?
    requires |garbled| == |t.files|
    ensures var i, after := t.procs[p].file, Outage(t, garbled);
            i < |t.files| && after.files[i].content == garbled[i] && t.path != Some(i)
  {
    InitialInv(s);
    RunInv(s, events, t);
    assert ProcessOk(t.files, t.past, t.procs[p]);
  }

  // ------------------------------------------------- what a finished `Set` achieves

  /** What the path names. */
  function Held(s: System): Option<string> {
    if s.path.Some? && s.path.value < |s.files| then Some(s.files[s.path.value].content) else None
  }

  /** The value of the last `Set` process `p` began. */
  function LastSet(events: seq<Event>, p: nat): Option<string> {
    if events == [] then None else
      var n := |events| - 1;
      if events[n].Act? && events[n].p == p && events[n].a.StartSet? then Some(events[n].a.data)
      else LastSet(events[..n], p)
  }

  /** The value that the last rename or removal left at the path. */
  function LastKept(initial: Option<string>, events: seq<Event>): Option<string> {
    if events == [] then initial else
      var n := |events| - 1;
      if events[n].Act? && events[n].a.Rename? then LastSet(events[..n], events[n].p)
      else if events[n].Act? && events[n].a.Clear? then None
      else LastKept(initial, events[..n])
  }

  /** A run with its last event apart. */
  lemma {:induction false} LastStep(s: System, events: seq<Event>, t: System) returns (u: System)
    requires events != [] && Reaches(s, events, t)
    ensures var n := |events| - 1; Reaches(s, events[..n], u) && Enabled(u, events[n]) && t == Step(u, events[n])
    decreases |events|
  {
    var n := |events| - 1;
    if n == 0 {
      u := s;
    } else {
      u := LastStep(Step(s, events[0]), events[1..], t);
      assert events[1..][..n - 1] == events[..n][1..];
    }
  }

  lemma {:induction false} WriterHasLastSet(s: System, events: seq<Event>, t: System, p: nat)
    requires Initial(s) && Reaches(s, events, t) && p < |t.procs| && t.procs[p].Writer?
    ensures LastSet(events, p) == Some(t.procs[p].data)
    decreases |events|
  {
    if events != [] {
      var u := LastStep(s, events, t);
      if u.procs[p].Writer? { WriterHasLastSet(s, events[..|events| - 1], u, p); }
    }
  }

  /** A step changes what the path names only by a rename, which puts the writer's value
      there, and by a removal; a power loss does not. */
  lemma HeldStep(s: System, e: Event)
    requires Inv(s) && Enabled(s, e)
    ensures Held(Step(s, e)) ==
            if e.Act? && e.a.Rename? then Some(s.procs[e.p].data)
            else if e.Act? && e.a.Clear? then None
            else Held(s)
  {
    hide OwnFile;
    if s.path.Some? { assert PublishedOk(s.files, s.past, s.path.value); }
    if e.Act? { assert ProcessOk(s.files, s.past, s.procs[e.p]); }
  }

  /** In every run the path names the value of the `Set` that renamed last, unless a removal
      came after it: a finished `Set` is what the next `Get` finds. */
  lemma {:induction false} PathIsLastSet(s: System, events: seq<Event>, t: System)
    requires Initial(s) && Reaches(s, events, t)
    ensures Held(t) == LastKept(s.past.initial, events)
    decreases |events|
  {
    hide Enabled, Step, Inv;
    if events == [] {
      assert Held(s) == s.past.initial;
    } else {
      var n := |events| - 1;
      var u := LastStep(s, events, t);
      PathIsLastSet(s, events[..n], u);
      InitialInv(s);
      RunInv(s, events[..n], u);
      HeldStep(u, events[n]);
      if events[n].Act? && events[n].a.Rename? {
        RenamerWrites(u, events[n].p);
        WriterHasLastSet(s, events[..n], u, events[n].p);
      }
    }
  }

  lemma RenamerWrites(s: System, p: nat)
    requires Enabled(s, Act(p, Rename))
    ensures p < |s.procs| && s.procs[p].Writer?
  {}

  /** What process `p` did last, removals apart; nothing if it was cut off since. */
  function LastAct(events: seq<Event>, p: nat): Option<Action> {
    if events == [] then None else
      var n := |events| - 1;
      match events[n]
      case PowerLoss(_) => None
      case Act(q, a) => if q != p || a.Clear? then LastAct(events[..n], p) else Some(a)
  }

  lemma StepProcs(s: System, e: Event)
    requires Enabled(s, e)
    ensures |Step(s, e).procs| == |s.procs|
  {}

  lemma EndsStep(s: System, e: Event, p: nat)
    requires Enabled(s, e) && p < |s.procs|
    ensures var before, after := s.procs[p], Step(s, e).procs[p];
            match e
            case PowerLoss(_) => !after.Stored? && !after.SetFailed?
            case Act(q, a) =>
              if q != p || a.Clear? then after == before
              else (after.Stored? <==> a.Rename?) && (after.SetFailed? <==> a.Unlink?)
  {}

  /** A `Set` succeeds exactly when it has renamed, and fails exactly when it has removed its
      temporary file. */
  lemma {:induction false} SetEnds(s: System, events: seq<Event>, t: System, p: nat)
    requires Initial(s) && Reaches(s, events, t) && p < |t.procs|
    ensures t.procs[p].Stored? <==> LastAct(events, p) == Some(Rename)
    ensures t.procs[p].SetFailed? <==> LastAct(events, p) == Some(Unlink)
    decreases |events|
  {
    hide Step, Enabled;
    if events != [] {
      var n := |events| - 1;
      var u := LastStep(s, events, t);
      StepProcs(u, events[n]);
      SetEnds(s, events[..n], u, p);
      EndsStep(u, events[n], p);
    }
  }

  /** If the process is reading, or has read, it is from a path that held that. */
  predicate ReadsFor(ph: Process, held: Option<string>) {
    match ph
    case Reader(_, _, text) => held == Some(text)
    case Returned(_, atOpen) => held == atOpen
    case _ => true
  }

  /** A `Get` returns the value of the `Set` that renamed last before it began. */
  lemma GetReturnsLastSet(s: System, before: seq<Event>, u: System, p: nat, after: seq<Event>, t: System)
    requires Initial(s) && Reaches(s, before, u) && Enabled(u, Act(p, StartGet))
    requires Reaches(Step(u, Act(p, StartGet)), after, t) && Act(p, StartGet) !in after
    requires p < |t.procs| && t.procs[p].Returned?
    ensures t.procs[p].text == LastKept(s.past.initial, before)
  {
    PathIsLastSet(s, before, u);
    InitialInv(s);
    RunInv(s, before, u);
    var v := Step(u, Act(p, StartGet));
    if u.procs[p].Writer? { WriterStep(u, p, StartGet); } else { OtherStep(u, p, StartGet); }
    RunInv(v, after, t);
    assert ReadsFor(v.procs[p], Held(u)) by { assert u.path.Some? ==> PublishedOk(u.files, u.past, u.path.value); }
    ReaderKeeps(v, after, t, p, Held(u));
    assert ProcessOk(t.files, t.past, t.procs[p]);
  }

  lemma {:induction false} ReaderKeeps(s: System, events: seq<Event>, t: System, p: nat, held: Option<string>)
    requires Reaches(s, events, t) && p < |s.procs| && ReadsFor(s.procs[p], held) && Act(p, StartGet) !in events
    ensures p < |t.procs| && ReadsFor(t.procs[p], held)
    decreases |events|
  {
    if events != [] {
      assert events == [events[0]] + events[1..];
      ReaderKeeps(Step(s, events[0]), events[1..], t, p, held);
    }
  }

  // ------------------------------------------------------------ temporary files

  /** A temporary file has a writer still at work on it, or one that crashed. */
  ghost predicate Accounted(s: System) {
    && (forall i :: i in s.temps ==> exists p :: 0 <= p < |s.procs| && Owns(s.procs[p], i))
    && forall p :: 0 <= p < |s.procs| && s.procs[p].Writer? ==> s.procs[p].file in s.temps
  }

  predicate Owns(ph: Process, i: nat) { (ph.Writer? && ph.file == i) || ph == Crashed(Some(i)) }

  lemma TempsOwned(s: System, e: Event, i: nat)
    requires Inv(s) && Accounted(s) && Enabled(s, e) && i in Step(s, e).temps
    ensures exists p :: 0 <= p < |Step(s, e).procs| && Owns(Step(s, e).procs[p], i)
  {
    hide ProcessOk, PublishedOk, Inv;
    var t := Step(s, e);
    if i in s.temps {
      var q :| 0 <= q < |s.procs| && Owns(s.procs[q], i);
      assert Owns(t.procs[q], i);
    } else {
      assert Owns(t.procs[e.p], i);
    }
  }

  lemma AccountedStep(s: System, e: Event)
    requires Inv(s) && Accounted(s) && Enabled(s, e)
    ensures Accounted(Step(s, e))
  {
    hide ProcessOk, PublishedOk, Owns;
    var t := Step(s, e);
    forall i | i in t.temps ensures exists p :: 0 <= p < |t.procs| && Owns(t.procs[p], i) { TempsOwned(s, e, i); }
    forall q | 0 <= q < |t.procs| && t.procs[q].Writer? ensures t.procs[q].file in t.temps {
      if e.Act? && e.p != q {
        assert if e.p < q then OwnFile(s.procs[e.p], s.procs[q]) else OwnFile(s.procs[q], s.procs[e.p]);
      }
    }
  }

  lemma {:induction false} RunAccounted(s: System, events: seq<Event>, t: System)
    requires Inv(s) && Accounted(s) && Reaches(s, events, t)
    ensures Accounted(t)
    decreases |events|
  {
    hide Inv, Accounted;
    if events != [] {
      var one := [events[0]];
      assert one[1..] == [] && Reaches(Step(s, events[0]), one[1..], Step(s, events[0]));
      RunInv(s, one, Step(s, events[0]));
      AccountedStep(s, events[0]);
      RunAccounted(Step(s, events[0]), events[1..], t);
    }
  }

  /** Once no `Set` is under way, only crashed ones have left a temporary file. */
  lemma NoLitter(s: System, events: seq<Event>, t: System)
    requires Initial(s) && Reaches(s, events, t) && forall p :: 0 <= p < |t.procs| ==> !t.procs[p].Writer?
    ensures forall i :: i in t.temps ==> exists p :: 0 <= p < |t.procs| && t.procs[p] == Crashed(Some(i))
  {
    InitialInv(s);
    RunAccounted(s, events, t);
    forall i | i in t.temps ensures exists p :: 0 <= p < |t.procs| && t.procs[p] == Crashed(Some(i)) {
      var p :| 0 <= p < |t.procs| && Owns(t.procs[p], i);
    }
  }
}
