/**
 UsbGadget.cpp: the thread that sets the USB functions and the thread that watches the FunctionFS
 endpoints and pulls the gadget up. Calls are serialized by mLockSetCurrentFunction; mLock and the
 event descriptor are all that the two threads share besides the fields.
 */
module UsbMonitor {
  type Endpoint = string

  // A call of setCurrentUsbFunctions: no functions at all, the endpoints that its functions add to the list,
  // and whether there is a callback. ffsEnabled is set exactly where endpoints are added.
  datatype Request = Request(none: bool, eps: seq<Endpoint>, callback: bool)

  // Where the calling thread is: between calls, in tearDownGadget up to Clear, in setupFunctions from TakeLock.
  datatype MainPc =
    | Idle | PullDown | Unlink | Signal | Join | Clear | Decide | TakeLock | Link | Start | Waiting | Report

  // Where a monitor is: looking at endpoint j, about to write the UDC, about to lock mLock, holding it,
  // in epoll_wait, or ended.
  datatype MonPc = Scan(j: nat) | Write | NeedLock | HoldLock | Poll | Ended

  datatype Monitor = Monitor(pc: MonPc, writeUdc: bool)

  // Who holds mLock.
  datatype Owner = Free | Main | Mon(i: nat)

  // What happened: monitor i began to look through the list, found an endpoint, wrote the UDC; a caller was
  // told the outcome of a FunctionFS request, where `session` is the number of its monitor.
  datatype Event = Began(i: nat) | Present(i: nat, ep: Endpoint) | Wrote(i: nat) | Told(session: int, success: bool)

  // The fields of UsbGadget and gadgetPullup. All monitors ever started are kept, the last one is mMonitor.
  // `up` is the state of the hardware: whether the UDC file was last written with the name of the gadget.
  datatype State = State(
    pc: MainPc, request: Request, monitors: seq<Monitor>, created: bool, lock: Owner, endpoints: seq<Endpoint>,
    stop: bool, pullup: bool, applied: bool, up: bool, log: seq<Event>)

  // One step of one thread, with the outcome of the system calls in it.
  datatype Action =
    | Call(request: Request) | PulledDown(ok: bool) | Unlinked(ok: bool) | Signalled | Joined | Cleared
    | Decided(valid: bool) | Locked | Linked(ok: bool, n: nat) | Started(ok: bool) | Woken | Reported
    | Look(i: nat, present: bool) | WroteUdc(i: nat, ok: bool) | TookLock(i: nat) | PulledUp(i: nat)
    | Inotify(i: nat) | Stopped(i: nat)

  const NO_FUNCTIONS: Request := Request(true, [], false)

  const INITIAL: State :=
    State(Idle, NO_FUNCTIONS, [], false, Free, [], false, false, false, false, [])

  predicate Alive(s: State, i: nat) {
    i < |s.monitors| && s.monitors[i].pc != Ended
  }

  function Last(s: State): int {
    |s.monitors| - 1
  }

  // ---------------------------------------------------------------- steps

  /** In setupFunctions, except while it waits on the condition variable. */
  predicate HoldsLock(pc: MainPc) {
    pc == Link || pc == Start || pc == Report
  }

  predicate MainEnabled(s: State, a: Action) {
    match a
    case Call(_) => s.pc == Idle
    case PulledDown(_) => s.pc == PullDown
    case Unlinked(_) => s.pc == Unlink
    case Signalled => s.pc == Signal
    case Joined => s.pc == Join && s.monitors != [] && !Alive(s, |s.monitors| - 1)
    case Cleared => s.pc == Clear
    case Decided(_) => s.pc == Decide
    case Locked => s.pc == TakeLock && s.lock == Free
    case Linked(_, n) => s.pc == Link && n <= |s.request.eps|
    case Started(_) => s.pc == Start
    case Woken => s.pc == Waiting && s.lock == Free
    case Reported => s.pc == Report
    case _ => false
  }

  /** Where the calling thread is after a step. A failure, and the end of the call, lead to Idle. */
  function NextPc(s: State, a: Action): MainPc {
    match a
    case Call(_) => PullDown
    case PulledDown(_) => Unlink
    case Unlinked(ok) => if !ok then Idle else if s.created then Signal else Clear
    case Signalled => Join
    case Joined => Clear
    case Cleared => Decide
    case Decided(valid) => if s.request.none || !valid then Idle else TakeLock
    case Locked => Link
    case Linked(ok, _) => if ok then Start else Idle
    case Started(_) => if Spawns(s, a) && s.request.callback then Waiting else Idle
    case Woken => Report
    case _ => Idle
  }

  /** A new monitor is started; without FunctionFS the gadget is pulled up right away. */
  predicate Spawns(s: State, a: Action) {
    a.Started? && a.ok && s.request.eps != []
  }

  function NextEndpoints(s: State, a: Action): seq<Endpoint>
    requires MainEnabled(s, a)
  {
    match a
    case Cleared => []
    case Linked(ok, n) => s.endpoints + if ok then s.request.eps else s.request.eps[..n]
    case _ => s.endpoints
  }

  /** A step of the calling thread. Waiting on the condition variable releases mLock, as returning does. */
  function MainStep(s: State, a: Action): State
    requires MainEnabled(s, a)
  {
    var pc, spawns := NextPc(s, a), Spawns(s, a);
    s.(pc := pc,
       request := if a.Call? then a.request else s.request,
       lock := if a.Locked? || a.Woken? then Main else if s.lock == Main && !HoldsLock(pc) then Free else s.lock,
       created := (s.created && !a.Joined?) || spawns,
       monitors := s.monitors + if spawns then [Monitor(Scan(0), true)] else [],
       endpoints := NextEndpoints(s, a),
       stop := (s.stop || a.Signalled?) && !a.Cleared?,
       pullup := s.pullup && !spawns,
       applied := (s.applied && !a.Call?) || (a.Started? && a.ok && !spawns),
       up := (s.up && !(a.PulledDown? && a.ok)) || (a.Started? && a.ok && !spawns),
       log := s.log + if a.Reported? then [Told(Last(s), s.pullup)] else if spawns then [Began(|s.monitors|)] else [])
  }

  predicate MonEnabled(s: State, a: Action) {
    match a
    case Look(i, _) => Alive(s, i) && s.monitors[i].pc.Scan?
    case WroteUdc(i, _) => Alive(s, i) && s.monitors[i].pc == Write
    case TookLock(i) => Alive(s, i) && s.monitors[i].pc == NeedLock && s.lock == Free
    case PulledUp(i) => Alive(s, i) && s.monitors[i].pc == HoldLock
    case Inotify(i) => Alive(s, i) && s.monitors[i].pc == Poll
    case Stopped(i) => Alive(s, i) && s.monitors[i].pc == Poll && s.stop
    case _ => false
  }

  /** Where a monitor is after a step, with `n` endpoints in the list. */
  function NextMonitor(m: Monitor, a: Action, n: nat): Monitor {
    match a
    case Look(_, present) =>
      if !m.pc.Scan? then m
      else if m.pc.j >= n then m.(pc := if m.writeUdc then Write else Poll)
      else if !present then Monitor(Poll, true)
      else m.(pc := Scan(m.pc.j + 1))
    case WroteUdc(_, ok) => Monitor(if ok then NeedLock else Poll, true)
    case TookLock(_) => m.(pc := HoldLock)
    case PulledUp(_) => Monitor(Poll, false)
    case Inotify(_) => m.(pc := Scan(0))
    case Stopped(_) => m.(pc := Ended)
    case _ => m
  }

  function NewEvents(m: Monitor, a: Action, eps: seq<Endpoint>): seq<Event> {
    match a
    case Look(i, true) => if m.pc.Scan? && m.pc.j < |eps| then [Present(i, eps[m.pc.j])] else []
    case WroteUdc(i, true) => [Wrote(i)]
    case Inotify(i) => [Began(i)]
    case _ => []
  }

  /** A step of monitorFfs. */
  function MonStep(s: State, a: Action): State
    requires MonEnabled(s, a)
  {
    var m, up := s.monitors[a.i], a.PulledUp?;
    s.(monitors := s.monitors[a.i := NextMonitor(m, a, |s.endpoints|)],
       log := s.log + NewEvents(m, a, s.endpoints),
       lock := if a.TookLock? then Mon(a.i) else if up then Free else s.lock,
       applied := s.applied || up,
       pullup := s.pullup || up,
       up := s.up || (a.WroteUdc? && a.ok))
  }

  predicate Enabled(s: State, a: Action) {
    MainEnabled(s, a) || MonEnabled(s, a)
  }

  function Step(s: State, a: Action): State
    requires Enabled(s, a)
  {
    if MainEnabled(s, a) then MainStep(s, a) else MonStep(s, a)
  }

  /** The steps of the two threads in some order lead from s to t. */
  predicate Runs(s: State, acts: seq<Action>, t: State)
    decreases |acts|
  {
    if acts == [] then s == t else Enabled(s, acts[0]) && Runs(Step(s, acts[0]), acts[1..], t)
  }

  // ---------------------------------------------------------------- the invariant

  /** Monitor i began to look through the list at place b, has not begun again, and found n endpoints since. */
  ghost predicate FoundSince(log: seq<Event>, b: nat, i: nat, eps: seq<Endpoint>, n: nat) {
    && b < |log| && log[b] == Began(i) && Began(i) !in log[b + 1..]
    && n <= |eps| && forall k :: 0 <= k < n ==> Present(i, eps[k]) in log[b + 1..]
  }

  /** Monitor i has found the first n endpoints in one scan that is not over. */
  ghost predicate InOneScan(log: seq<Event>, i: nat, eps: seq<Endpoint>, n: nat) {
    exists b :: FoundSince(log, b, i, eps, n)
  }

  /** Monitor i pulled the gadget up right after one scan that found every endpoint of the list. */
  ghost predicate PulledUpAfterScan(log: seq<Event>, i: nat, eps: seq<Endpoint>) {
    exists w :: 0 <= w < |log| && log[w] == Wrote(i) && InOneScan(log[..w], i, eps, |eps|)
  }

  /** What a monitor has done by the time it is at a place. */
  ghost predicate HasDone(m: Monitor, i: nat, log: seq<Event>, eps: seq<Endpoint>) {
    && (m.pc.Scan? ==> InOneScan(log, i, eps, m.pc.j))
    && (m.pc == Write ==> InOneScan(log, i, eps, |eps|))
    && (m.pc == NeedLock || m.pc == HoldLock ==> PulledUpAfterScan(log, i, eps))
  }

  /** After the join and before the next monitor is started. */
  predicate Between(pc: MainPc) {
    pc == Clear || pc == Decide || pc == TakeLock || pc == Link || pc == Start
  }

  /** Only the last monitor can be alive, and only while mMonitorCreated is set. */
  ghost predicate ThreadsOk(s: State) {
    && (forall i :: 0 <= i < |s.monitors| && s.monitors[i].pc != Ended ==> i == Last(s) && s.created)
    && (s.created ==> s.monitors != [])
    && (Between(s.pc) ==> !s.created)
    && (s.pc == Signal || s.pc == Join || s.pc == Waiting || s.pc == Report ==> s.created)
    && (s.created && s.pc != Join ==> !s.stop && s.monitors[Last(s)].pc != Ended)
    && (s.pc == Join ==> s.stop)
    && (s.pc == Decide || s.pc == TakeLock || s.pc == Link || s.pc == Start ==> !s.stop)
  }

  ghost predicate ListOk(s: State) {
    && (s.pc == Decide || s.pc == TakeLock || s.pc == Link ==> s.endpoints == [])
    && (s.pc == Start || s.pc == Waiting || s.pc == Report ==> s.endpoints == s.request.eps)
    && (s.pc == Waiting || s.pc == Report ==> s.request.callback)
    && (s.created ==> s.endpoints != [])
  }

  ghost predicate LockOk(s: State) {
    && (s.lock == Main <==> HoldsLock(s.pc))
    && (s.lock.Mon? ==> s.lock.i < |s.monitors|)
    && (forall i :: 0 <= i < |s.monitors| ==> (s.monitors[i].pc == HoldLock <==> s.lock == Mon(i)))
  }

  /** Nobody is told, and the fields do not say, that the gadget is up before it is. */
  ghost predicate WorkOk(s: State) {
    s.created
    ==> s.monitors != [] && HasDone(s.monitors[Last(s)], Last(s), s.log, s.endpoints)
        && (s.pullup ==> PulledUpAfterScan(s.log, Last(s), s.endpoints))
  }

  /** While a caller waits, the gadget is up as soon as a monitor is about to say so. */
  ghost predicate UpOk(s: State) {
    s.pc == Waiting || s.pc == Report
    ==> s.monitors != [] && s.created
        && (s.pullup || s.monitors[Last(s)].pc == NeedLock || s.monitors[Last(s)].pc == HoldLock ==> s.up)
  }

  ghost predicate Inv(s: State) {
    ThreadsOk(s) && ListOk(s) && LockOk(s) && WorkOk(s) && UpOk(s)
  }

  lemma MoreFound(log: seq<Event>, e: Event, i: nat, eps: seq<Endpoint>, n: nat)
    requires InOneScan(log, i, eps, n) && e != Began(i)
    ensures InOneScan(log + [e], i, eps, n)
    ensures n < |eps| && e == Present(i, eps[n]) ==> InOneScan(log + [e], i, eps, n + 1)
  {
    var b :| FoundSince(log, b, i, eps, n);
    assert (log + [e])[b + 1..] == log[b + 1..] + [e];
    assert FoundSince(log + [e], b, i, eps, n);
    assert n < |eps| && e == Present(i, eps[n]) ==> FoundSince(log + [e], b, i, eps, n + 1);
  }

  lemma MorePulledUp(log: seq<Event>, e: Event, i: nat, eps: seq<Endpoint>)
    requires PulledUpAfterScan(log, i, eps)
    ensures PulledUpAfterScan(log + [e], i, eps)
  {
    var w :| 0 <= w < |log| && log[w] == Wrote(i) && InOneScan(log[..w], i, eps, |eps|);
    assert (log + [e])[w] == Wrote(i) && (log + [e])[..w] == log[..w];
  }

  lemma WroteNow(log: seq<Event>, i: nat, eps: seq<Endpoint>)
    requires InOneScan(log, i, eps, |eps|)
    ensures PulledUpAfterScan(log + [Wrote(i)], i, eps)
  {
    var r := log + [Wrote(i)];
    assert r[|log|] == Wrote(i) && r[..|log|] == log;
  }

  lemma ScanBegins(log: seq<Event>, i: nat, eps: seq<Endpoint>)
    ensures InOneScan(log + [Began(i)], i, eps, 0)
  {
    var r := log + [Began(i)];
    assert r[|log| + 1..] == [];
    assert FoundSince(r, |log|, i, eps, 0);
  }

  lemma ThreadsKeptByMain(s: State, a: Action)
    requires ThreadsOk(s) && MainEnabled(s, a) && !a.Started?
    ensures ThreadsOk(MainStep(s, a))
  {
  }

  lemma ThreadsKeptByStart(s: State, a: Action)
    requires ThreadsOk(s) && MainEnabled(s, a) && a.Started?
    ensures ThreadsOk(MainStep(s, a))
  {
  }

  lemma ListKeptByMain(s: State, a: Action)
    requires ThreadsOk(s) && ListOk(s) && UpOk(s) && MainEnabled(s, a)
    ensures ListOk(MainStep(s, a)) && UpOk(MainStep(s, a))
  {
  }

  lemma LockKeptByMain(s: State, a: Action)
    requires ThreadsOk(s) && LockOk(s) && MainEnabled(s, a)
    ensures LockOk(MainStep(s, a))
  {
  }

  lemma WorkKeptByMain(s: State, a: Action)
    requires Inv(s) && MainEnabled(s, a)
    ensures WorkOk(MainStep(s, a))
  {
    hide InOneScan, PulledUpAfterScan, LockOk, UpOk;
    assert s.log + [] == s.log && s.monitors + [] == s.monitors;
    if a.Started? {
      ScanBegins(s.log, |s.monitors|, s.endpoints);
    } else if a.Reported? {
      DoneAfter(s.monitors[Last(s)], s.log, Told(Last(s), s.pullup), Last(s), s.endpoints);
    }
  }

  /** An event of another thread takes nothing back. */
  lemma DoneAfter(m: Monitor, log: seq<Event>, e: Event, i: nat, eps: seq<Endpoint>)
    requires e.Told?
    ensures HasDone(m, i, log, eps) ==> HasDone(m, i, log + [e], eps)
    ensures PulledUpAfterScan(log, i, eps) ==> PulledUpAfterScan(log + [e], i, eps)
  {
    hide InOneScan, PulledUpAfterScan;
    if m.pc.Scan? && InOneScan(log, i, eps, m.pc.j) {
      MoreFound(log, e, i, eps, m.pc.j);
    }
    if InOneScan(log, i, eps, |eps|) {
      MoreFound(log, e, i, eps, |eps|);
    }
    if PulledUpAfterScan(log, i, eps) {
      MorePulledUp(log, e, i, eps);
    }
  }

  lemma FieldsKeptByMonitor(s: State, a: Action)
    requires ThreadsOk(s) && ListOk(s) && MonEnabled(s, a)
    ensures var t := MonStep(s, a); ThreadsOk(t) && ListOk(t)
  {
  }

  lemma UpKeptByMonitor(s: State, a: Action)
    requires ThreadsOk(s) && UpOk(s) && MonEnabled(s, a)
    ensures UpOk(MonStep(s, a))
  {
  }

  lemma LockKeptByMonitor(s: State, a: Action)
    requires LockOk(s) && MonEnabled(s, a)
    ensures LockOk(MonStep(s, a))
  {
  }

  /** The work of one monitor before and after its step. */
  lemma LookDone(m: Monitor, a: Action, log: seq<Event>, eps: seq<Endpoint>)
    requires m.pc.Scan? && a.Look? && HasDone(m, a.i, log, eps)
    ensures HasDone(NextMonitor(m, a, |eps|), a.i, log + NewEvents(m, a, eps), eps)
    ensures PulledUpAfterScan(log, a.i, eps) ==> PulledUpAfterScan(log + NewEvents(m, a, eps), a.i, eps)
  {
    hide InOneScan, PulledUpAfterScan;
    var j := m.pc.j;
    assert log + [] == log;
    if j >= |eps| {
      FoundAll(log, a.i, eps, j);
    } else if a.present {
      MoreFound(log, Present(a.i, eps[j]), a.i, eps, j);
      if PulledUpAfterScan(log, a.i, eps) {
        MorePulledUp(log, Present(a.i, eps[j]), a.i, eps);
      }
    }
  }

  lemma StepDone(m: Monitor, a: Action, log: seq<Event>, eps: seq<Endpoint>)
    requires a.WroteUdc? || a.TookLock? || a.PulledUp? || a.Inotify? || a.Stopped?
    requires HasDone(m, a.i, log, eps) && (a.WroteUdc? ==> m.pc == Write) && (a.TookLock? ==> m.pc == NeedLock)
    ensures HasDone(NextMonitor(m, a, |eps|), a.i, log + NewEvents(m, a, eps), eps)
    ensures PulledUpAfterScan(log, a.i, eps) ==> PulledUpAfterScan(log + NewEvents(m, a, eps), a.i, eps)
  {
    hide InOneScan, PulledUpAfterScan;
    assert log + [] == log;
    ScanBegins(log, a.i, eps);
    if a.WroteUdc? && a.ok {
      WroteNow(log, a.i, eps);
    }
    if a.Inotify? && PulledUpAfterScan(log, a.i, eps) {
      MorePulledUp(log, Began(a.i), a.i, eps);
    }
  }

  lemma WorkKeptByMonitor(s: State, a: Action)
    requires ThreadsOk(s) && WorkOk(s) && MonEnabled(s, a)
    ensures WorkOk(MonStep(s, a))
  {
    hide HasDone, PulledUpAfterScan, NextMonitor, NewEvents;
    assert a.i == Last(s) && s.created;
    var m := s.monitors[a.i];
    if a.Look? {
      LookDone(m, a, s.log, s.endpoints);
    } else {
      StepDone(m, a, s.log, s.endpoints);
    }
    HoldingHasPulled(m, a.i, s.log, s.endpoints);
  }

  lemma HoldingHasPulled(m: Monitor, i: nat, log: seq<Event>, eps: seq<Endpoint>)
    requires HasDone(m, i, log, eps)
    ensures m.pc == HoldLock ==> PulledUpAfterScan(log, i, eps)
  {
  }

  lemma FoundAll(log: seq<Event>, i: nat, eps: seq<Endpoint>, n: nat)
    ensures InOneScan(log, i, eps, n) && n >= |eps| ==> InOneScan(log, i, eps, |eps|)
  {
  }

  /** Every step of either thread keeps the invariant. */
  lemma StepKeeps(s: State, a: Action)
    requires Inv(s) && Enabled(s, a)
    ensures Inv(Step(s, a))
  {
    hide ThreadsOk, ListOk, LockOk, WorkOk, UpOk, MainStep, MonStep;
    if MainEnabled(s, a) {
      if a.Started? {
        ThreadsKeptByStart(s, a);
      } else {
        ThreadsKeptByMain(s, a);
      }
      ListKeptByMain(s, a);
      LockKeptByMain(s, a);
      WorkKeptByMain(s, a);
    } else {
      FieldsKeptByMonitor(s, a);
      UpKeptByMonitor(s, a);
      LockKeptByMonitor(s, a);
      WorkKeptByMonitor(s, a);
    }
  }

  lemma {:induction false} RunKeeps(s: State, acts: seq<Action>, t: State)
    requires Inv(s) && Runs(s, acts, t)
    ensures Inv(t)
    decreases |acts|
  {
    if acts == [] {
    } else {
      hide Inv, Step;
      StepKeeps(s, acts[0]);
      RunKeeps(Step(s, acts[0]), acts[1..], t);
    }
  }

  // ---------------------------------------------------------------- what holds in every run

  lemma InitialOk()
    ensures Inv(INITIAL)
  {
  }

  lemma RunsKeep(acts: seq<Action>, s: State)
    requires Runs(INITIAL, acts, s)
    ensures Inv(s)
  {
    InitialOk();
    RunKeeps(INITIAL, acts, s);
  }

  /** In every reachable state at most one monitor is alive: the one of mMonitor, with mMonitorCreated set. */
  lemma OneMonitor(acts: seq<Action>, s: State, i: nat, j: nat)
    requires Runs(INITIAL, acts, s) && Alive(s, i) && Alive(s, j)
    ensures i == j == Last(s) && s.created
  {
    RunsKeep(acts, s);
  }

  /** The endpoint list only changes, and the descriptors are only reset and replaced, while no monitor
      is alive. The step that replaces them may start one. */
  lemma ListChangesAlone(acts: seq<Action>, s: State, a: Action, i: nat)
    requires Runs(INITIAL, acts, s) && Enabled(s, a)
    ensures Step(s, a).endpoints != s.endpoints || (s.stop && !Step(s, a).stop) || a.Cleared? || a.Started?
            ==> !Alive(s, i)
    ensures Alive(Step(s, a), i) && !Alive(s, i) ==> a.Started? && a.ok && i == |s.monitors|
  {
    hide WorkOk, ListOk, UpOk, Runs, LockOk;
    RunsKeep(acts, s);
  }

  /** A monitor can take a step; one that is in epoll_wait can end. */
  predicate CanMove(s: State, i: nat) {
    Alive(s, i)
    && match s.monitors[i].pc
       case Scan(_) => MonEnabled(s, Look(i, true))
       case Write => MonEnabled(s, WroteUdc(i, true))
       case NeedLock => MonEnabled(s, TookLock(i))
       case HoldLock => MonEnabled(s, PulledUp(i))
       case Poll => MonEnabled(s, Stopped(i))
       case Ended => false
  }

  /**
   The join in tearDownGadget never waits while the caller holds mLock, and never for nothing: as
   long as the monitor has not ended it can take a step, and at its next wait it can stop.
   */
  lemma JoinIsSafe(acts: seq<Action>, s: State)
    requires Runs(INITIAL, acts, s) && s.pc == Join
    ensures s.lock != Main && s.monitors != []
    ensures if Alive(s, |s.monitors| - 1) then CanMove(s, |s.monitors| - 1) else Enabled(s, Joined)
  {
    hide WorkOk, ListOk, UpOk, Runs;
    RunsKeep(acts, s);
    var i := |s.monitors| - 1;
    if Alive(s, i) && s.monitors[i].pc == NeedLock {
      LockIsFree(s, i);
    }
  }

  lemma LockIsFree(s: State, i: nat)
    requires ThreadsOk(s) && LockOk(s) && !HoldsLock(s.pc) && Alive(s, i) && s.monitors[i].pc == NeedLock
    ensures s.lock == Free
  {
  }

  /**
   A caller that is told success for a FunctionFS request can rely on it: in one scan right before it
   pulled the gadget up, the monitor of this very call found every endpoint of the request, and the
   gadget is still up.
   */
  lemma SuccessIsEarned(acts: seq<Action>, s: State)
    requires Runs(INITIAL, acts, s) && Enabled(s, Reported) && s.pullup
    ensures s.request.eps != [] && Step(s, Reported).log == s.log + [Told(Last(s), true)]
    ensures s.monitors != [] && PulledUpAfterScan(s.log, Last(s), s.request.eps) && s.up
  {
    RunsKeep(acts, s);
    hide PulledUpAfterScan;
  }

  // ---------------------------------------------------------------- a request for no functions

  /** Steps in which no new call begins. */
  predicate OneCall(acts: seq<Action>) {
    forall k :: 0 <= k < |acts| ==> !acts[k].Call?
  }

  /** And no attempt to pull the gadget down fails. */
  predicate Inner(acts: seq<Action>) {
    OneCall(acts) && forall k :: 0 <= k < |acts| ==> acts[k].PulledDown? ==> acts[k].ok
  }

  /** A call from s up to its decision that nothing is to be set up. */
  predicate WholeCall(s: State, request: Request, acts: seq<Action>, t: State) {
    && Runs(s, [Call(request)] + acts, t) && OneCall(acts)
    && acts != [] && acts[|acts| - 1].Decided? && t.pc == Idle
  }

  /** Without a monitor nothing can set the field while a request for no functions is handled. */
  ghost predicate Quiet(s: State) {
    && (s.pc == PullDown || s.pc == Unlink || s.pc == Clear || s.pc == Decide || s.pc == Idle)
    && s.request.none && !s.created && !s.applied
  }

  /** Nor pull the gadget up. */
  predicate Down(s: State) {
    s.pc == PullDown || !s.up
  }

  lemma {:induction false} StaysQuiet(s: State, acts: seq<Action>, t: State)
    requires Inv(s) && Quiet(s) && Runs(s, acts, t) && OneCall(acts)
    ensures Quiet(t) && (Down(s) && Inner(acts) ==> Down(t))
    decreases |acts|
  {
    if acts == [] {
    } else {
      QuietStep(s, acts[0]);
      hide Inv, Step, Quiet, Enabled, Down;
      StepKeeps(s, acts[0]);
      StaysQuiet(Step(s, acts[0]), acts[1..], t);
    }
  }

  lemma QuietStep(s: State, a: Action)
    requires ThreadsOk(s) && Quiet(s) && Enabled(s, a) && !a.Call?
    ensures Quiet(Step(s, a)) && (Down(s) && (a.PulledDown? ==> a.ok) ==> Down(Step(s, a)))
  {
  }

  lemma {:induction false} Goes(s: State, acts: seq<Action>, t: State, a: Action)
    returns (acts': seq<Action>, t': State)
    requires Runs(s, acts, t) && Enabled(t, a)
    ensures acts' == acts + [a] && t' == Step(t, a) && Runs(s, acts', t')
    ensures Inner(acts) && Inner([a]) ==> Inner(acts')
    decreases |acts|
  {
    hide Enabled, Step;
    acts', t' := acts + [a], Step(t, a);
    if acts == [] {
      assert acts' == [a] && acts'[1..] == [];
    } else {
      var rest, u := Goes(Step(s, acts[0]), acts[1..], t, a);
      assert acts'[1..] == rest && acts'[0] == acts[0];
    }
  }

  /** The place in tearDownGadget at which the gadget is down and the old monitor still runs. */
  ghost predicate Exposed(s: State) {
    && Inv(s) && s.pc == Unlink && s.request.none && s.created && s.monitors != []
    && s.monitors[Last(s)].pc != Ended && s.endpoints != []
  }

  /** The old monitor goes on. */
  lemma MonitorGoes(s: State, acts: seq<Action>, t: State, a: Action) returns (acts': seq<Action>, t': State)
    requires Runs(s, acts, t) && Inner(acts) && Exposed(t) && MonEnabled(t, a) && !a.Stopped?
    ensures Runs(s, acts', t') && Inner(acts') && Exposed(t') && a.i == Last(t) == Last(t')
    ensures t'.monitors[Last(t')] == NextMonitor(t.monitors[Last(t)], a, |t.endpoints|)
    ensures t'.endpoints == t.endpoints && t' == MonStep(t, a)
  {
    hide Runs, NewEvents, WorkOk, UpOk, LockOk;
    StepKeeps(t, a);
    assert !MainEnabled(t, a);
    acts', t' := Goes(s, acts, t, a);
  }

  /** It can lock mLock, since the caller does not hold it here. */
  lemma LocksAndTells(s: State, acts: seq<Action>, t: State) returns (acts': seq<Action>, t': State)
    requires Runs(s, acts, t) && Inner(acts) && Exposed(t)
    requires t.monitors[Last(t)].pc == NeedLock || t.monitors[Last(t)].pc == HoldLock
    ensures Runs(s, acts', t') && Inner(acts') && Exposed(t')
    ensures t'.monitors[Last(t')] == Monitor(Poll, false) && t'.applied && t'.up == t.up
  {
    hide Runs, Inner, WorkOk, UpOk, ListOk;
    acts', t' := acts, t;
    if t.monitors[Last(t)].pc == NeedLock {
      LockIsFree(t, Last(t));
      acts', t' := MonitorGoes(s, acts', t', TookLock(Last(t)));
    }
    acts', t' := MonitorGoes(s, acts', t', PulledUp(Last(t)));
  }

  /** Wherever the old monitor is, it can reach epoll_wait. */
  lemma ReachesWait(s: State, acts: seq<Action>, t: State) returns (acts': seq<Action>, t': State)
    requires Runs(s, acts, t) && Inner(acts) && Exposed(t)
    ensures Runs(s, acts', t') && Inner(acts') && Exposed(t') && t'.monitors[Last(t')].pc == Poll
  {
    hide Runs, Inner, Inv;
    acts', t' := acts, t;
    if t'.monitors[Last(t)].pc.Scan? {
      acts', t' := MonitorGoes(s, acts', t', Look(Last(t), false));
    }
    if t'.monitors[Last(t)].pc == Write {
      acts', t' := MonitorGoes(s, acts', t', WroteUdc(Last(t), false));
    } else if t'.monitors[Last(t)].pc != Poll {
      acts', t' := LocksAndTells(s, acts', t');
    }
  }

  /** From there it can see the endpoints vanish, after which it is ready to write the UDC again. */
  lemma SeesNothing(s: State, acts: seq<Action>, t: State) returns (acts': seq<Action>, t': State)
    requires Runs(s, acts, t) && Inner(acts) && Exposed(t) && t.monitors[Last(t)].pc == Poll
    ensures Runs(s, acts', t') && Inner(acts') && Exposed(t') && t'.monitors[Last(t')] == Monitor(Poll, true)
  {
    hide Runs, Inner, Inv;
    acts', t' := MonitorGoes(s, acts, t, Inotify(Last(t)));
    acts', t' := MonitorGoes(s, acts', t', Look(Last(t), false));
  }

  /** And it can find every endpoint from the j-th on. */
  lemma {:induction false} FindsRest(s: State, acts: seq<Action>, t: State, j: nat)
    returns (acts': seq<Action>, t': State)
    requires Runs(s, acts, t) && Inner(acts) && Exposed(t) && t.monitors[Last(t)] == Monitor(Scan(j), true)
    requires j <= |t.endpoints|
    ensures Runs(s, acts', t') && Inner(acts') && Exposed(t') && t'.monitors[Last(t')] == Monitor(Write, true)
    decreases |t.endpoints| - j
  {
    hide Runs, Inner, Inv;
    acts', t' := MonitorGoes(s, acts, t, Look(Last(t), true));
    if j < |t.endpoints| {
      acts', t' := FindsRest(s, acts', t', j + 1);
    }
  }

  /** So it can pull the gadget up once more. */
  lemma PullsUpLate(s: State, acts: seq<Action>, t: State) returns (acts': seq<Action>, t': State)
    requires Runs(s, acts, t) && Inner(acts) && Exposed(t)
    ensures Runs(s, acts', t') && Inner(acts') && Exposed(t')
    ensures t'.monitors[Last(t')].pc == Poll && t'.applied && t'.up
  {
    hide Runs, Inner, Inv;
    acts', t' := ReachesWait(s, acts, t);
    acts', t' := SeesNothing(s, acts', t');
    acts', t' := MonitorGoes(s, acts', t', Inotify(Last(t')));
    acts', t' := FindsRest(s, acts', t', 0);
    acts', t' := MonitorGoes(s, acts', t', WroteUdc(Last(t'), true));
    acts', t' := LocksAndTells(s, acts', t');
  }

  /** The rest of the call, which changes neither. */
  lemma StopsMonitor(s: State, acts: seq<Action>, t: State) returns (acts': seq<Action>, t': State)
    requires Runs(s, acts, t) && Inner(acts) && Exposed(t) && t.monitors[Last(t)].pc == Poll
    ensures Runs(s, acts', t') && Inner(acts') && t'.pc == Clear && !t'.created && t'.request == t.request
    ensures t'.applied == t.applied && t'.up == t.up
  {
    hide Runs, Inner, Inv;
    InnerOne();
    acts', t' := Goes(s, acts, t, Unlinked(true));
    acts', t' := Goes(s, acts', t', Signalled);
    acts', t' := Goes(s, acts', t', Stopped(Last(t)));
    acts', t' := Goes(s, acts', t', Joined);
  }

  lemma InnerOne()
    ensures forall a: Action :: !a.Call? && !a.PulledDown? ==> Inner([a])
  {
  }

  lemma Decides(s: State, acts: seq<Action>, t: State) returns (acts': seq<Action>, t': State)
    requires Runs(s, acts, t) && Inner(acts) && t.pc == Clear && !t.created && t.request.none
    ensures Runs(s, acts', t') && Inner(acts') && acts' != [] && acts'[|acts'| - 1].Decided?
    ensures t'.pc == Idle && !t'.created && t'.request.none && t'.applied == t.applied && t'.up == t.up
  {
    hide Runs;
    acts', t' := Goes(s, acts, t, Cleared);
    acts', t' := Goes(s, acts', t', Decided(true));
  }

  lemma ComesUpLate(s: State, request: Request) returns (acts: seq<Action>, t: State)
    requires Inv(s) && s.pc == Idle && s.created && request.none
    ensures WholeCall(s, request, acts, t) && Inner(acts) && t.request.none && !t.created && t.applied && t.up
  {
    hide Runs;
    var s1 := Step(s, Call(request));
    StepKeeps(s, Call(request));
    NoSteps(s1);
    acts, t := Goes(s1, [], s1, PulledDown(true));
    StepKeeps(s1, PulledDown(true));
    acts, t := PullsUpLate(s1, acts, t);
    acts, t := StopsMonitor(s1, acts, t);
    acts, t := Decides(s1, acts, t);
    RunsFirst(s, Call(request), acts, t);
  }

  lemma RunsOn(s: State, acts: seq<Action>, t: State)
    requires acts != []
    ensures Runs(s, acts, t) <==> Enabled(s, acts[0]) && Runs(Step(s, acts[0]), acts[1..], t)
  {
    hide MainEnabled, MonEnabled, MainStep, MonStep;
  }

  lemma RunsFirst(s: State, a: Action, acts: seq<Action>, t: State)
    ensures Runs(s, [a] + acts, t) <==> Enabled(s, a) && Runs(Step(s, a), acts, t)
  {
    hide Enabled, Step, Runs;
    RunsOn(s, [a] + acts, t);
    assert ([a] + acts)[1..] == acts;
  }

  lemma NoSteps(s: State)
    ensures forall t :: Runs(s, [], t) <==> s == t
  {
  }

  /** If mMonitorCreated is not set, the field stays clear, finished or not, failed or not; and the gadget stays
      down if no attempt to pull it down failed. */
  lemma NoneStaysOff(s: State, request: Request, acts: seq<Action>, t: State)
    requires Inv(s) && s.pc == Idle && !s.created && request.none
    requires Runs(s, [Call(request)] + acts, t) && OneCall(acts)
    ensures !t.applied && (Inner(acts) && t.pc != PullDown ==> !t.up)
  {
    hide Runs;
    StepKeeps(s, Call(request));
    RunsFirst(s, Call(request), acts, t);
    StaysQuiet(Step(s, Call(request)), acts, t);
  }

  /**
   Whether a request for no functions can leave the gadget applied is known before the call: it can
   end with mCurrentUsbFunctionsApplied set if and only if mMonitorCreated is set when it begins, and
   then it can even leave the gadget pulled up, although every attempt to pull it down succeeds.
   */
  lemma NoneCanStayApplied(acts: seq<Action>, s: State, request: Request)
    requires Runs(INITIAL, acts, s) && s.pc == Idle && request.none
    ensures (exists more, t :: WholeCall(s, request, more, t) && t.applied) <==> s.created
    ensures (exists more, t :: WholeCall(s, request, more, t) && Inner(more) && t.up) <==> s.created
  {
    RunsKeep(acts, s);
    if s.created {
      var more, t := ComesUpLate(s, request);
    } else {
      forall more, t | WholeCall(s, request, more, t)
        ensures !t.applied && (Inner(more) ==> !t.up)
      {
        NoneStaysOff(s, request, more, t);
      }
    }
  }

  const ONE_ENDPOINT: Request := Request(false, ["ep1"], false)

  lemma NothingYet() returns (acts: seq<Action>, s: State)
    ensures acts == [] && s == INITIAL && Runs(INITIAL, acts, s)
  {
    acts, s := [], INITIAL;
  }

  lemma FirstTeardown() returns (acts: seq<Action>, s: State)
    ensures Runs(INITIAL, acts, s) && s == INITIAL.(pc := TakeLock, request := ONE_ENDPOINT)
  {
    hide Runs, Inner;
    acts, s := NothingYet();
    acts, s := Goes(INITIAL, acts, s, Call(ONE_ENDPOINT));
    acts, s := Goes(INITIAL, acts, s, PulledDown(true));
    acts, s := Goes(INITIAL, acts, s, Unlinked(true));
    acts, s := Goes(INITIAL, acts, s, Cleared);
    acts, s := Goes(INITIAL, acts, s, Decided(true));
  }

  /** A FunctionFS request without a callback, up to the start of its monitor. */
  lemma FirstCall() returns (acts: seq<Action>, s: State)
    ensures Runs(INITIAL, acts, s) && s.pc == Idle && s.created
  {
    hide Runs, Inner;
    acts, s := FirstTeardown();
    acts, s := Goes(INITIAL, acts, s, Locked);
    acts, s := Goes(INITIAL, acts, s, Linked(true, 0));
    acts, s := Goes(INITIAL, acts, s, Started(true));
  }

  lemma {:induction false} Onwards(s: State, acts: seq<Action>, t: State, more: seq<Action>, u: State)
    requires Runs(s, acts, t) && Runs(t, more, u)
    ensures Runs(s, acts + more, u)
    decreases |acts|
  {
    hide Enabled, Step, Runs;
    var all := acts + more;
    if acts == [] {
      assert all == more;
      NoSteps(s);
    } else {
      assert all[0] == acts[0] && all[1..] == acts[1..] + more;
      RunsOn(s, acts, t);
      Onwards(Step(s, acts[0]), acts[1..], t, more, u);
      RunsOn(s, all, u);
    }
  }

  /** That does happen: no functions are set, no monitor is created, and the gadget is up. */
  lemma AppliedCanBeWrong() returns (acts: seq<Action>, s: State)
    ensures Runs(INITIAL, acts, s) && s.pc == Idle && s.request.none && !s.created && s.applied && s.up
  {
    hide Runs;
    var first, r := FirstCall();
    RunsKeep(first, r);
    var more, t := ComesUpLate(r, NO_FUNCTIONS);
    Onwards(INITIAL, first, r, [Call(NO_FUNCTIONS)] + more, t);
    acts, s := first + ([Call(NO_FUNCTIONS)] + more), t;
  }
}
